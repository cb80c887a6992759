/** The life of a publish over whole runs of the client. */
module PublishRuns {
  import opened Bytes
  import opened PublishManager
  import opened Sequences
  import opened Wrappers
  import TM = TaskManager

  // ----- whole runs

  /** A run of the client, last step first, from an empty list. */
  datatype Run = Start(tasks: nat) | Then(past: Run, step: Step)

  predicate Feasible(run: Run)
    decreases run, 0
  {
    run.Then? ==> Feasible(run.past) && Possible(After(run.past), run.step)
  }

  function After(run: Run): State
    requires Feasible(run)
    decreases run, 1
  {
    match run
    case Start(tasks) => State([], 0, false, Zeros(tasks))
    case Then(past, step) => Next(After(past), step)
  }

  lemma {:induction false} RunIsSane(run: Run)
    requires Feasible(run)
    ensures AllSane(After(run).list) && TasksThere(After(run))
  {
    if run.Then? {
      RunIsSane(run.past);
      StepKeepsSane(After(run.past), run.step);
    }
  }

  predicate HasId(list: seq<Element>, msgId: U16) {
    exists i :: 0 <= i < |list| && list[i].msgId == msgId
  }

  /** No message id is used again while it is in flight. */
  predicate FreshIds(run: Run)
    requires Feasible(run)
  {
    run.Then? ==>
      FreshIds(run.past)
      && (run.step.Publish? || run.step.PublishById? ==> !HasId(After(run.past).list, run.step.msgId))
  }

  /** A PUBREC for this id has come since it was published. */
  predicate PubRecSince(run: Run, msgId: U16) {
    run.Then?
    && (if run.step.PubRec? && run.step.msgId == msgId then true
        else !((run.step.Publish? || run.step.PublishById?) && run.step.msgId == msgId) && PubRecSince(run.past, msgId))
  }

  /** The element that a step takes out of the list, of those that were in it. */
  function Leaves(s: State, step: Step): Option<nat> {
    match step
    case SendSuspend(name, _, _, _) =>
      var i := FirstSuspended(s.list, name);
      if i.Some? && i.value < |s.list| && s.list[i.value].Qos() == 0 then i else None
    case PubAck(msgId, rc) =>
      var i := ById(s.list, msgId);
      if rc == MQTTSN_RC_ACCEPTED && i.Some? && i.value < |s.list|
            && s.list[i.value].status == WaitPuback then i else None
    case PubComp(msgId) =>
      var i := ById(s.list, msgId);
      if i.Some? && i.value < |s.list| && s.list[i.value].status == WaitPubcomp then i else None
    case _ => None
  }

  /** Every other element keeps its place among the ids. */
  lemma OthersStay(s: State, step: Step, k: nat)
    requires Possible(s, step) && AllSane(s.list) && k < |s.list| && Leaves(s, step) != Some(k)
    ensures HasId(Next(s, step).list, s.list[k].msgId)
  {
    var t := Next(s, step);
    match step {
      case SendSuspend(name, topicId, topicType, now) =>
        FirstSuspendedFinds(s.list, name);
        var i := FirstSuspended(s.list, name);
        if i.Some? {
          ReadyIsSendable(s.list[i.value], topicId, topicType);
          StaysWithout(s.list[i.value := ReadyToSend(s.list[i.value], topicId, topicType)], i.value, k);
          assert Leaves(s, step).None? ==> t.list[k].msgId == s.list[k].msgId;
        } else {
          assert t.list[k] == s.list[k];
        }
      case PubAck(msgId, rc) =>
        ByIdFinds(s.list, msgId);
        OthersStayAcked(s, step, k);
      case PubComp(msgId) =>
        ByIdFinds(s.list, msgId);
        OthersStayAcked(s, step, k);
      case CheckTimeout(now) =>
        WalkKeepsElements(s, 0, now);
        assert SameButSent(s.list[k], t.list[k]);
      case Publish(_, _, _, _, _, _, _, _) => assert t.list[k] == s.list[k];
      case PublishById(_, _, _, _, _, _) => assert t.list[k] == s.list[k];
      case PubRec(msgId, _) => ByIdFinds(s.list, msgId); assert t.list[k].msgId == s.list[k].msgId;
      case CallbackStarts => assert t.list[k] == s.list[k];
      case CallbackEnds => assert t.list[k] == s.list[k];
    }
  }

  lemma StaysWithout(list: seq<Element>, i: nat, k: nat)
    requires i < |list| && k < |list|
    ensures k != i ==> HasId(Without(list, i), list[k].msgId)
  {
    if k < i {
      assert Without(list, i)[k] == list[k];
    } else if k > i {
      assert Without(list, i)[k - 1] == list[k];
    }
  }

  lemma OthersStayAcked(s: State, step: Step, k: nat)
    requires Possible(s, step) && k < |s.list| && Leaves(s, step) != Some(k) && (step.PubAck? || step.PubComp?)
    ensures HasId(Next(s, step).list, s.list[k].msgId)
  {
    ByIdFinds(s.list, step.msgId);
    var i := ById(s.list, step.msgId);
    if i.Some? {
      StaysWithout(s.list, i.value, k);
      assert Leaves(s, step).None? ==> Next(s, step).list[k].msgId == s.list[k].msgId;
    } else {
      assert Next(s, step).list[k] == s.list[k];
    }
  }

  /** An element that waits for a PUBCOMP has had its PUBREC. */
  ghost predicate CompsFollowRecs(run: Run)
    requires Feasible(run)
  {
    forall k :: 0 <= k < |After(run).list| && After(run).list[k].status == WaitPubcomp ==>
                  PubRecSince(run, After(run).list[k].msgId)
  }

  lemma {:induction false} CompsFollowRecsAlways(run: Run)
    requires Feasible(run) && FreshIds(run)
    ensures CompsFollowRecs(run)
  {
    if run.Then? {
      CompsFollowRecsAlways(run.past);
      RunIsSane(run.past);
      var s, t := After(run.past), After(run);
      forall k | 0 <= k < |t.list| && t.list[k].status == WaitPubcomp ensures PubRecSince(run, t.list[k].msgId) {
        var j := WaitedBefore(s, run.step, k);
        if !(run.step.PubRec? && run.step.msgId == t.list[k].msgId) {
          assert PubRecSince(run.past, s.list[j].msgId);
          assert HasId(s.list, s.list[j].msgId);
        }
      }
    }
  }

  /** An element that waits for a PUBCOMP after a step did so before it, or this is
      the PUBREC. */
  lemma WaitedBefore(s: State, step: Step, k: nat) returns (j: nat)
    requires Possible(s, step) && AllSane(s.list) && k < |Next(s, step).list|
          && Next(s, step).list[k].status == WaitPubcomp
    ensures (step.PubRec? && step.msgId == Next(s, step).list[k].msgId)
            || (j < |s.list| && s.list[j].status == WaitPubcomp && s.list[j].msgId == Next(s, step).list[k].msgId)
  {
    j := k;
    match step {
      case SendSuspend(_, _, _, _) => j := WaitedBeforeSuspended(s, step, k);
      case PubAck(_, _) => j := WaitedBeforeAcked(s, step, k);
      case PubComp(_) => j := WaitedBeforeAcked(s, step, k);
      case PubRec(msgId, _) => ByIdFinds(s.list, msgId);
      case CheckTimeout(now) =>
        WalkKeepsElements(s, 0, now);
        assert SameButSent(s.list[k], Next(s, step).list[k]);
      case _ =>
    }
  }

  lemma WaitedBeforeSuspended(s: State, step: Step, k: nat) returns (j: nat)
    requires Possible(s, step) && AllSane(s.list) && step.SendSuspend?
    requires k < |Next(s, step).list| && Next(s, step).list[k].status == WaitPubcomp
    ensures j < |s.list| && s.list[j] == Next(s, step).list[k]
  {
    FirstSuspendedFinds(s.list, step.topicName);
    var i := FirstSuspended(s.list, step.topicName);
    if i.Some? {
      ReadyIsSendable(s.list[i.value], step.topicId, step.topicType);
    }
    j := if Leaves(s, step).Some? && k >= i.value then k + 1 else k;
  }

  lemma WaitedBeforeAcked(s: State, step: Step, k: nat) returns (j: nat)
    requires Possible(s, step) && (step.PubAck? || step.PubComp?)
    requires k < |Next(s, step).list| && Next(s, step).list[k].status == WaitPubcomp
    ensures j < |s.list| && s.list[j] == Next(s, step).list[k]
  {
    ByIdFinds(s.list, step.msgId);
    j := if Leaves(s, step).Some? && k >= Leaves(s, step).value then k + 1 else k;
  }

  /** A publish of quality of service 1 leaves the list only on an accepted PUBACK
      with its id while it waits for that, one of quality of service 2 only on a
      PUBCOMP with its id after a PUBREC. */
  lemma LeavesOnlyWhenDone(run: Run, k: nat)
    requires run.Then? && Feasible(run) && FreshIds(run)
    requires k < |After(run.past).list|
    requires var e := After(run.past).list[k]; e.Qos() != 0 && !HasId(After(run).list, e.msgId)
    ensures var e := After(run.past).list[k];
            if e.Qos() == 1 then run.step == PubAck(e.msgId, 0) && e.status == WaitPuback
            else run.step == PubComp(e.msgId) && e.status == WaitPubcomp && PubRecSince(run.past, e.msgId)
  {
    var s := After(run.past);
    RunIsSane(run.past);
    CompsFollowRecsAlways(run.past);
    if Leaves(s, run.step) != Some(k) {
      OthersStay(s, run.step, k);
    } else {
      assert Sane(s.list[k]);
      if run.step.PubAck? || run.step.PubComp? {
        ByIdFinds(s.list, run.step.msgId);
      }
    }
    hide After;
  }

  /** Sending again never removes: checkTimeout steps only through elements that are
      still in the list, in every run. */
  lemma TimeoutsRemoveNothing(run: Run, now: nat)
    requires Feasible(run)
    ensures Possible(After(run), CheckTimeout(now))
    ensures var t := Next(After(run), CheckTimeout(now));
            |t.list| == |After(run).list|
            && forall k :: 0 <= k < |t.list| ==> SameButSent(After(run).list[k], t.list[k])
  {
    RunIsSane(run);
    WalkKeepsElements(After(run), 0, now);
  }

  // ----- and it leaves then

  predicate UniqueIds(list: seq<Element>) {
    forall i, j :: 0 <= i < j < |list| ==> list[i].msgId != list[j].msgId
  }

  /** The elements of `b` are those of `a`, but for one that is gone, in their order,
      and perhaps a new one behind them. */
  predicate IdsFrom(a: seq<Element>, b: seq<Element>, gone: Option<nat>, added: Option<U16>) {
    && (var n := |a| - if gone.Some? then 1 else 0; |b| == n || (|b| == n + 1 && added.Some?))
    && forall k :: 0 <= k < |b| ==> b[k].msgId == IdFrom(a, k, gone, added)
  }

  function IdFrom(a: seq<Element>, k: nat, gone: Option<nat>, added: Option<U16>): U16 {
    var j := if gone.Some? && k >= gone.value then k + 1 else k;
    if j < |a| then a[j].msgId else if added.Some? then added.value else 0
  }

  function Adds(step: Step): Option<U16> {
    if step.Publish? || step.PublishById? then Some(step.msgId) else None
  }

  lemma IdsAfterStep(s: State, step: Step)
    requires Possible(s, step) && AllSane(s.list)
    ensures IdsFrom(s.list, Next(s, step).list, Leaves(s, step), Adds(step))
  {
    match step {
      case SendSuspend(name, topicId, topicType, _) => IdsSuspended(s, step);
      case CheckTimeout(now) => CheckTimeoutIds(s, now);
      case Publish(_, _, _, _, _, _, _, _) =>
      case PublishById(_, _, _, _, _, _) =>
      case _ => IdsAcked(s, step);
    }
  }

  lemma IdsSuspended(s: State, step: Step)
    requires Possible(s, step) && AllSane(s.list) && step.SendSuspend?
    ensures IdsFrom(s.list, Next(s, step).list, Leaves(s, step), None)
  {
    FirstSuspendedFinds(s.list, step.topicName);
    var i := FirstSuspended(s.list, step.topicName);
    if i.Some? {
      ReadyIsSendable(s.list[i.value], step.topicId, step.topicType);
      hide ReadyToSend, WaitStatus, TM.Done;
    }
  }

  lemma IdsAcked(s: State, step: Step)
    requires Possible(s, step)
    requires step.PubAck? || step.PubRec? || step.PubComp? || step.CallbackStarts? || step.CallbackEnds?
    ensures IdsFrom(s.list, Next(s, step).list, Leaves(s, step), None)
  {
    if step.PubAck? || step.PubRec? || step.PubComp? {
      ByIdFinds(s.list, step.msgId);
    }
    hide TM.Done;
  }

  lemma CheckTimeoutIds(s: State, now: nat)
    requires TasksThere(s) && AllSane(s.list)
    ensures |Walk(s, 0, now).list| == |s.list|
    ensures forall k :: 0 <= k < |s.list| ==> Walk(s, 0, now).list[k].msgId == s.list[k].msgId
  {
    WalkKeepsElements(s, 0, now);
    forall k | 0 <= k < |s.list| ensures Walk(s, 0, now).list[k].msgId == s.list[k].msgId {
      assert SameButSent(s.list[k], Walk(s, 0, now).list[k]);
    }
  }

  lemma {:induction false} IdsStayUnique(run: Run)
    requires Feasible(run) && FreshIds(run)
    ensures UniqueIds(After(run).list)
  {
    if run.Then? {
      var s := After(run.past);
      IdsStayUnique(run.past);
      RunIsSane(run.past);
      IdsAfterStep(s, run.step);
      assert run.step.Publish? || run.step.PublishById? ==> !HasId(s.list, run.step.msgId);
      UniqueAfter(s.list, After(run).list, Leaves(s, run.step), Adds(run.step));
    }
  }

  lemma UniqueAfter(a: seq<Element>, b: seq<Element>, gone: Option<nat>, added: Option<U16>)
    requires UniqueIds(a) && (added.Some? ==> !HasId(a, added.value) && gone.None?)
    requires IdsFrom(a, b, gone, added)
    ensures UniqueIds(b)
  {
  }

  /** And it does leave then: the acknowledgement that an element waits for takes it
      out of the list. */
  lemma LeavesWhenDone(run: Run, k: nat)
    requires run.Then? && Feasible(run) && FreshIds(run)
    requires k < |After(run.past).list|
    requires var e := After(run.past).list[k];
             (run.step == PubAck(e.msgId, 0) && e.status == WaitPuback)
             || (run.step == PubComp(e.msgId) && e.status == WaitPubcomp)
    ensures !HasId(After(run).list, After(run.past).list[k].msgId)
  {
    var s := After(run.past);
    IdsStayUnique(run.past);
    RunIsSane(run.past);
    ByIdFinds(s.list, s.list[k].msgId);
    assert Leaves(s, run.step) == Some(k);
    IdsAfterStep(s, run.step);
    hide After, Next;
  }

  // ----- the counters

  function TaskCount(list: seq<Element>, index: int): nat {
    if list == [] then 0 else (if list[0].taskIndex == index then 1 else 0) + TaskCount(list[1..], index)
  }

  lemma {:induction false} TaskCountConcat(a: seq<Element>, b: seq<Element>, index: int)
    ensures TaskCount(a + b, index) == TaskCount(a, index) + TaskCount(b, index)
  {
    if a == [] {
      assert a + b == b;
    } else {
      assert (a + b)[1..] == a[1..] + b;
      TaskCountConcat(a[1..], b, index);
    }
  }

  lemma {:induction false} TaskCountBounds(list: seq<Element>, index: int)
    ensures TaskCount(list, index) <= |list|
    ensures TaskCount(list, index) == 0 <==> forall k :: 0 <= k < |list| ==> list[k].taskIndex != index
  {
    if list == [] {
    } else {
      TaskCountBounds(list[1..], index);
      assert forall k :: 1 <= k < |list| ==> list[k] == list[1..][k - 1];
    }
  }

  lemma {:induction false} SameTasks(a: seq<Element>, b: seq<Element>, index: int)
    requires |a| == |b| && forall k :: 0 <= k < |a| ==> a[k].taskIndex == b[k].taskIndex
    ensures TaskCount(a, index) == TaskCount(b, index)
  {
    if a == [] {
    } else {
      SameTasks(a[1..], b[1..], index);
    }
  }

  /** What elements wait for the tasks is in the count of the list, modulo 256. */
  predicate LengthCounted(s: State) {
    s.elmCnt as int == |s.list| % 256
  }

  /** A task's count agrees with the list. */
  predicate Exact(s: State, x: nat) {
    x < |s.counts| && s.counts[x] as int == TaskCount(s.list, x)
  }

  /** The step charges a publish to the task, if only until it is sent. */
  predicate Charges(s: State, step: Step, x: nat) {
    (step.Publish? || step.PublishById?) && TaskOf(s, step.index) == x
  }

  /** The unfinished publishes of a task in the middle of a step. */
  function Outstanding(s: State, step: Step, x: nat): nat {
    TaskCount(s.list, x) + if Charges(s, step, x) then 1 else 0
  }

  lemma CountWithout(list: seq<Element>, i: nat, x: int)
    requires i < |list|
    ensures TaskCount(list, x) == TaskCount(Without(list, i), x) + if list[i].taskIndex == x then 1 else 0
  {
    assert list == list[..i] + ([list[i]] + list[i + 1..]);
    TaskCountConcat(list[..i], [list[i]] + list[i + 1..], x);
    TaskCountConcat([list[i]], list[i + 1..], x);
    TaskCountConcat(list[..i], list[i + 1..], x);
    assert [list[i]][1..] == [];
  }

  lemma RemoveExact(s: State, i: nat, x: nat)
    requires i < |s.list| && TaskThere(s.list[i], s.counts) && Exact(s, x)
    ensures Exact(Remove(s, i), x)
  {
    CountWithout(s.list, i, x);
  }

  lemma UpdateExact(s: State, i: nat, e: Element, x: nat)
    requires i < |s.list| && e.taskIndex == s.list[i].taskIndex && Exact(s, x)
    ensures Exact(s.(list := s.list[i := e]), x)
  {
    SameTasks(s.list, s.list[i := e], x);
  }

  lemma SendExact(s: State, i: nat, now: nat, x: nat)
    requires i < |s.list| && TaskThere(s.list[i], s.counts) && Exact(s, x)
    ensures Exact(SendPublish(s, i, now), x)
  {
    var e := s.list[i];
    if e.Qos() == 0 {
      RemoveExact(s, i, x);
    } else {
      UpdateExact(s, i, e.(status := WaitStatus(e), sendUTC := now, retryCount := e.retryCount - 1), x);
    }
  }

  lemma AddCounts(s: State, e: Element, x: nat)
    requires TaskThere(e, s.counts) && Exact(s, x)
    ensures TaskCount(Add(s, e).list, x) == TaskCount(s.list, x) + if e.taskIndex == x then 1 else 0
    ensures Add(s, e).counts[x] as int == TaskCount(Add(s, e).list, x) % 256
  {
    TaskCountConcat(s.list, [e], x);
    assert [e][1..] == [];
  }

  /** Sending does not mend a count that has wrapped to 0. */
  lemma SendStaysWrong(s: State, i: nat, now: nat, x: nat)
    requires i < |s.list| && TaskThere(s.list[i], s.counts)
    requires x < |s.counts| && s.counts[x] == 0 && TaskCount(s.list, x) == 256
    ensures !Exact(SendPublish(s, i, now), x)
  {
    var e := s.list[i];
    CountWithout(s.list, i, x);
    if e.Qos() != 0 {
      SameTasks(s.list, SendPublish(s, i, now).list, x);
    }
  }

  /** A publish keeps its task's count exact if there is room for one more in it, and
      makes it wrong if not. */
  lemma PublishExact(s: State, step: Step, x: nat)
    requires Possible(s, step) && (step.Publish? || step.PublishById?) && Exact(s, x)
    ensures Exact(Next(s, step), x) <==> Outstanding(s, step, x) < 256
  {
    var e := if step.Publish?
             then NewElement(step.topicName, 0, step.lookup, step.payload, step.qos, step.retain, step.msgId,
                             TaskOf(s, step.index))
             else NewElement([], step.id, 0, step.payload, step.qos, false, step.msgId, TaskOf(s, step.index));
    var t := Add(s, e);
    AddCounts(s, e, x);
    if Outstanding(s, step, x) < 256 {
      SendExact(t, |s.list|, step.now, x);
    } else {
      SendStaysWrong(t, |s.list|, step.now, x);
    }
    hide SendPublish, TaskCount;
  }

  /** In the other steps nothing is charged. */
  lemma OthersKeepExact(s: State, step: Step, x: nat)
    requires Possible(s, step) && AllSane(s.list) && Exact(s, x) && !step.Publish? && !step.PublishById?
    ensures Exact(Next(s, step), x)
  {
    hide Exact;
    match step {
      case SendSuspend(name, topicId, topicType, now) =>
        FirstSuspendedFinds(s.list, name);
        var i := FirstSuspended(s.list, name);
        if i.Some? {
          var e := ReadyToSend(s.list[i.value], topicId, topicType);
          UpdateExact(s, i.value, e, x);
          SendExact(s.(list := s.list[i.value := e]), i.value, now, x);
        }
      case CheckTimeout(now) => WalkExact(s, now, x);
      case CallbackStarts => ExactAnyCallback(s, true, x);
      case CallbackEnds => ExactAnyCallback(s, false, x);
      case _ => AckKeepsExact(s, step, x);
    }
  }

  lemma ExactAnyCallback(s: State, b: bool, x: nat)
    requires Exact(s, x)
    ensures Exact(s.(inCallback := b), x)
  {
  }

  lemma WalkExact(s: State, now: nat, x: nat)
    requires TasksThere(s) && AllSane(s.list) && Exact(s, x)
    ensures Exact(Walk(s, 0, now), x)
  {
    WalkKeepsElements(s, 0, now);
    var t := Walk(s, 0, now);
    forall k | 0 <= k < |s.list| ensures s.list[k].taskIndex == t.list[k].taskIndex {
      assert SameButSent(s.list[k], t.list[k]);
    }
    SameTasks(s.list, t.list, x);
  }

  lemma AckKeepsExact(s: State, step: Step, x: nat)
    requires Possible(s, step) && Exact(s, x) && (step.PubAck? || step.PubRec? || step.PubComp?)
    ensures Exact(Next(s, step), x)
  {
    ByIdFinds(s.list, step.msgId);
    var i := ById(s.list, step.msgId);
    hide Exact, TM.Done;
    if i.Some? {
      RemoveExact(s, i.value, x);
      var e := s.list[i.value];
      UpdateExact(s, i.value, Refused(e), x);
      if step.PubRec? {
        UpdateExact(s, i.value, e.(status := WaitPubcomp, sendUTC := step.now), x);
      }
    }
  }

  lemma StepExactExactly(s: State, step: Step, x: nat)
    requires Possible(s, step) && AllSane(s.list) && Exact(s, x)
    ensures Exact(Next(s, step), x) <==> Outstanding(s, step, x) < 256
  {
    if step.Publish? || step.PublishById? {
      PublishExact(s, step, x);
    } else {
      OthersKeepExact(s, step, x);
    }
    hide Next;
  }

  /** The length of the task list of a run. */
  function Tasks(run: Run): nat {
    match run
    case Start(tasks) => tasks
    case Then(past, _) => Tasks(past)
  }

  lemma {:induction false} OneCountEach(run: Run)
    requires Feasible(run)
    ensures |After(run).counts| == Tasks(run)
  {
    if run.Then? {
      OneCountEach(run.past);
      RunIsSane(run.past);
      StepKeepsSane(After(run.past), run.step);
    }
  }

  /** The task never has 256 unfinished publishes, not even while one of quality of
      service 0 passes through. */
  predicate StaysUnder(run: Run, x: nat)
    requires Feasible(run)
  {
    run.Then? ==> StaysUnder(run.past, x) && Outstanding(After(run.past), run.step, x) < 256
  }

  /** The task's count agrees with the list after every step of the run. */
  predicate ExactThroughout(run: Run, x: nat)
    requires Feasible(run)
  {
    Exact(After(run), x) && (run.Then? ==> ExactThroughout(run.past, x))
  }

  /** In every run, a task's count is the number of its unfinished publishes all along
      if and only if the task never has 256 of them. */
  lemma {:induction false} CountersAreExact(run: Run, x: nat)
    requires Feasible(run) && x < Tasks(run)
    ensures ExactThroughout(run, x) <==> StaysUnder(run, x)
  {
    if run.Then? {
      CountersAreExact(run.past, x);
      RunIsSane(run.past);
      if ExactThroughout(run.past, x) {
        StepExactExactly(After(run.past), run.step, x);
      }
      hide Next, Outstanding, Exact;
    } else {
      ZerosAreZero(run.tasks);
    }
  }

  lemma {:induction false} ZerosAreZero(n: nat)
    ensures forall i :: 0 <= i < n ==> Zeros(n)[i] == 0
  {
    if n > 0 {
      ZerosAreZero(n - 1);
    }
  }

  lemma SendCountsLength(s: State, i: nat, now: nat)
    requires i < |s.list| && TaskThere(s.list[i], s.counts) && LengthCounted(s)
    ensures LengthCounted(SendPublish(s, i, now))
  {
  }

  lemma PublishCountsLength(s: State, step: Step)
    requires Possible(s, step) && (step.Publish? || step.PublishById?) && LengthCounted(s)
    ensures LengthCounted(Next(s, step))
  {
    var e := if step.Publish?
             then NewElement(step.topicName, 0, step.lookup, step.payload, step.qos, step.retain, step.msgId,
                             TaskOf(s, step.index))
             else NewElement([], step.id, 0, step.payload, step.qos, false, step.msgId, TaskOf(s, step.index));
    SendCountsLength(Add(s, e), |s.list|, step.now);
    hide SendPublish, NewElement, TM.Suspend;
  }

  lemma StepCountsLength(s: State, step: Step)
    requires Possible(s, step) && AllSane(s.list) && LengthCounted(s)
    ensures LengthCounted(Next(s, step))
  {
    if step.Publish? || step.PublishById? {
      PublishCountsLength(s, step);
      hide Next;
    } else if step.SendSuspend? {
      FirstSuspendedFinds(s.list, step.topicName);
      var i := FirstSuspended(s.list, step.topicName);
      if i.Some? {
        var e := ReadyToSend(s.list[i.value], step.topicId, step.topicType);
        SendCountsLength(s.(list := s.list[i.value := e]), i.value, step.now);
      }
      hide SendPublish, ReadyToSend;
    } else if step.CheckTimeout? {
      WalkKeepsElements(s, 0, step.now);
    } else if step.PubAck? || step.PubRec? || step.PubComp? {
      ByIdFinds(s.list, step.msgId);
      hide TM.Done;
    }
  }

  lemma {:induction false} LengthIsCounted(run: Run)
    requires Feasible(run)
    ensures LengthCounted(After(run))
  {
    if run.Then? {
      LengthIsCounted(run.past);
      RunIsSane(run.past);
      StepCountsLength(After(run.past), run.step);
    }
  }

  /** In every run, the 8-bit length is right if and only if the list has fewer than
      256 elements. */
  lemma LengthExactly(run: Run)
    requires Feasible(run)
    ensures After(run).elmCnt as int == |After(run).list| <==> |After(run).list| < 256
  {
    LengthIsCounted(run);
  }

  /** As long as a task has not had 256 unfinished publishes at once, the task manager
      invokes it exactly when more than its interval has passed since the last time and none
      of its publishes is unfinished. */
  lemma DueTasksHaveNothingLeft(run: Run, tasks: seq<TM.Task>, i: nat, now: nat)
    requires Feasible(run) && StaysUnder(run, i) && TM.CountsOf(tasks) == After(run).counts && i < |tasks|
    ensures TM.Due(tasks[i], now)
            <==> now > tasks[i].prevTime + tasks[i].interval
                 && forall k :: 0 <= k < |After(run).list| ==> After(run).list[k].taskIndex != i
  {
    OneCountEach(run);
    CountersAreExact(run, i);
    assert TM.CountsOf(tasks)[i] == tasks[i].count;
    TaskCountBounds(After(run).list, i);
  }

  // ----- a run in which the counter wraps

  /** One task publishes a topic n times, with quality of service 1. */
  function Burst(n: nat): Run
    requires n < 0x1_0000
  {
    if n == 0 then Start(2)
    else Then(Burst(n - 1), Publish([0x61, 0x62, 0x63], 1, [], 1, false, n, 0, 1))
  }

  function BurstElement(msgId: U16): Element {
    Element(msgId, 1, [0x61, 0x62, 0x63], [], 1, 2, 0, 0x20, WaitPuback)
  }

  function BurstState(n: nat): State
    requires n < 0x1_0000
  {
    State(seq(n, k requires 0 <= k < n => BurstElement(k + 1)), n % 256, false, [n % 256, 0])
  }

  lemma {:induction false} BurstLeads(n: nat)
    requires n < 0x1_0000
    ensures Feasible(Burst(n)) && FreshIds(Burst(n)) && After(Burst(n)) == BurstState(n)
  {
    if n == 0 {
      assert Zeros(2) == [0] + Zeros(1) == [0, 0];
    } else {
      BurstLeads(n - 1);
      BurstGrows(n);
    }
  }

  lemma BurstGrows(n: nat)
    requires 0 < n < 0x1_0000
    ensures Possible(BurstState(n - 1), Burst(n).step) && !HasId(BurstState(n - 1).list, n)
    ensures Next(BurstState(n - 1), Burst(n).step) == BurstState(n)
  {
    var s, step := BurstState(n - 1), Burst(n).step;
    var e := NewElement([0x61, 0x62, 0x63], 0, 1, [], 1, false, n, 0);
    assert e == Element(n, 1, [0x61, 0x62, 0x63], [], 0, 3, 0, 0x20, Ready);
    assert TaskOf(s, 0) == 0;
    var t := Add(s, e);
    assert SendPublish(t, n - 1, 1).list == BurstState(n).list;
  }

  lemma {:induction false} AllOfOneTask(list: seq<Element>, x: nat)
    requires forall k :: 0 <= k < |list| ==> list[k].taskIndex == x
    ensures TaskCount(list, x) == |list|
  {
    if list != [] {
      AllOfOneTask(list[1..], x);
    }
  }

  /** After 256 publishes, or a multiple, the task's count reads 0: the task manager finds
      the task due while none of them is finished. The message ids are fresh throughout. */
  lemma CounterWraps(n: nat)
    requires 0 < n < 0x1_0000 && n % 256 == 0
    ensures Feasible(Burst(n)) && FreshIds(Burst(n)) && TaskCount(After(Burst(n)).list, 0) == n
    ensures var tasks := [TM.Task(1, 0, 0), TM.Task(0, 0, 0)];
            TM.CountsOf(tasks) == After(Burst(n)).counts && TM.Due(tasks[0], 2)
    ensures !StaysUnder(Burst(n), 0)
  {
    BurstLeads(n);
    var s := After(Burst(n));
    AllOfOneTask(s.list, 0);
    var tasks := [TM.Task(1, 0, 0), TM.Task(0, 0, 0)];
    assert TM.CountsOf(tasks) == [tasks[0].count, tasks[1].count];
    OneCountEach(Burst(n));
    CountersAreExact(Burst(n), 0);
    assert !Exact(s, 0);
    hide Burst, After, BurstState;
  }

  /** A publish from inside a callback is charged to no task. */
  lemma CallbacksAreNotCharged(s: State, step: Step)
    requires Possible(s, step) && s.inCallback && (step.Publish? || step.PublishById?)
    ensures Next(s, step).counts == s.counts
  {
  }

  // ----- the retry budget and the DUP flag

  /** The publish is new, or its topic id was refused: its retry count is set. */
  predicate Resets(step: Step, msgId: U16) {
    ((step.Publish? || step.PublishById?) && step.msgId == msgId)
    || step == PubAck(msgId, MQTTSN_RC_REJECTED_INVALID_TOPIC_ID)
  }

  /** Counts the copies of a PUBLISH; a reconnection on its behalf starts again. */
  function Tally(n: nat, outs: seq<Out>, msgId: U16): nat
    decreases outs
  {
    if outs == [] then n else Tally(Count(n, outs[0], msgId), outs[1..], msgId)
  }

  function Count(n: nat, out: Out, msgId: U16): nat {
    if out.Sent? && out.element.msgId == msgId then n + 1
    else if out == Reconnects(msgId) then 0
    else n
  }

  /** The copies sent since the retry count was last set to 3, when a step begins. */
  function CopiesBefore(past: Run, step: Step, msgId: U16): nat
    requires Feasible(past)
    decreases past, 1
  {
    if Resets(step, msgId) then 0 else CopiesSince(past, msgId)
  }

  function CopiesSince(run: Run, msgId: U16): nat
    requires Feasible(run)
    decreases run, 0
  {
    if run.Start? then 0
    else Tally(CopiesBefore(run.past, run.step, msgId), Outputs(After(run.past), run.step), msgId)
  }

  predicate Silent(outs: seq<Out>, msgId: U16) {
    forall j :: 0 <= j < |outs| ==>
      !(outs[j].Sent? && outs[j].element.msgId == msgId) && outs[j] != Reconnects(msgId)
  }

  lemma {:induction false} SilentTally(n: nat, outs: seq<Out>, msgId: U16)
    requires Silent(outs, msgId)
    ensures Tally(n, outs, msgId) == n
  {
    if outs != [] {
      assert forall j :: 0 <= j < |outs[1..]| ==> outs[1..][j] == outs[j + 1];
      SilentTally(n, outs[1..], msgId);
    }
  }

  lemma TallyOne(n: nat, out: Out, rest: seq<Out>, msgId: U16)
    ensures Tally(n, [out] + rest, msgId) == Tally(Count(n, out, msgId), rest, msgId)
    ensures Tally(n, [out], msgId) == Count(n, out, msgId)
  {
    assert ([out] + rest)[1..] == rest;
    assert [out][1..] == [];
  }

  /** The walk counts down the budget of exactly the elements it sends. */
  lemma {:induction false} WalkTally(s: State, i: nat, now: nat, k: nat)
    requires TasksThere(s) && AllSane(s.list) && UniqueIds(s.list) && k < |s.list|
    ensures k < |Walk(s, i, now).list|
    ensures var id := s.list[k].msgId;
            Tally(MQTTSN_RETRY_COUNT - s.list[k].retryCount, WalkOut(s, i, now),
                  id) == MQTTSN_RETRY_COUNT - Walk(s, i, now).list[k].retryCount
    decreases |s.list| - i
  {
    var id, n := s.list[k].msgId, MQTTSN_RETRY_COUNT - s.list[k].retryCount;
    if i < |s.list| {
      var e := s.list[i];
      assert i != k ==> e.msgId != id;
      if !Expired(e, now) {
        WalkTally(s, i + 1, now, k);
      } else if e.retryCount < 0 {
        TallyOne(n, Reconnects(e.msgId), [], id);
      } else {
        var t := SendPublish(s, i, now);
        SendKeepsTasks(s, i, now);
        SendIsSane(s, i, now);
        assert Walk(s, i, now) == Walk(t, i + 1, now) && WalkOut(s, i, now) == [IsSent(e)] + WalkOut(t, i + 1, now);
        assert t.list == s.list[i := t.list[i]] && t.list[i].msgId == e.msgId;
        assert MQTTSN_RETRY_COUNT - t.list[k].retryCount == Count(n, IsSent(e), id);
        assert UniqueIds(t.list);
        hide *;
        WalkTally(t, i + 1, now, k);
        TallyOne(n, IsSent(e), WalkOut(t, i + 1, now), id);
      }
    }
  }

  /** What the walk sends are elements as they were when it began. */
  lemma {:induction false} WalkSendsElements(s: State, i: nat, now: nat, j: nat)
    requires TasksThere(s) && AllSane(s.list) && j < |WalkOut(s, i, now)| && WalkOut(s, i, now)[j].Sent?
    ensures exists m :: i <= m < |s.list| && WalkOut(s, i, now)[j] == IsSent(s.list[m])
    decreases |s.list| - i
  {
    var e := s.list[i];
    if !Expired(e, now) {
      WalkSendsElements(s, i + 1, now, j);
    } else if e.retryCount >= 0 && j > 0 {
      var t := SendPublish(s, i, now);
      SendKeepsTasks(s, i, now);
      SendIsSane(s, i, now);
      WalkSendsElements(t, i + 1, now, j - 1);
      var m :| i + 1 <= m < |t.list| && WalkOut(t, i + 1, now)[j - 1] == IsSent(t.list[m]);
      assert t.list[m] == s.list[m];
    }
  }

  /** An element's retry count is what is left of three after the copies sent. */
  ghost predicate Budgeted(run: Run)
    requires Feasible(run)
  {
    forall k :: 0 <= k < |After(run).list| ==>
                  After(run).list[k].retryCount == MQTTSN_RETRY_COUNT - CopiesSince(run, After(run).list[k].msgId)
  }

  lemma {:induction false} BudgetIsKept(run: Run)
    requires Feasible(run) && FreshIds(run)
    ensures Budgeted(run)
  {
    if run.Then? {
      BudgetIsKept(run.past);
      RunIsSane(run.past);
      IdsStayUnique(run.past);
      var s := After(run.past);
      assert run.step.Publish? || run.step.PublishById? ==> !HasId(s.list, run.step.msgId);
      forall k | 0 <= k < |After(run).list|
        ensures After(run).list[k].retryCount == MQTTSN_RETRY_COUNT - CopiesSince(run, After(run).list[k].msgId)
      {
        BudgetStep(run, k);
      }
    }
  }

  lemma BudgetStep(run: Run, k: nat)
    requires run.Then? && Feasible(run) && Budgeted(run.past) && k < |After(run).list|
    requires AllSane(After(run.past).list) && UniqueIds(After(run.past).list)
    requires run.step.Publish? || run.step.PublishById? ==> !HasId(After(run.past).list, run.step.msgId)
    ensures After(run).list[k].retryCount == MQTTSN_RETRY_COUNT - CopiesSince(run, After(run).list[k].msgId)
  {
    match run.step {
      case CheckTimeout(_) => BudgetTimeout(run, k);
      case SendSuspend(_, _, _, _) => BudgetSuspend(run, k);
      case Publish(_, _, _, _, _, _, _, _) => BudgetPublish(run, k);
      case PublishById(_, _, _, _, _, _) => BudgetPublish(run, k);
      case _ => BudgetAck(run, k);
    }
    hide *;
  }

  lemma BudgetTimeout(run: Run, k: nat)
    requires run.Then? && Feasible(run) && Budgeted(run.past) && k < |After(run).list| && run.step.CheckTimeout?
    requires AllSane(After(run.past).list) && UniqueIds(After(run.past).list)
    ensures After(run).list[k].retryCount == MQTTSN_RETRY_COUNT - CopiesSince(run, After(run).list[k].msgId)
  {
    var s, now := After(run.past), run.step.now;
    WalkKeepsElements(s, 0, now);
    assert s.list[k].msgId == After(run).list[k].msgId by {
      assert SameButSent(s.list[k], After(run).list[k]);
    }
    assert s.list[k].retryCount == MQTTSN_RETRY_COUNT - CopiesSince(run.past, s.list[k].msgId);
    WalkTally(s, 0, now, k);
    assert After(run) == Walk(s, 0, now);
    var id := s.list[k].msgId;
    assert CopiesSince(run, id) == Tally(CopiesSince(run.past, id), WalkOut(s, 0, now), id);
    hide *;
  }

  /** A new publish has its first copy sent, or waits with its whole budget. */
  lemma PublishRetries(s: State, step: Step, k: nat)
    requires Possible(s, step) && (step.Publish? || step.PublishById?) && k < |Next(s, step).list|
    ensures var e, outs := Next(s, step).list[k], Outputs(s, step);
            |outs| == 1
            && (if k < |s.list| then e == s.list[k]
                else e.msgId == step.msgId && e.retryCount == MQTTSN_RETRY_COUNT - Count(0, outs[0], step.msgId))
            && (outs[0].Sent? ==> outs[0].element.msgId == step.msgId) && !outs[0].Reconnects?
  {
    hide TM.Suspend, TM.Done;
  }

  lemma BudgetPublish(run: Run, k: nat)
    requires run.Then? && Feasible(run) && Budgeted(run.past) && k < |After(run).list|
    requires (run.step.Publish? || run.step.PublishById?) && !HasId(After(run.past).list, run.step.msgId)
    ensures After(run).list[k].retryCount == MQTTSN_RETRY_COUNT - CopiesSince(run, After(run).list[k].msgId)
  {
    var s, step := After(run.past), run.step;
    var id, outs := After(run).list[k].msgId, Outputs(s, step);
    PublishRetries(s, step, k);
    assert outs == [outs[0]];
    assert CopiesSince(run, id) == Tally(CopiesBefore(run.past, step, id), outs, id);
    assert k < |s.list| ==> s.list[k].msgId == id && HasId(s.list, id);
    TallyOne(CopiesBefore(run.past, step, id), outs[0], [], id);
    hide Next, Outputs, Tally, CopiesSince, HasId;
  }

  /** Releasing a suspended publish uses up one of its copies. */
  lemma SuspendRetries(s: State, step: Step, k: nat)
    requires Possible(s, step) && step.SendSuspend? && AllSane(s.list) && k < |Next(s, step).list|
    ensures var i, j, outs := FirstSuspended(s.list, step.topicName), Was(s, step, k), Outputs(s, step);
            j < |s.list| && s.list[j].msgId == Next(s, step).list[k].msgId
            && (if i.None? then outs == [] && Next(s, step).list[k].retryCount == s.list[j].retryCount
                else i.value < |s.list| && |outs| == 1 && outs[0].Sent?
                      && outs[0].element.msgId == s.list[i.value].msgId
                     && Next(s, step).list[k].retryCount == s.list[j].retryCount - if j == i.value then 1 else 0)
  {
    FirstSuspendedFinds(s.list, step.topicName);
    var i := FirstSuspended(s.list, step.topicName);
    if i.Some? {
      ReadyIsSendable(s.list[i.value], step.topicId, step.topicType);
      hide TM.Done, WaitStatus;
    }
  }

  lemma BudgetSuspend(run: Run, k: nat)
    requires run.Then? && Feasible(run) && Budgeted(run.past) && k < |After(run).list| && run.step.SendSuspend?
    requires AllSane(After(run.past).list) && UniqueIds(After(run.past).list)
    ensures After(run).list[k].retryCount == MQTTSN_RETRY_COUNT - CopiesSince(run, After(run).list[k].msgId)
  {
    var s, step := After(run.past), run.step;
    var id, outs := After(run).list[k].msgId, Outputs(s, step);
    var i, j := FirstSuspended(s.list, step.topicName), Was(s, step, k);
    SuspendRetries(s, step, k);
    assert CopiesSince(run, id) == Tally(CopiesSince(run.past, id), outs, id);
    if outs != [] {
      assert outs == [outs[0]];
      TallyOne(CopiesSince(run.past, id), outs[0], [], id);
      assert i.value != j ==> s.list[i.value].msgId != s.list[j].msgId;
    }
    hide Next, Outputs, Tally, CopiesSince, Was, FirstSuspended, UniqueIds, AllSane;
  }

  predicate IsAck(step: Step) {
    step.PubAck? || step.PubRec? || step.PubComp? || step.CallbackStarts? || step.CallbackEnds?
  }

  /** Which element the k-th one was before an acknowledgement. */
  function Was(s: State, step: Step, k: nat): nat {
    if Leaves(s, step).Some? && k >= Leaves(s, step).value then k + 1 else k
  }

  lemma AckRetries(s: State, step: Step, k: nat)
    requires Possible(s, step) && IsAck(step) && UniqueIds(s.list) && k < |Next(s, step).list|
    ensures var j, e := Was(s, step, k), Next(s, step).list[k];
            j < |s.list| && s.list[j].msgId == e.msgId
            && e.retryCount == if Resets(step, e.msgId) then MQTTSN_RETRY_COUNT else s.list[j].retryCount
  {
    if step.PubAck? || step.PubRec? || step.PubComp? {
      ByIdFinds(s.list, step.msgId);
    }
    hide TM.Done;
  }

  lemma AckSilent(s: State, step: Step, msgId: U16)
    requires Possible(s, step) && IsAck(step)
    ensures Silent(Outputs(s, step), msgId)
  {
  }

  lemma BudgetAck(run: Run, k: nat)
    requires run.Then? && Feasible(run) && Budgeted(run.past) && k < |After(run).list|
    requires IsAck(run.step) && UniqueIds(After(run.past).list)
    ensures After(run).list[k].retryCount == MQTTSN_RETRY_COUNT - CopiesSince(run, After(run).list[k].msgId)
  {
    var s, step := After(run.past), run.step;
    var id := After(run).list[k].msgId;
    AckRetries(s, step, k);
    AckSilent(s, step, id);
    SilentTally(CopiesBefore(run.past, step, id), Outputs(s, step), id);
    hide Next, Outputs, Tally, Silent, Was, UniqueIds;
  }

  /** A PUBLISH goes out with DUP set exactly when a copy of it has gone out since its
      retry count was last set to three. */
  lemma DupMarksCopies(run: Run, j: nat)
    requires run.Then? && Feasible(run) && FreshIds(run)
    requires j < |Outputs(After(run.past), run.step)| && Outputs(After(run.past), run.step)[j].Sent?
    ensures var out := Outputs(After(run.past), run.step)[j];
            out.dup <==> CopiesBefore(run.past, run.step, out.element.msgId) > 0
  {
    var s := After(run.past);
    BudgetIsKept(run.past);
    RunIsSane(run.past);
    match run.step {
      case CheckTimeout(now) => WalkSendsElements(s, 0, now, j);
      case SendSuspend(name, topicId, topicType, _) =>
        FirstSuspendedFinds(s.list, name);
        assert Sane(s.list[FirstSuspended(s.list, name).value]);
      case _ =>
    }
  }
}
