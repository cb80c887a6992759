/** In which runs of the client the lists of its managers stay as they are meant to be,
    though remove() leaves back links stale. */
module LinkRuns {
  import opened Bytes
  import opened Sequences
  import opened Wrappers
  import opened ElementList
  import P = PublishManager
  import PR = PublishRuns
  import R = RetryList

  const EMPTY: Links<U16> := Links([], {})

  lemma {:induction false} IndexOf(list: seq<U16>, i: nat)
    requires Distinct(list) && i < |list|
    ensures IndexIn(list, list[i]) == i
  {
    assert list[IndexIn(list, list[i])] == list[i];
  }

  // ----- the publish list

  function Ids(list: seq<P.Element>): seq<U16> {
    seq(|list|, k requires 0 <= k < |list| => list[k].msgId)
  }

  /** What a step asks add() and remove() for. */
  function OpsOf(s: P.State, step: P.Step): seq<Op<U16>>
    requires P.Possible(s, step)
  {
    if step.Publish? || step.PublishById? then
      [Append(step.msgId)] + if |P.Next(s, step).list| == |s.list| then [Unlink(step.msgId)] else []
    else
      var i := PR.Leaves(s, step);
      if i.Some? && i.value < |s.list| then [Unlink(s.list[i.value].msgId)] else []
  }

  function AllOps(run: PR.Run): seq<Op<U16>>
    requires PR.Feasible(run)
  {
    if run.Start? then [] else AllOps(run.past) + OpsOf(PR.After(run.past), run.step)
  }

  lemma UnlinkOne(list: seq<U16>, i: nat)
    requires Distinct(list) && i < |list|
    ensures Proper(list, [Unlink(list[i])]) && IntendedRun(list, [Unlink(list[i])]) == Without(list, i)
  {
    IndexOf(list, i);
    var ops := [Unlink(list[i])];
    assert ops[1..] == [];
  }

  lemma AppendOne(list: seq<U16>, id: U16)
    requires id !in list
    ensures Proper(list, [Append(id)]) && IntendedRun(list, [Append(id)]) == list + [id]
  {
    var ops := [Append(id)];
    assert ops[1..] == [];
  }

  /** A publish of quality of service 0 comes and goes. */
  lemma AppendAndUnlink(list: seq<U16>, id: U16)
    requires Distinct(list) && id !in list
    ensures Proper(list, [Append(id)] + [Unlink(id)]) && IntendedRun(list, [Append(id)] + [Unlink(id)]) == list
  {
    var more := list + [id];
    AppendOne(list, id);
    assert more[|list|] == id && Distinct(more);
    UnlinkOne(more, |list|);
    assert Without(more, |list|) == list;
    ProperConcat(list, [Append(id)], [Unlink(id)]);
    IntendedConcat(list, [Append(id)], [Unlink(id)]);
  }

  lemma PublishOps(s: P.State, step: P.Step)
    requires P.Possible(s, step) && P.AllSane(s.list) && PR.UniqueIds(s.list)
    requires (step.Publish? || step.PublishById?) && !PR.HasId(s.list, step.msgId)
    ensures Proper(Ids(s.list), OpsOf(s, step))
    ensures IntendedRun(Ids(s.list), OpsOf(s, step)) == Ids(P.Next(s, step).list)
  {
    var ids, after := Ids(s.list), Ids(P.Next(s, step).list);
    PR.IdsAfterStep(s, step);
    hide P.Next;
    assert step.msgId !in ids && Distinct(ids);
    AppendOne(ids, step.msgId);
    AppendAndUnlink(ids, step.msgId);
    assert after == if |after| == |ids| then ids else ids + [step.msgId];
    WithNothing([Append(step.msgId)]);
    hide IntendedRun, Proper, Distinct;
  }

  lemma StepOps(s: P.State, step: P.Step)
    requires P.Possible(s, step) && P.AllSane(s.list) && PR.UniqueIds(s.list)
    requires step.Publish? || step.PublishById? ==> !PR.HasId(s.list, step.msgId)
    ensures Proper(Ids(s.list), OpsOf(s, step))
    ensures IntendedRun(Ids(s.list), OpsOf(s, step)) == Ids(P.Next(s, step).list)
  {
    if step.Publish? || step.PublishById? {
      PublishOps(s, step);
    } else {
      OtherOps(s, step);
    }
    hide *;
  }

  lemma OtherOps(s: P.State, step: P.Step)
    requires P.Possible(s, step) && P.AllSane(s.list) && PR.UniqueIds(s.list) && !step.Publish? && !step.PublishById?
    ensures Proper(Ids(s.list), OpsOf(s, step))
    ensures IntendedRun(Ids(s.list), OpsOf(s, step)) == Ids(P.Next(s, step).list)
  {
    hide P.Next;
    var ids, after := Ids(s.list), Ids(P.Next(s, step).list);
    var i := PR.Leaves(s, step);
    assert i.Some? ==> i.value < |s.list|;
    hide PR.Leaves;
    PR.IdsAfterStep(s, step);
    if i.Some? {
      UnlinkOne(ids, i.value);
      assert after == Without(ids, i.value);
      hide Proper, IntendedRun;
    } else {
      assert after == ids;
    }
  }

  /** The list of every run is what its additions and removals, as they are meant, make. */
  lemma {:induction false} RunOps(run: PR.Run)
    requires PR.Feasible(run) && PR.FreshIds(run)
    ensures Proper([], AllOps(run)) && IntendedRun([], AllOps(run)) == Ids(PR.After(run).list)
  {
    if run.Then? {
      var a, b := AllOps(run.past), OpsOf(PR.After(run.past), run.step);
      RunOps(run.past);
      PR.RunIsSane(run.past);
      PR.IdsStayUnique(run.past);
      StepOps(PR.After(run.past), run.step);
      ProperConcat([], a, b);
      IntendedConcat([], a, b);
      hide OpsOf, PR.After;
    } else {
      assert Ids([]) == [];
    }
  }

  /** In every run, the list of publishes as remove() is coded is the intended one all along
      if and only if no publish leaves the list whose back link is stale: none of which the
      one in front has left from the middle, and nothing since from the front. */
  lemma PublishListExactly(run: PR.Run)
    requires PR.Feasible(run) && PR.FreshIds(run)
    ensures SameThroughout(EMPTY, [], AllOps(run)) <==> NeverStale(EMPTY, AllOps(run))
    ensures NeverStale(EMPTY, AllOps(run)) ==> CodedRun(EMPTY, AllOps(run)).list == Ids(PR.After(run).list)
  {
    RunOps(run);
    SameExactly(EMPTY, AllOps(run));
  }

  /** Three publishes, of which the second and then the third are acknowledged. */
  function OutOfOrder(): PR.Run {
    PR.Then(PR.Then(PR.Burst(3), P.PubAck(2, 0)), P.PubAck(3, 0))
  }

  const OUT_OF_ORDER: seq<Op<U16>> := [Append(1), Append(2), Append(3), Unlink(2), Unlink(3)]

  lemma BurstOps()
    ensures PR.Feasible(PR.Burst(3)) && PR.FreshIds(PR.Burst(3)) && PR.After(PR.Burst(3)) == PR.BurstState(3)
    ensures AllOps(PR.Burst(3)) == [Append(1), Append(2), Append(3)]
  {
    PR.BurstLeads(0);
    PR.BurstLeads(1);
    PR.BurstLeads(2);
    PR.BurstLeads(3);
    hide PR.After, PR.Feasible, PR.FreshIds, P.Next;
  }

  lemma SecondAcknowledged()
    ensures var s, step := PR.BurstState(3), P.PubAck(2, 0);
            P.Possible(s, step) && OpsOf(s, step) == [Unlink(2)]
            && P.Next(s, step).list == [PR.BurstElement(1), PR.BurstElement(3)]
            && P.TasksThere(P.Next(s, step))
  {
    var s := PR.BurstState(3);
    assert s.list == [PR.BurstElement(1), PR.BurstElement(2), PR.BurstElement(3)];
    P.ByIdFinds(s.list, 2);
    assert P.ById(s.list, 2) == Some(1);
    assert s.list[..1] + s.list[2..] == [PR.BurstElement(1), PR.BurstElement(3)];
    hide P.ById, PR.BurstState;
  }

  lemma ThirdAcknowledged(s: P.State)
    requires P.TasksThere(s) && s.list == [PR.BurstElement(1), PR.BurstElement(3)]
    ensures P.Possible(s, P.PubAck(3, 0)) && OpsOf(s, P.PubAck(3, 0)) == [Unlink(3)]
    ensures Ids(P.Next(s, P.PubAck(3, 0)).list) == [1]
  {
    P.ByIdFinds(s.list, 3);
    assert P.ById(s.list, 3) == Some(1);
    assert s.list[..1] + s.list[2..] == [PR.BurstElement(1)];
    hide P.ById;
  }

  lemma OutOfOrderOps()
    ensures PR.Feasible(OutOfOrder()) && PR.FreshIds(OutOfOrder())
    ensures Ids(PR.After(OutOfOrder()).list) == [1] && AllOps(OutOfOrder()) == OUT_OF_ORDER
  {
    hide *;
    BurstOps();
    SecondAcknowledged();
    var step := P.PubAck(2, 0);
    OneStepMore(PR.Burst(3), step);
    ThirdAcknowledged(PR.After(PR.Then(PR.Burst(3), step)));
    OneStepMore(PR.Then(PR.Burst(3), step), P.PubAck(3, 0));
    OutOfOrderIs();
  }

  lemma OutOfOrderIs()
    ensures OutOfOrder() == PR.Then(PR.Then(PR.Burst(3), P.PubAck(2, 0)), P.PubAck(3, 0))
    ensures [Append(1), Append(2), Append(3)] + [Unlink(2)] + [Unlink(3)] == OUT_OF_ORDER
  {
    hide PR.Burst;
  }

  /** A run goes on with an acknowledgement. */
  lemma OneStepMore(run: PR.Run, step: P.Step)
    requires PR.Feasible(run) && PR.FreshIds(run) && P.Possible(PR.After(run), step) && step.PubAck?
    ensures var next := PR.Then(run, step);
            PR.Feasible(next) && PR.FreshIds(next) && PR.After(next) == P.Next(PR.After(run), step)
            && AllOps(next) == AllOps(run) + OpsOf(PR.After(run), step)
  {
    hide P.Next, OpsOf;
  }

  function ListOf(list: seq<U16>, stale: set<U16>): Links<U16> {
    Links(list, stale)
  }

  lemma CodedSteps()
    ensures Coded(EMPTY, OUT_OF_ORDER[0]) == ListOf([1], {})
    ensures Coded(ListOf([1], {}), OUT_OF_ORDER[1]) == ListOf([1, 2], {})
    ensures Coded(ListOf([1, 2], {}), OUT_OF_ORDER[2]) == ListOf([1, 2, 3], {})
    ensures Coded(ListOf([1, 2, 3], {}), OUT_OF_ORDER[3]) == ListOf([1, 3], {3})
    ensures Coded(ListOf([1, 3], {3}), OUT_OF_ORDER[4]) == ListOf([1, 3], {3})
  {
    var list: seq<U16> := [1, 2, 3];
    assert IndexIn(list, 2) == 1 && Without(list, 1) == [1, 3];
  }

  /** The third stays in the coded list, though it has been acknowledged. */
  lemma AcknowledgedStays()
    ensures PR.Feasible(OutOfOrder()) && PR.FreshIds(OutOfOrder())
    ensures Ids(PR.After(OutOfOrder()).list) == [1] && CodedRun(EMPTY, AllOps(OutOfOrder())).list == [1, 3]
  {
    OutOfOrderOps();
    CodedSteps();
    hide Coded, PR.After, PR.Feasible, PR.FreshIds, AllOps, OutOfOrder;
    CodedFirst(ListOf([1, 3], {3}), OUT_OF_ORDER, 4);
    CodedFirst(ListOf([1, 2, 3], {}), OUT_OF_ORDER, 3);
    CodedFirst(ListOf([1, 2], {}), OUT_OF_ORDER, 2);
    CodedFirst(ListOf([1], {}), OUT_OF_ORDER, 1);
    CodedFirst(EMPTY, OUT_OF_ORDER, 0);
    assert OUT_OF_ORDER[5..] == [] && OUT_OF_ORDER[0..] == OUT_OF_ORDER;
  }

  lemma CodedFirst(l: Links<U16>, ops: seq<Op<U16>>, i: nat)
    requires i < |ops|
    ensures CodedRun(l, ops[i..]) == CodedRun(Coded(l, ops[i]), ops[i + 1..])
  {
    assert ops[i..][1..] == ops[i + 1..];
  }

  // ----- the lists of requests

  function RequestIds(list: seq<R.Element>): seq<U16> {
    seq(|list|, k requires 0 <= k < |list| => list[k].msgId)
  }

  /** What the walk of checkTimeout removes. */
  function WalkOps(list: seq<R.Element>, i: nat, now: nat): seq<Op<U16>>
    decreases |list| - i
  {
    if i >= |list| then []
    else if !R.Expired(list[i], now) then WalkOps(list, i + 1, now)
    else if list[i].retryCount >= 0 then WalkOps(list[i := R.SentAt(list[i], now)], i + 1, now)
    else if i == |list| - 1 || i == 0 then [Unlink(list[i].msgId)]
    else [Unlink(list[i].msgId)] + WalkOps(Without(list, i), i, now)
  }

  function RequestOps(list: seq<R.Element>, step: R.Step): seq<Op<U16>> {
    match step
    case Add(msgId, _, _) => [Append(msgId)]
    case Answer(msgId) => if R.ById(list, msgId).Some? then [Unlink(msgId)] else []
    case CheckTimeout(now) => WalkOps(list, 0, now)
  }

  function AllRequestOps(run: R.Run): seq<Op<U16>> {
    if run.Start? then [] else AllRequestOps(run.past) + RequestOps(R.After(run.past), run.step)
  }

  lemma {:induction false} WalkUnlinks(list: seq<R.Element>, i: nat, now: nat)
    requires R.UniqueIds(list)
    ensures Proper(RequestIds(list), WalkOps(list, i, now))
    ensures IntendedRun(RequestIds(list), WalkOps(list, i, now)) == RequestIds(R.Walk(list, i, now))
    decreases |list| - i
  {
    if i >= |list| {
    } else if !R.Expired(list[i], now) {
      WalkUnlinks(list, i + 1, now);
    } else if list[i].retryCount >= 0 {
      var next := list[i := R.SentAt(list[i], now)];
      assert RequestIds(next) == RequestIds(list);
      WalkUnlinks(next, i + 1, now);
    } else {
      var one, next := [Unlink(list[i].msgId)], Without(list, i);
      UnlinkOne(RequestIds(list), i);
      R.WithoutOne(list, i, i);
      assert RequestIds(next) == Without(RequestIds(list), i);
      if i != |list| - 1 && i != 0 {
        WalkUnlinks(next, i, now);
        ProperConcat(RequestIds(list), one, WalkOps(next, i, now));
        IntendedConcat(RequestIds(list), one, WalkOps(next, i, now));
      }
    }
  }

  lemma RequestStepOps(list: seq<R.Element>, step: R.Step)
    requires R.UniqueIds(list) && (step.Add? ==> !R.HasId(list, step.msgId))
    ensures Proper(RequestIds(list), RequestOps(list, step))
    ensures IntendedRun(RequestIds(list), RequestOps(list, step)) == RequestIds(R.Next(list, step))
  {
    var ids := RequestIds(list);
    match step {
      case Add(msgId, _, _) =>
        AppendOne(ids, msgId);
        assert RequestIds(R.Next(list, step)) == ids + [msgId];
      case Answer(msgId) =>
        R.ByIdFinds(list, msgId);
        var i := R.ById(list, msgId);
        if i.Some? {
          UnlinkOne(ids, i.value);
          assert RequestIds(R.Next(list, step)) == Without(ids, i.value);
        }
      case CheckTimeout(now) => WalkUnlinks(list, 0, now);
    }
  }

  lemma {:induction false} RequestRunOps(run: R.Run)
    requires R.FreshIds(run)
    ensures Proper([], AllRequestOps(run)) && IntendedRun([], AllRequestOps(run)) == RequestIds(R.After(run))
  {
    if run.Then? {
      var a, b := AllRequestOps(run.past), RequestOps(R.After(run.past), run.step);
      RequestRunOps(run.past);
      R.RunIsUnique(run.past);
      RequestStepOps(R.After(run.past), run.step);
      ProperConcat([], a, b);
      IntendedConcat([], a, b);
      hide RequestOps, R.After;
    } else {
      assert RequestIds([]) == [];
    }
  }

  /** The same of the lists of SUBSCRIBEs and REGISTERs, and of their walks, which go back
      over the back link of a removed element. */
  lemma RequestListExactly(run: R.Run)
    requires R.FreshIds(run)
    ensures SameThroughout(EMPTY, [], AllRequestOps(run)) <==> NeverStale(EMPTY, AllRequestOps(run))
    ensures NeverStale(EMPTY, AllRequestOps(run)) ==>
              CodedRun(EMPTY, AllRequestOps(run)).list == RequestIds(R.After(run))
  {
    RequestRunOps(run);
    SameExactly(EMPTY, AllRequestOps(run));
  }
}
