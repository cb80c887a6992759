/** The client's publishes that are not finished: QoS 0, 1 and 2. */
module PublishManager {
  import opened Bytes
  import opened Sequences
  import opened Wrappers
  import TM = TaskManager

  const MQTTSN_RETRY_COUNT := 3
  const MQTTSN_TIME_RETRY := 10
  const MQTTSN_RC_ACCEPTED: Byte := 0
  const MQTTSN_RC_REJECTED_INVALID_TOPIC_ID: Byte := 2

  datatype Status = Suspended | Ready | WaitPuback | WaitPubrec | WaitPubcomp

  /** A PubElement. Its flag byte has the quality of service in bits 5 and 6, RETAIN
      in bit 4, and the kind of topic id in bits 0 and 1. */
  datatype Element = Element(msgId: U16, topicId: U16, topicName: Str, payload: seq<Byte>, sendUTC: nat,
                             retryCount: int, taskIndex: int, flag: Byte, status: Status) {
    function Qos(): nat {
      flag / 32 % 4
    }
  }

  /** The list, its counter, whether a callback of an incoming PUBLISH is running,
      and the outstanding counters of the tasks. */
  datatype State = State(list: seq<Element>, elmCnt: Byte, inCallback: bool, counts: seq<Byte>)

  /** What goes out: a PUBLISH, a PUBREL, a topic to be registered, a reconnection. */
  datatype Out = Sent(element: Element,
        dup: bool) | Released(msgId: U16) | Registers(topicName: Str) | Reconnects(msgId: U16)

  /** The bytes of a PUBLISH whose payload needs no long header. */
  function PublishBytes(e: Element, dup: bool): seq<Byte>
    requires |e.payload| <= 128 && e.flag < 128 && (e.flag % 4 == 2 ==> |e.topicName| >= 2)
  {
    [|e.payload| + 7, 0x0C, e.flag + if dup then 128 else 0]
    + (if e.flag % 4 == 2 then e.topicName[..2] else Put16(e.topicId))
    + Put16(e.msgId) + e.payload
  }

  predicate TaskThere(e: Element, counts: seq<Byte>) {
    e.taskIndex < |counts|
  }

  predicate TasksThere(s: State) {
    forall i :: 0 <= i < |s.list| ==> TaskThere(s.list[i], s.counts)
  }

  /** remove(), as it is meant: the element leaves the list. */
  function Remove(s: State, i: nat): State
    requires i < |s.list| && TaskThere(s.list[i], s.counts)
  {
    State(Without(s.list, i), (s.elmCnt as int - 1) % 256, s.inCallback,
          if s.list[i].taskIndex >= 0 then TM.Done(s.counts, s.list[i].taskIndex) else s.counts)
  }

  function WaitStatus(e: Element): Status {
    if e.Qos() == 1 then WaitPuback else if e.Qos() == 2 then WaitPubrec else e.status
  }

  function SendPublish(s: State, i: nat, now: nat): State
    requires i < |s.list| && TaskThere(s.list[i], s.counts)
  {
    var e := s.list[i];
    if e.Qos() == 0 then Remove(s, i)
    else s.(list := s.list[i := e.(status := WaitStatus(e), sendUTC := now, retryCount := e.retryCount - 1)])
  }

  function IsSent(e: Element): Out {
    Sent(e, e.retryCount < MQTTSN_RETRY_COUNT)
  }

  /** The new element of add(). `lookup` is what the topic table knows of the name. */
  function NewElement(topicName: Str, id: U16, lookup: U16, payload: seq<Byte>, qos: Byte, retain: bool,
        msgId: U16, taskIndex: int): Element {
    var topicId := if |topicName| == 2 then 0 else if |topicName| > 2 then lookup else id;
    Element(msgId, topicId, topicName, payload, 0, MQTTSN_RETRY_COUNT, taskIndex,
            (if |topicName| == 2 then 2 else if |topicName| > 2 then 0 else 1)
            + (if qos == 1 then 0x20 else if qos == 2 then 0x40 else 0) + (if retain then 0x10 else 0),
            if topicId != 0 then Ready else Suspended)
  }

  /** add(): at the end of the list, charged to the running task unless a callback runs. */
  function Add(s: State, e: Element): State
    requires TaskThere(e, s.counts)
  {
    State(s.list + [e], (s.elmCnt as int + 1) % 256, s.inCallback,
          if e.taskIndex >= 0 then TM.Suspend(s.counts, e.taskIndex) else s.counts)
  }

  function ById(list: seq<Element>, msgId: U16): Option<nat> {
    if list == [] then None
    else if list[0].msgId == msgId then Some(0)
    else var r := ById(list[1..], msgId); if r.Some? then Some(r.value + 1) else None
  }

  function FirstSuspended(list: seq<Element>, topicName: Str): Option<nat> {
    if list == [] then None
    else if list[0].topicName == topicName && list[0].status == Suspended then Some(0)
    else var r := FirstSuspended(list[1..], topicName); if r.Some? then Some(r.value + 1) else None
  }

  lemma {:induction false} ByIdFinds(list: seq<Element>, msgId: U16)
    ensures var r := ById(list, msgId);
            if r.Some? then r.value < |list| && list[r.value].msgId == msgId
            else forall k :: 0 <= k < |list| ==> list[k].msgId != msgId
  {
    if list == [] || list[0].msgId == msgId {
    } else {
      ByIdFinds(list[1..], msgId);
      assert forall k :: 1 <= k < |list| ==> list[k] == list[1..][k - 1];
    }
  }

  lemma {:induction false} FirstSuspendedFinds(list: seq<Element>, topicName: Str)
    ensures var r := FirstSuspended(list, topicName);
            r.Some? ==> r.value < |list| && list[r.value].topicName == topicName && list[r.value].status == Suspended
  {
    if list == [] || (list[0].topicName == topicName && list[0].status == Suspended) {
    } else {
      FirstSuspendedFinds(list[1..], topicName);
    }
  }

  /** The steps of the client that touch the list. */
  datatype Step =
    | Publish(topicName: Str, lookup: U16, payload: seq<Byte>, qos: Byte, retain: bool, msgId: U16, index: Byte,
          now: nat)
    | PublishById(id: U16, payload: seq<Byte>, qos: Byte, msgId: U16, index: Byte, now: nat)
    | SendSuspend(topicName: Str, topicId: U16, topicType: Byte, now: nat)
    | PubAck(msgId: U16, rc: Byte)
    | PubRec(msgId: U16, now: nat)
    | PubComp(msgId: U16)
    | CheckTimeout(now: nat)
    | CallbackStarts
    | CallbackEnds

  /** The running task is in the task list. */
  predicate Possible(s: State, step: Step) {
    TasksThere(s) && (step.Publish? || step.PublishById? ==> step.index < |s.counts|)
  }

  function TaskOf(s: State, index: Byte): int {
    if s.inCallback then -1 else index
  }

  function ReadyToSend(e: Element, topicId: U16, topicType: Byte): Element {
    var flag: Byte := if topicType == 2 && e.flag / 2 % 2 == 0 then (e.flag as int + 2) % 256 else e.flag;
    e.(topicId := topicId, flag := flag, status := Ready)
  }

  /** A publish whose topic id the gateway does not accept. */
  function Refused(e: Element): Element {
    e.(status := Suspended, topicId := 0, retryCount := MQTTSN_RETRY_COUNT, sendUTC := 0)
  }

  predicate Expired(e: Element, now: nat) {
    e.sendUTC > 0 && e.sendUTC + MQTTSN_TIME_RETRY < now
  }

  /** The walk of checkTimeout from element `i` on: expired elements are sent again
      until one has used up its retries, which reconnects. */
  function Walk(s: State, i: nat, now: nat): State
    requires TasksThere(s)
    decreases |s.list| - i
  {
    if i >= |s.list| then s
    else
      var e := s.list[i];
      if !Expired(e, now) then Walk(s, i + 1, now)
      else if e.retryCount < 0 then s.(list := s.list[i := e.(retryCount := MQTTSN_RETRY_COUNT)])
      else
        SendKeepsTasks(s, i, now);
        Walk(SendPublish(s, i, now), i + 1, now)
  }

  lemma SendKeepsTasks(s: State, i: nat, now: nat)
    requires i < |s.list| && TasksThere(s)
    ensures TasksThere(SendPublish(s, i, now)) && |SendPublish(s, i, now).list| <= |s.list|
  {
    var t := SendPublish(s, i, now);
    forall k | 0 <= k < |t.list| ensures TaskThere(t.list[k], t.counts) {
      if s.list[i].Qos() == 0 {
        assert t.list[k] == if k < i then s.list[k] else s.list[k + 1];
      }
    }
  }

  function Next(s: State, step: Step): State
    requires Possible(s, step)
  {
    match step
    case Publish(name, lookup, payload, qos, retain, msgId, index, now) =>
      var e := NewElement(name, 0, lookup, payload, qos, retain, msgId, TaskOf(s, index));
      var t := Add(s, e);
      if e.status == Ready then SendPublish(t, |s.list|, now) else t
    case PublishById(id, payload, qos, msgId, index, now) =>
      SendPublish(Add(s, NewElement([], id, 0, payload, qos, false, msgId, TaskOf(s, index))), |s.list|, now)
    case SendSuspend(name, topicId, topicType, now) =>
      FirstSuspendedFinds(s.list, name);
      var i := FirstSuspended(s.list, name);
      if i.None? then s
      else SendPublish(s.(list := s.list[i.value := ReadyToSend(s.list[i.value], topicId, topicType)]), i.value, now)
    case PubAck(msgId, rc) =>
      ByIdFinds(s.list, msgId);
      var i := ById(s.list, msgId);
      if i.None? then s
      else if rc == MQTTSN_RC_ACCEPTED then
        if s.list[i.value].status == WaitPuback then Remove(s, i.value) else s
      else if rc == MQTTSN_RC_REJECTED_INVALID_TOPIC_ID then
        s.(list := s.list[i.value := Refused(s.list[i.value])])
      else s
    case PubRec(msgId, now) =>
      ByIdFinds(s.list, msgId);
      var i := ById(s.list, msgId);
      if i.Some? && (s.list[i.value].status == WaitPubrec || s.list[i.value].status == WaitPubcomp)
      then s.(list := s.list[i.value := s.list[i.value].(status := WaitPubcomp, sendUTC := now)])
      else s
    case PubComp(msgId) =>
      ByIdFinds(s.list, msgId);
      var i := ById(s.list, msgId);
      if i.Some? && s.list[i.value].status == WaitPubcomp then Remove(s, i.value) else s
    case CheckTimeout(now) => Walk(s, 0, now)
    case CallbackStarts => s.(inCallback := true)
    case CallbackEnds => s.(inCallback := false)
  }

  // ----- what goes out

  function WalkOut(s: State, i: nat, now: nat): seq<Out>
    requires TasksThere(s)
    decreases |s.list| - i
  {
    if i >= |s.list| then []
    else
      var e := s.list[i];
      if !Expired(e, now) then WalkOut(s, i + 1, now)
      else if e.retryCount < 0 then [Reconnects(e.msgId)]
      else
        SendKeepsTasks(s, i, now);
        [IsSent(e)] + WalkOut(SendPublish(s, i, now), i + 1, now)
  }

  /** What a step sends. */
  function Outputs(s: State, step: Step): seq<Out>
    requires Possible(s, step)
  {
    match step
    case Publish(name, lookup, payload, qos, retain, msgId, index, _) =>
      var e := NewElement(name, 0, lookup, payload, qos, retain, msgId, TaskOf(s, index));
      if e.status == Ready then [IsSent(e)] else [Registers(name)]
    case PublishById(id, payload, qos, msgId, index, _) =>
      [IsSent(NewElement([], id, 0, payload, qos, false, msgId, TaskOf(s, index)))]
    case SendSuspend(name, topicId, topicType, _) =>
      FirstSuspendedFinds(s.list, name);
      var i := FirstSuspended(s.list, name);
      if i.None? then [] else [IsSent(ReadyToSend(s.list[i.value], topicId, topicType))]
    case PubAck(msgId, rc) =>
      ByIdFinds(s.list, msgId);
      var i := ById(s.list, msgId);
      if i.Some? && rc == MQTTSN_RC_REJECTED_INVALID_TOPIC_ID then [Registers(s.list[i.value].topicName)] else []
    case PubRec(msgId, _) =>
      ByIdFinds(s.list, msgId);
      var i := ById(s.list, msgId);
      if i.Some? && (s.list[i.value].status == WaitPubrec
            || s.list[i.value].status == WaitPubcomp) then [Released(msgId)] else []
    case CheckTimeout(now) => WalkOut(s, 0, now)
    case _ => []
  }

  // ----- the elements

  /** What holds of every element between two steps. */
  predicate Sane(e: Element) {
    && e.Qos() <= 2 && e.flag < 128 && -1 <= e.retryCount <= MQTTSN_RETRY_COUNT
    && (match e.status
        case Suspended => e.sendUTC == 0 && e.retryCount == MQTTSN_RETRY_COUNT
        case Ready => false
        case WaitPuback => e.Qos() == 1
        case WaitPubrec => e.Qos() == 2
        case WaitPubcomp => e.Qos() == 2)
  }

  predicate AllSane(list: seq<Element>) {
    forall i :: 0 <= i < |list| ==> Sane(list[i])
  }

  /** An element about to be sent, for the first time or again. */
  predicate Sendable(e: Element) {
    e.Qos() <= 2 && e.flag < 128 && 0 <= e.retryCount <= MQTTSN_RETRY_COUNT
  }

  lemma SendIsSane(s: State, i: nat, now: nat)
    requires i < |s.list| && TaskThere(s.list[i], s.counts) && Sendable(s.list[i])
    requires forall k :: 0 <= k < |s.list| && k != i ==> Sane(s.list[k])
    ensures AllSane(SendPublish(s, i, now).list)
  {
    var t := SendPublish(s, i, now);
    if s.list[i].Qos() == 0 {
      forall k | 0 <= k < |t.list| ensures Sane(t.list[k]) {
        assert t.list[k] == if k < i then s.list[k] else s.list[k + 1];
      }
    } else {
      assert Sane(t.list[i]);
    }
  }

  lemma ReadyIsSendable(e: Element, topicId: U16, topicType: Byte)
    requires Sane(e) && e.status == Suspended
    ensures Sendable(ReadyToSend(e, topicId, topicType)) && ReadyToSend(e, topicId, topicType).Qos() == e.Qos()
  {
    var r := e.flag % 4;
    assert e.flag == 4 * (e.flag / 4) + r;
    if topicType == 2 && e.flag / 2 % 2 == 0 {
      assert r < 2;
      assert (e.flag as int + 2) / 4 == e.flag / 4;
      assert (e.flag as int + 2) / 32 == (e.flag as int + 2) / 4 / 8 == e.flag / 4 / 8 == e.flag / 32;
    }
  }

  lemma NewIsSendable(topicName: Str, id: U16, lookup: U16, payload: seq<Byte>, qos: Byte, retain: bool,
        msgId: U16, taskIndex: int)
    ensures var e := NewElement(topicName, id, lookup, payload, qos, retain, msgId, taskIndex);
            Sendable(e) && (e.status == Suspended ==> Sane(e))
            && e.Qos() == (if qos == 1 || qos == 2 then qos as nat else 0)
  {
  }

  /** A time-out never meets an element of quality of service 0, so sending an element
      again does not take it out of the list, and the walk goes on from an element
      that is still there. */
  lemma {:induction false} WalkKeepsElements(s: State, i: nat, now: nat)
    requires TasksThere(s) && AllSane(s.list)
    ensures var t := Walk(s, i, now);
            |t.list| == |s.list| && AllSane(t.list) && t.elmCnt == s.elmCnt && t.counts == s.counts
                  && t.inCallback == s.inCallback
    ensures forall k :: 0 <= k < |s.list| ==> SameButSent(s.list[k], Walk(s, i, now).list[k])
    decreases |s.list| - i
  {
    if i < |s.list| {
      var e := s.list[i];
      if !Expired(e, now) {
        WalkKeepsElements(s, i + 1, now);
      } else if e.retryCount >= 0 {
        SendKeepsTasks(s, i, now);
        SendIsSane(s, i, now);
        WalkKeepsElements(SendPublish(s, i, now), i + 1, now);
      }
    }
  }

  predicate SameButSent(e: Element, f: Element) {
    e.msgId == f.msgId && e.taskIndex == f.taskIndex && e.flag == f.flag
    && (f.status == e.status || (e.status == WaitPubcomp && f.status == WaitPubrec))
  }

  /** Every step keeps the elements sane. */
  lemma StepKeepsSane(s: State, step: Step)
    requires Possible(s, step) && AllSane(s.list)
    ensures AllSane(Next(s, step).list) && TasksThere(Next(s, step)) && |Next(s, step).counts| == |s.counts|
  {
    match step {
      case Publish(name, lookup, payload, qos, retain, msgId, index, now) =>
        NewIsSendable(name, 0, lookup, payload, qos, retain, msgId, TaskOf(s, index));
        AddThenSend(s, NewElement(name, 0, lookup, payload, qos, retain, msgId, TaskOf(s, index)), now);
      case PublishById(id, payload, qos, msgId, index, now) =>
        NewIsSendable([], id, 0, payload, qos, false, msgId, TaskOf(s, index));
        AddThenSend(s, NewElement([], id, 0, payload, qos, false, msgId, TaskOf(s, index)), now);
      case SendSuspend(name, topicId, topicType, now) => SuspendedKeepsSane(s, name, topicId, topicType, now);
      case PubAck(msgId, rc) => AckKeepsSane(s, msgId, step);
      case PubRec(msgId, _) => ByIdFinds(s.list, msgId);
      case PubComp(msgId) => AckKeepsSane(s, msgId, step);
      case CheckTimeout(now) => WalkKeepsElements(s, 0, now);
      case CallbackStarts =>
      case CallbackEnds =>
    }
  }

  lemma AddThenSend(s: State, e: Element, now: nat)
    requires TasksThere(s) && AllSane(s.list) && TaskThere(e, s.counts) && Sendable(e)
    ensures var t := Add(s, e);
            TasksThere(t) && |t.counts| == |s.counts| && (Sane(e) ==> AllSane(t.list))
            && AllSane(SendPublish(t, |s.list|, now).list) && TasksThere(SendPublish(t, |s.list|, now))
  {
    var t := Add(s, e);
    SendKeepsTasks(t, |s.list|, now);
    SendIsSane(t, |s.list|, now);
  }

  lemma SuspendedKeepsSane(s: State, name: Str, topicId: U16, topicType: Byte, now: nat)
    requires TasksThere(s) && AllSane(s.list)
    ensures var t := Next(s, SendSuspend(name, topicId, topicType, now));
            AllSane(t.list) && TasksThere(t) && |t.counts| == |s.counts|
  {
    FirstSuspendedFinds(s.list, name);
    var i := FirstSuspended(s.list, name);
    if i.Some? {
      ReadyIsSendable(s.list[i.value], topicId, topicType);
      var t := s.(list := s.list[i.value := ReadyToSend(s.list[i.value], topicId, topicType)]);
      SendKeepsTasks(t, i.value, now);
      SendIsSane(t, i.value, now);
    }
  }

  lemma AckKeepsSane(s: State, msgId: U16, step: Step)
    requires TasksThere(s) && AllSane(s.list) && (step.PubAck? || step.PubComp?) && step.msgId == msgId
    ensures AllSane(Next(s, step).list) && TasksThere(Next(s, step)) && |Next(s, step).counts| == |s.counts|
  {
    ByIdFinds(s.list, msgId);
    var i := ById(s.list, msgId);
    if i.Some? {
      RemoveKeeps(s, i.value);
    }
  }

  lemma RemoveKeeps(s: State, i: nat)
    requires TasksThere(s) && AllSane(s.list) && i < |s.list|
    ensures AllSane(Remove(s, i).list) && TasksThere(Remove(s, i))
  {
    var t := Remove(s, i);
    forall k | 0 <= k < |t.list| ensures Sane(t.list[k]) && TaskThere(t.list[k], t.counts) {
      assert t.list[k] == if k < i then s.list[k] else s.list[k + 1];
      assert Sane(t.list[k]);
    }
  }

  // ----- the manager

  class PublishManager {
    var list: seq<Element>
    var elmCnt: Byte
    var inCallback: bool
    const tasks: TM.TaskManager
    /** Everything handed to the gateway connection and the register manager, in order. */
    var sent: seq<Out>

    constructor (tasks: TM.TaskManager)
      ensures this.tasks == tasks && list == [] && elmCnt == 0 && !inCallback && sent == []
    {
      list, elmCnt, inCallback, sent := [], 0, false, [];
      this.tasks := tasks;
    }

    ghost function Now(): State
      reads this, tasks
    {
      State(list, elmCnt, inCallback, tasks.Counts())
    }

    method RemoveElement(i: nat)
      requires i < |list| && TaskThere(list[i], Now().counts)
      modifies this`list, this`elmCnt, tasks`task
      ensures Now() == Remove(old(Now()), i)
    {
      if list[i].taskIndex >= 0 {
        tasks.DoneTask(list[i].taskIndex);
      }
      list := list[..i] + list[i + 1..];
      elmCnt := (elmCnt as int - 1) % 256;
    }

    method Transmit(i: nat, now: nat)
      requires i < |list| && TaskThere(list[i], Now().counts)
      modifies this`list, this`elmCnt, this`sent, tasks`task
      ensures Now() == SendPublish(old(Now()), i, now) && sent == old(sent) + [IsSent(old(list)[i])]
    {
      var e := list[i];
      sent := sent + [Sent(e, e.retryCount < MQTTSN_RETRY_COUNT)];
      if e.flag / 32 % 4 == 0 {
        RemoveElement(i);
        return;
      } else if e.flag / 32 % 4 == 1 {
        e := e.(status := WaitPuback);
      } else if e.flag / 32 % 4 == 2 {
        e := e.(status := WaitPubrec);
      }
      list := list[i := e.(sendUTC := now, retryCount := e.retryCount - 1)];
    }

    method AddElement(topicName: Str, id: U16, lookup: U16, payload: seq<Byte>, qos: Byte, retain: bool,
          msgId: U16) returns (i: nat)
      requires tasks.index < |tasks.task| && tasks.index < 256
      modifies this`list, this`elmCnt, tasks`task
      ensures i == |old(list)| && |list| == i + 1 && TaskThere(list[i], Now().counts)
      ensures var task := TaskOf(old(Now()), tasks.index as Byte);
              var e := NewElement(topicName, id, lookup, payload, qos, retain, msgId, task);
              Now() == Add(old(Now()), e) && list[i] == e
    {
      var topicId := id;
      var flag: Byte := 0;
      if |topicName| == 2 {
        topicId, flag := 0, 2;
      } else if |topicName| > 2 {
        topicId := lookup;
      } else {
        flag := 1;
      }
      if qos == 1 {
        flag := flag + 0x20;
      } else if qos == 2 {
        flag := flag + 0x40;
      }
      if retain {
        flag := flag + 0x10;
      }
      var taskIndex: int := -1;
      if !inCallback {
        taskIndex := tasks.index;
        tasks.SuspendTask(tasks.index);
      }
      i := |list|;
      list := list + [Element(msgId, topicId, topicName, payload, 0, MQTTSN_RETRY_COUNT, taskIndex, flag,
                              if topicId != 0 then Ready else Suspended)];
      elmCnt := (elmCnt as int + 1) % 256;
    }

    method PublishTopic(topicName: Str, lookup: U16, payload: seq<Byte>, qos: Byte, retain: bool, msgId: U16, now: nat)
      requires TasksThere(Now()) && tasks.index < |tasks.task| && tasks.index < 256
      modifies this`list, this`elmCnt, this`sent, tasks`task
      ensures var step := Publish(topicName, lookup, payload, qos, retain, msgId, old(tasks.index) as Byte, now);
              Possible(old(Now()), step) && Now() == Next(old(Now()), step)
                    && sent == old(sent) + Outputs(old(Now()), step)
    {
      var i := AddElement(topicName, 0, lookup, payload, qos, retain, msgId);
      if list[i].status == Ready {
        Transmit(i, now);
      } else {
        sent := sent + [Registers(topicName)];
      }
    }

    method PublishId(id: U16, payload: seq<Byte>, qos: Byte, msgId: U16, now: nat)
      requires TasksThere(Now()) && tasks.index < |tasks.task| && tasks.index < 256
      modifies this`list, this`elmCnt, this`sent, tasks`task
      ensures var step := PublishById(id, payload, qos, msgId, old(tasks.index) as Byte, now);
              Possible(old(Now()), step) && Now() == Next(old(Now()), step)
                    && sent == old(sent) + Outputs(old(Now()), step)
    {
      var i := AddElement([], id, 0, payload, qos, false, msgId);
      Transmit(i, now);
    }

    method GetElement(msgId: U16) returns (i: Option<nat>)
      ensures i == ById(list, msgId)
    {
      var elm := 0;
      while elm < |list|
        invariant 0 <= elm <= |list|
        invariant ById(list, msgId) == Shifted(ById(list[elm..], msgId), elm)
      {
        if list[elm].msgId == msgId {
          return Some(elm);
        }
        assert list[elm..][1..] == list[elm + 1..];
        elm := elm + 1;
      }
      i := None;
    }

    method ReleaseSuspended(topicName: Str, topicId: U16, topicType: Byte, now: nat)
      requires TasksThere(Now())
      modifies this`list, this`elmCnt, this`sent, tasks`task
      ensures var step := SendSuspend(topicName, topicId, topicType, now);
              Now() == Next(old(Now()), step) && sent == old(sent) + Outputs(old(Now()), step)
    {
      FirstSuspendedFinds(list, topicName);
      var elm := 0;
      while elm < |list|
        invariant 0 <= elm <= |list|
        invariant FirstSuspended(list, topicName) == Shifted(FirstSuspended(list[elm..], topicName), elm)
      {
        if list[elm].topicName == topicName && list[elm].status == Suspended {
          assert FirstSuspended(list, topicName) == Some(elm);
          list := list[elm := ReadyToSend(list[elm], topicId, topicType)];
          Transmit(elm, now);
          return;
        }
        assert list[elm..][1..] == list[elm + 1..];
        elm := elm + 1;
      }
    }

    method PubAckReceived(msgId: U16, rc: Byte)
      requires TasksThere(Now())
      modifies this`list, this`elmCnt, this`sent, tasks`task
      ensures Now() == Next(old(Now()), PubAck(msgId, rc)) && sent == old(sent) + Outputs(old(Now()), PubAck(msgId, rc))
    {
      ByIdFinds(list, msgId);
      var elm := GetElement(msgId);
      if elm.None? {
        return;
      }
      var e := list[elm.value];
      if rc == MQTTSN_RC_ACCEPTED {
        if e.status == WaitPuback {
          RemoveElement(elm.value);
        }
      } else if rc == MQTTSN_RC_REJECTED_INVALID_TOPIC_ID {
        e := e.(status := Suspended, topicId := 0, retryCount := MQTTSN_RETRY_COUNT, sendUTC := 0);
        list := list[elm.value := e];
        sent := sent + [Registers(e.topicName)];
      }
    }

    method PubRecReceived(msgId: U16, now: nat)
      requires TasksThere(Now())
      modifies this`list, this`sent
      ensures Now() == Next(old(Now()), PubRec(msgId, now))
      ensures sent == old(sent) + Outputs(old(Now()), PubRec(msgId, now))
    {
      ByIdFinds(list, msgId);
      var elm := GetElement(msgId);
      if elm.Some? {
        var e := list[elm.value];
        if e.status == WaitPubrec || e.status == WaitPubcomp {
          sent := sent + [Released(e.msgId)];
          list := list[elm.value := e.(status := WaitPubcomp, sendUTC := now)];
        }
      }
    }

    method PubCompReceived(msgId: U16)
      requires TasksThere(Now())
      modifies this`list, this`elmCnt, tasks`task
      ensures Now() == Next(old(Now()), PubComp(msgId)) && sent == old(sent) + Outputs(old(Now()), PubComp(msgId))
    {
      ByIdFinds(list, msgId);
      var elm := GetElement(msgId);
      if elm.Some? && list[elm.value].status == WaitPubcomp {
        RemoveElement(elm.value);
      }
    }

    /** The walk over the list. An element that sendPublish has removed could not be
        stepped over; there is none. */
    method TimeoutCheck(now: nat)
      requires TasksThere(Now()) && AllSane(list)
      modifies this`list, this`elmCnt, this`sent, tasks`task
      ensures Now() == Next(old(Now()), CheckTimeout(now)) && sent == old(sent) + Outputs(old(Now()), CheckTimeout(now))
      ensures |list| == |old(list)| && AllSane(list)
    {
      WalkKeepsElements(Now(), 0, now);
      ghost var before := Now();
      var elm := 0;
      while elm < |list|
        invariant TasksThere(Now()) && AllSane(list) && |list| == |before.list|
        invariant Walk(before, 0, now) == Walk(Now(), elm, now)
        invariant old(sent) + WalkOut(before, 0, now) == sent + WalkOut(Now(), elm, now)
      {
        ghost var s := Now();
        if list[elm].sendUTC > 0 && list[elm].sendUTC + MQTTSN_TIME_RETRY < now {
          if list[elm].retryCount >= 0 {
            SendKeepsTasks(s, elm, now);
            SendIsSane(s, elm, now);
            Assoc(sent, [IsSent(list[elm])], WalkOut(SendPublish(s, elm, now), elm + 1, now));
            Transmit(elm, now);
          } else {
            sent := sent + [Reconnects(list[elm].msgId)];
            list := list[elm := list[elm].(retryCount := MQTTSN_RETRY_COUNT)];
            return;
          }
        }
        elm := elm + 1;
      }
    }

    method SetCallback(running: bool)
      requires TasksThere(Now())
      modifies this`inCallback
      ensures Now() == Next(old(Now()), if running then CallbackStarts else CallbackEnds)
    {
      inCallback := running;
    }
  }

  function Shifted(i: Option<nat>, n: nat): Option<nat> {
    if i.Some? then Some(i.value + n) else None
  }
}
