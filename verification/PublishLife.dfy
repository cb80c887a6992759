/** What the client sends for a publish, read from the steps of its run: name, payload,
    quality of service, RETAIN, topic id, and the answers to acknowledgements. */
module PublishLife {
  import opened Bytes
  import opened PublishManager
  import opened PublishRuns
  import opened Wrappers
  import F = SnFormats

  // ----- the life of a publish, as the steps tell it

  /** What the application asks for. */
  datatype Call = Call(name: Str, payload: seq<Byte>, qos: nat, retain: bool)

  /** The call, the task it is charged to or -1, the topic id and its kind (0 normal,
      1 predefined, 2 short), what is awaited, and the time of the last message that was sent
      for it, 0 if it waits for its topic. */
  datatype Life = Life(call: Call, task: int, topicId: U16, kind: nat, status: Status, time: nat)

  predicate Publishes(step: Step) {
    step.Publish? || step.PublishById?
  }

  /** Every quality of service but 1 and 2 counts as 0. */
  function CallOf(step: Step): Call
    requires Publishes(step)
  {
    var qos := if step.qos == 1 then 1 else if step.qos == 2 then 2 else 0;
    if step.Publish? then Call(step.topicName, step.payload, qos, step.retain)
    else Call([], step.payload, qos, false)
  }

  /** A PUBLISH with this id goes out. */
  predicate Sends(outs: seq<Out>, msgId: U16) {
    exists j :: 0 <= j < |outs| && outs[j].Sent? && outs[j].element.msgId == msgId
  }

  function Awaited(qos: nat): Status {
    if qos == 1 then WaitPuback else WaitPubrec
  }

  /** A callback for a received PUBLISH is running. */
  predicate InCallback(run: Run) {
    run.Then? && (run.step.CallbackStarts? || (!run.step.CallbackEnds? && InCallback(run.past)))
  }

  lemma {:induction false} CallbacksTold(run: Run)
    requires Feasible(run)
    ensures After(run).inCallback == InCallback(run)
  {
    if run.Then? {
      CallbacksTold(run.past);
      RunIsSane(run.past);
      CallbackStep(After(run.past), run.step);
      hide Next;
    }
  }

  lemma CallbackStep(s: State, step: Step)
    requires Possible(s, step) && AllSane(s.list)
    ensures Next(s, step).inCallback == (step.CallbackStarts? || (!step.CallbackEnds? && s.inCallback))
  {
    match step {
      case CheckTimeout(now) => WalkKeepsElements(s, 0, now);
      case SendSuspend(name, _, _, _) => FirstSuspendedFinds(s.list, name);
      case PubAck(msgId, _) => ByIdFinds(s.list, msgId);
      case PubRec(msgId, _) => ByIdFinds(s.list, msgId);
      case PubComp(msgId) => ByIdFinds(s.list, msgId);
      case _ =>
    }
    hide TM.Done, TM.Suspend;
  }

  /** A life begins: a publish from inside a callback is charged to no task; a short name has
      no topic id, a longer one that which the topic table knows, and a publish by id the id
      given. */
  function Begun(step: Step, outs: seq<Out>, callback: bool): Life
    requires Publishes(step)
  {
    var call := CallOf(step);
    var sent := Sends(outs, step.msgId);
    var topicId := if step.PublishById? then step.id else if |step.topicName| > 2 then step.lookup else 0;
    var kind := if |call.name| == 2 then 2 else if |call.name| > 2 then 0 else 1;
    Life(call, if callback then -1 else step.index, topicId, kind, if sent then Awaited(call.qos) else Suspended,
         if sent then step.now else 0)
  }

  /** How the other steps change it: its topic is released or refused, a copy of it is sent,
      its PUBREL is sent. */
  function Onward(l: Life, step: Step, outs: seq<Out>, msgId: U16): Life {
    if step.SendSuspend? && Sends(outs, msgId) then
      Life(l.call, l.task, step.topicId, if step.topicType == 2 && l.kind < 2 then l.kind + 2 else l.kind,
           Awaited(l.call.qos), step.now)
    else if step == PubAck(msgId, 2) then l.(topicId := 0, status := Suspended, time := 0)
    else if step.PubRec? && Released(msgId) in outs then l.(status := WaitPubcomp, time := step.now)
    else if step.CheckTimeout? && Sends(outs, msgId) then l.(status := Awaited(l.call.qos), time := step.now)
    else l
  }

  /** The life of the last publish with this id. */
  function LifeOf(run: Run, msgId: U16): Option<Life>
    requires Feasible(run)
  {
    if run.Start? then None
    else
      var outs := Outputs(After(run.past), run.step);
      var l := LifeOf(run.past, msgId);
      if Publishes(run.step) && run.step.msgId == msgId then Some(Begun(run.step, outs, InCallback(run.past)))
      else if l.Some? then Some(Onward(l.value, run.step, outs, msgId))
      else None
  }

  // ----- the elements follow it

  function LifeIn(e: Element): Life {
    Life(Call(e.topicName, e.payload, e.Qos(), e.flag as int / 16 % 2 == 1), e.taskIndex, e.topicId, e.flag % 4,
         e.status, e.sendUTC)
  }

  /** There is nothing else in the flags. */
  predicate FlagsWhole(e: Element) {
    e.flag as int == e.flag % 4 + (if e.flag as int / 16 % 2 == 1 then 16 else 0) + 32 * e.Qos()
  }

  lemma NewLife(topicName: Str, id: U16, lookup: U16, payload: seq<Byte>, qos: Byte, retain: bool, msgId: U16,
        taskIndex: int)
    ensures var e := NewElement(topicName, id, lookup, payload, qos, retain, msgId, taskIndex);
            e.msgId == msgId && e.topicName == topicName && e.payload == payload && e.taskIndex == taskIndex
            && FlagsWhole(e)
            && e.Qos() == (if qos == 1 then 1 else if qos == 2 then 2 else 0)
            && (e.flag as int / 16 % 2 == 1) == retain
            && e.flag % 4 == (if |topicName| == 2 then 2 else if |topicName| > 2 then 0 else 1)
            && e.topicId == (if |topicName| == 2 then 0 else if |topicName| > 2 then lookup else id)
            && e.sendUTC == 0 && e.retryCount == 3 && e.status == (if e.topicId != 0 then Ready else Suspended)
  {
  }

  lemma SendsOne(out: Out, msgId: U16)
    ensures Sends([out], msgId) <==> out.Sent? && out.element.msgId == msgId
  {
    assert [out][0] == out;
  }

  lemma PublishBegins(s: State, step: Step, k: nat)
    requires Possible(s, step) && Publishes(step) && k < |Next(s, step).list|
    ensures var f, outs := Next(s, step).list[k], Outputs(s, step);
            if k < |s.list| then f == s.list[k]
            else f.msgId == step.msgId && FlagsWhole(f) && LifeIn(f) == Begun(step, outs, s.inCallback)
  {
    if step.Publish? {
      NewLife(step.topicName, 0, step.lookup, step.payload, step.qos, step.retain, step.msgId, TaskOf(s, step.index));
    } else {
      NewLife([], step.id, 0, step.payload, step.qos, false, step.msgId, TaskOf(s, step.index));
    }
    hide NewElement;
    SendsOne(Outputs(s, step)[0], step.msgId);
  }

  lemma ReleaseGoesOn(s: State, step: Step, k: nat)
    requires Possible(s, step) && step.SendSuspend? && AllSane(s.list) && UniqueIds(s.list)
    requires k < |Next(s, step).list|
    ensures var j, f, outs := Was(s, step, k), Next(s, step).list[k], Outputs(s, step);
            j < |s.list| && s.list[j].msgId == f.msgId && (FlagsWhole(s.list[j]) ==> FlagsWhole(f))
            && LifeIn(f) == Onward(LifeIn(s.list[j]), step, outs, f.msgId)
  {
    FirstSuspendedFinds(s.list, step.topicName);
    var i := FirstSuspended(s.list, step.topicName);
    if i.Some? {
      var e := s.list[i.value];
      ReadyIsSendable(e, step.topicId, step.topicType);
      ReadyFlags(e, step.topicId, step.topicType);
      SendsOne(Outputs(s, step)[0], Next(s, step).list[k].msgId);
    }
    hide ReadyToSend;
  }

  lemma ReadyFlags(e: Element, topicId: U16, topicType: Byte)
    requires Sane(e)
    ensures var r := ReadyToSend(e, topicId, topicType);
            r.msgId == e.msgId && r.topicName == e.topicName && r.taskIndex == e.taskIndex
            && r.payload == e.payload && r.topicId == topicId
            && r.flag as int / 16 % 2 == e.flag as int / 16 % 2 && (FlagsWhole(e) ==> FlagsWhole(r))
            && r.flag % 4 == (if topicType == 2 && e.flag % 4 < 2 then e.flag % 4 + 2 else e.flag % 4)
  {
    if topicType == 2 && e.flag / 2 % 2 == 0 {
      ReadyToSendAdds(e.flag, topicType);
    }
  }

  lemma ReadyToSendAdds(flag: Byte, topicType: Byte)
    requires topicType == 2 && flag / 2 % 2 == 0 && flag < 128
    ensures (flag as int + 2) / 16 == flag as int / 16
    ensures (flag as int + 2) % 4 == flag as int % 4 + 2 && flag % 4 < 2
  {
  }

  lemma AckGoesOn(s: State, step: Step, k: nat)
    requires Possible(s, step) && IsAck(step) && UniqueIds(s.list) && k < |Next(s, step).list|
    ensures var j, f, outs := Was(s, step, k), Next(s, step).list[k], Outputs(s, step);
            j < |s.list| && s.list[j].msgId == f.msgId && (FlagsWhole(s.list[j]) ==> FlagsWhole(f))
            && LifeIn(f) == Onward(LifeIn(s.list[j]), step, outs, f.msgId)
  {
    if step.PubAck? || step.PubRec? || step.PubComp? {
      ByIdFinds(s.list, step.msgId);
      OthersSame(s, step, k);
      if Next(s, step).list[k].msgId == step.msgId {
        assert Leaves(s, step).None?;
        assert ById(s.list, step.msgId) == Some(k);
      }
      hide Was, ById, TM.Done;
    }
    hide Sends;
  }

  /** An acknowledgement does not touch other publishes. */
  lemma OthersSame(s: State, step: Step, k: nat)
    requires Possible(s, step) && (step.PubAck? || step.PubRec? || step.PubComp?) && UniqueIds(s.list)
    requires k < |Next(s, step).list|
    ensures var j, f := Was(s, step, k), Next(s, step).list[k];
            j < |s.list| && s.list[j].msgId == f.msgId && (f.msgId != step.msgId ==> f == s.list[j])
  {
    ByIdFinds(s.list, step.msgId);
    hide TM.Done;
  }

  /** What a time-out does to one element: it sends a copy or leaves it, and otherwise counts. */
  lemma {:induction false} WalkGoesOn(s: State, i: nat, now: nat, k: nat)
    requires TasksThere(s) && AllSane(s.list) && UniqueIds(s.list) && k < |s.list|
    ensures k < |Walk(s, i, now).list|
    ensures var e, f := s.list[k], Walk(s, i, now).list[k];
            f == if Sends(WalkOut(s, i, now), e.msgId)
                 then e.(status := Awaited(e.Qos()), sendUTC := now, retryCount := f.retryCount)
                 else e.(retryCount := f.retryCount)
    ensures k < i ==> !Sends(WalkOut(s, i, now), s.list[k].msgId)
    decreases |s.list| - i
  {
    if i < |s.list| {
      var e, id := s.list[i], s.list[k].msgId;
      assert i != k ==> e.msgId != id;
      if !Expired(e, now) {
        WalkGoesOn(s, i + 1, now, k);
      } else if e.retryCount < 0 {
        SendsOne(Reconnects(e.msgId), id);
      } else {
        var t := SendPublish(s, i, now);
        SendKeepsTasks(s, i, now);
        SendIsSane(s, i, now);
        assert Sane(e);
        assert t.list == s.list[i := t.list[i]];
        assert t.list[i] == e.(status := Awaited(e.Qos()), sendUTC := now, retryCount := e.retryCount - 1);
        assert UniqueIds(t.list) && t.list[k].msgId == id;
        assert Walk(s, i, now) == Walk(t, i + 1, now) && WalkOut(s, i, now) == [IsSent(e)] + WalkOut(t, i + 1, now);
        hide Walk, WalkOut, SendPublish, UniqueIds, AllSane, TasksThere, Sends;
        WalkGoesOn(t, i + 1, now, k);
        SendsMore(IsSent(e), WalkOut(t, i + 1, now), id);
      }
    }
  }

  lemma SendsMore(out: Out, rest: seq<Out>, msgId: U16)
    ensures Sends([out] + rest, msgId) <==> (out.Sent? && out.element.msgId == msgId) || Sends(rest, msgId)
  {
    var all := [out] + rest;
    assert all[0] == out;
    assert forall j :: 0 <= j < |rest| ==> all[j + 1] == rest[j];
  }

  /** Each step takes the life of every element one step on. */
  lemma StepGoesOn(s: State, step: Step, k: nat)
    requires Possible(s, step) && AllSane(s.list) && UniqueIds(s.list) && k < |Next(s, step).list|
    requires !Publishes(step)
    ensures var j, f, outs := Was(s, step, k), Next(s, step).list[k], Outputs(s, step);
            j < |s.list| && s.list[j].msgId == f.msgId && (FlagsWhole(s.list[j]) ==> FlagsWhole(f))
            && LifeIn(f) == Onward(LifeIn(s.list[j]), step, outs, f.msgId)
  {
    if step.CheckTimeout? {
      WalkKeepsElements(s, 0, step.now);
      WalkGoesOn(s, 0, step.now, k);
    } else if step.SendSuspend? {
      ReleaseGoesOn(s, step, k);
    } else {
      AckGoesOn(s, step, k);
    }
    hide Walk, WalkOut, Sends, ById, FirstSuspended;
  }

  /** Every element of the list is in the state that the steps tell. */
  ghost predicate Told(run: Run)
    requires Feasible(run)
  {
    forall k :: 0 <= k < |After(run).list| ==>
      FlagsWhole(After(run).list[k])
      && LifeOf(run, After(run).list[k].msgId) == Some(LifeIn(After(run).list[k]))
  }

  /** In every run with fresh ids, each unfinished publish has the name, payload, quality
      of service and RETAIN of its call, the topic id of its table, its call or its release,
      awaits what was last sent for it, and since when. */
  lemma {:induction false} ListIsTold(run: Run)
    requires Feasible(run) && FreshIds(run)
    ensures Told(run)
  {
    if run.Then? {
      ListIsTold(run.past);
      RunIsSane(run.past);
      IdsStayUnique(run.past);
      forall k | 0 <= k < |After(run).list|
        ensures FlagsWhole(After(run).list[k])
                && LifeOf(run, After(run).list[k].msgId) == Some(LifeIn(After(run).list[k]))
      {
        ToldOnward(run, k);
      }
    }
  }

  lemma ToldOnward(run: Run, k: nat)
    requires run.Then? && Feasible(run) && FreshIds(run) && Told(run.past) && k < |After(run).list|
    requires AllSane(After(run.past).list) && UniqueIds(After(run.past).list)
    ensures FlagsWhole(After(run).list[k])
            && LifeOf(run, After(run).list[k].msgId) == Some(LifeIn(After(run).list[k]))
  {
    var s, step := After(run.past), run.step;
    if Publishes(step) {
      CallbacksTold(run.past);
      PublishBegins(s, step, k);
      assert !HasId(s.list, step.msgId);
      assert k < |s.list| ==> s.list[k].msgId != step.msgId;
    } else {
      StepGoesOn(s, step, k);
    }
    hide Next, Outputs, Onward, Begun, LifeIn, FlagsWhole, Was, UniqueIds, AllSane;
  }

  // ----- what goes out

  /** The PUBLISH has the contents of the life. */
  predicate Tells(e: Element, l: Life) {
    FlagsWhole(e) && LifeIn(e).call == l.call && e.topicId == l.topicId && e.flag % 4 == l.kind
  }

  /** In every run with fresh ids, whenever a PUBLISH goes out it carries the name, payload,
      quality of service and RETAIN of the last publish with its id, under the topic id that
      the table knew, the id that was given, or that of the REGACK that released it. */
  lemma SentAsCalled(run: Run, j: nat)
    requires run.Then? && Feasible(run) && FreshIds(run)
    requires j < |Outputs(After(run.past), run.step)| && Outputs(After(run.past), run.step)[j].Sent?
    ensures var e := Outputs(After(run.past), run.step)[j].element;
            LifeOf(run, e.msgId).Some? && Tells(e, LifeOf(run, e.msgId).value)
  {
    var s, step := After(run.past), run.step;
    var e := Outputs(s, step)[j].element;
    ListIsTold(run.past);
    RunIsSane(run.past);
    assert Sends(Outputs(s, step), e.msgId);
    if step.CheckTimeout? {
      WalkSendsElements(s, 0, step.now, j);
      var m :| 0 <= m < |s.list| && Outputs(s, step)[j] == IsSent(s.list[m]);
      assert LifeOf(run.past, e.msgId) == Some(LifeIn(s.list[m]));
    } else if step.SendSuspend? {
      FirstSuspendedFinds(s.list, step.topicName);
      var m := FirstSuspended(s.list, step.topicName).value;
      ReadyFlags(s.list[m], step.topicId, step.topicType);
      ReadyIsSendable(s.list[m], step.topicId, step.topicType);
      assert LifeOf(run.past, s.list[m].msgId) == Some(LifeIn(s.list[m]));
    } else if step.Publish? {
      NewLife(step.topicName, 0, step.lookup, step.payload, step.qos, step.retain, step.msgId, TaskOf(s, step.index));
    } else {
      NewLife([], step.id, 0, step.payload, step.qos, false, step.msgId, TaskOf(s, step.index));
    }
    hide After, Next, Sends, ReadyToSend, NewElement, WalkOut;
  }

  /** The bytes of a PUBLISH, with up to 128 bytes of data, tell a reader that follows the
      formats of MQTT-SN what the life says: quality of service, RETAIN, kind, topic id (for
      the short kind the name's two characters), message id and data. */
  lemma PublishIsRead(e: Element, l: Life, dup: bool)
    requires Tells(e, l) && Sendable(e) && |e.payload| <= 128 && (l.kind == 2 ==> |l.call.name| >= 2)
    ensures (e.flag % 4 == 2 ==> |e.topicName| >= 2) && e.flag < 128
    ensures F.Read(PublishBytes(e, dup))
            == Some(F.Publish(dup, l.call.qos, l.call.retain, l.kind,
                              if l.kind == 2 then l.call.name[..2] else [l.topicId / 256, l.topicId % 256],
                              e.msgId, l.call.payload))
  {
    var flags: int := e.flag + if dup then 128 else 0;
    var topic := if e.flag % 4 == 2 then e.topicName[..2] else Put16(e.topicId);
    var m := PublishBytes(e, dup);
    assert m == [|e.payload| + 7, 0x0C, flags] + topic + Put16(e.msgId) + e.payload;
    assert m[3..5] == topic && m[5..7] == Put16(e.msgId) && m[7..] == e.payload;
    assert m[5] == m[5..7][0] && m[6] == m[5..7][1];
    FlagsRead(e, dup);
  }

  lemma FlagsRead(e: Element, dup: bool)
    requires FlagsWhole(e) && Sendable(e)
    ensures var flags := e.flag as int + if dup then 128 else 0;
            (flags / 128 == 1 <==> dup) && flags / 32 % 4 == e.Qos() && flags % 4 == e.flag % 4
            && flags / 16 % 2 == e.flag as int / 16 % 2
  {
  }

  /** When a publish goes out, and what else does: a topic id that is known sends it at once,
      one that is not asks for the name; a publish by id always goes out; a REGACK sends the
      first publish that waits for its name, and nothing else. */
  lemma PublishSends(s: State, step: Step)
    requires Possible(s, step)
    ensures step.Publish? ==>
              if |step.topicName| > 2 && step.lookup != 0
              then |Outputs(s, step)| == 1 && Sends(Outputs(s, step), step.msgId)
              else Outputs(s, step) == [Registers(step.topicName)]
    ensures step.PublishById? ==> |Outputs(s, step)| == 1 && Sends(Outputs(s, step), step.msgId)
    ensures step.SendSuspend? ==>
              if exists k :: 0 <= k < |s.list| && WaitsFor(s.list[k], step.topicName)
              then exists k :: 0 <= k < |s.list| && WaitsFor(s.list[k], step.topicName)
                               && (forall m :: 0 <= m < k ==> !WaitsFor(s.list[m], step.topicName))
                               && |Outputs(s, step)| == 1 && Sends(Outputs(s, step), s.list[k].msgId)
              else Outputs(s, step) == []
  {
    if step.Publish? {
      NewLife(step.topicName, 0, step.lookup, step.payload, step.qos, step.retain, step.msgId, TaskOf(s, step.index));
    } else if step.PublishById? {
      NewLife([], step.id, 0, step.payload, step.qos, false, step.msgId, TaskOf(s, step.index));
    } else if step.SendSuspend? {
      FirstSuspendedFinds(s.list, step.topicName);
      FirstIsFirst(s.list, step.topicName);
      var i := FirstSuspended(s.list, step.topicName);
      if i.Some? {
        SendsOne(Outputs(s, step)[0], s.list[i.value].msgId);
        assert WaitsFor(s.list[i.value], step.topicName);
      }
    }
    if step.Publish? || step.PublishById? {
      SendsOne(Outputs(s, step)[0], step.msgId);
    }
    hide NewElement, FirstSuspended;
  }

  predicate WaitsFor(e: Element, topicName: Str) {
    e.topicName == topicName && e.status == Suspended
  }

  lemma {:induction false} FirstIsFirst(list: seq<Element>, topicName: Str)
    ensures var i := FirstSuspended(list, topicName);
            if i.Some? then forall m :: 0 <= m < i.value && m < |list| ==> !WaitsFor(list[m], topicName)
            else forall m :: 0 <= m < |list| ==> !WaitsFor(list[m], topicName)
  {
    if list != [] && !WaitsFor(list[0], topicName) {
      FirstIsFirst(list[1..], topicName);
      assert forall m :: 1 <= m < |list| ==> list[m] == list[1..][m - 1];
    }
  }

  /** More than ten seconds since the last message for it. */
  predicate Late(e: Element, now: nat) {
    e.sendUTC > 0 && e.sendUTC + 10 < now
  }

  /** Late, and all four copies used up. */
  predicate GivenUp(e: Element, now: nat) {
    Late(e, now) && e.retryCount < 0
  }

  /** A time-out sends a late publish again if and only if none up to it has been given up,
      and the first that has been reconnects, which ends the pass. */
  lemma {:induction false} TimeoutSendsExactly(s: State, i: nat, now: nat, k: nat)
    requires TasksThere(s) && AllSane(s.list) && UniqueIds(s.list) && i <= k < |s.list|
    ensures Sends(WalkOut(s, i, now), s.list[k].msgId)
            <==> Late(s.list[k], now) && forall m :: i <= m <= k ==> !GivenUp(s.list[m], now)
    ensures Reconnects(s.list[k].msgId) in WalkOut(s, i, now)
            <==> GivenUp(s.list[k], now) && forall m :: i <= m < k ==> !GivenUp(s.list[m], now)
    decreases |s.list| - i
  {
    var e, id := s.list[i], s.list[k].msgId;
    assert i != k ==> e.msgId != id;
    if !Expired(e, now) {
      if i < k {
        TimeoutSendsExactly(s, i + 1, now, k);
      } else {
        NothingBefore(s, i + 1, now, k);
      }
    } else if e.retryCount < 0 {
      SendsOne(Reconnects(e.msgId), id);
    } else {
      var t := SendPublish(s, i, now);
      SendKeepsTasks(s, i, now);
      SendIsSane(s, i, now);
      assert Sane(e);
      assert t.list == s.list[i := t.list[i]] && t.list[i].msgId == e.msgId;
      assert WalkOut(s, i, now) == [IsSent(e)] + WalkOut(t, i + 1, now);
      SendsMore(IsSent(e), WalkOut(t, i + 1, now), id);
      assert UniqueIds(t.list);
      hide WalkOut, SendPublish, Sends;
      if i < k {
        TimeoutSendsExactly(t, i + 1, now, k);
        assert forall m :: i < m <= k ==> t.list[m] == s.list[m];
      } else {
        NothingBefore(t, i + 1, now, k);
      }
    }
  }

  /** The walk does not go back. */
  lemma {:induction false} NothingBefore(s: State, i: nat, now: nat, k: nat)
    requires TasksThere(s) && AllSane(s.list) && UniqueIds(s.list) && k < i && k < |s.list|
    ensures !Sends(WalkOut(s, i, now), s.list[k].msgId) && Reconnects(s.list[k].msgId) !in WalkOut(s, i, now)
    decreases |s.list| - i
  {
    if i < |s.list| {
      var e, id := s.list[i], s.list[k].msgId;
      assert e.msgId != id;
      if !Expired(e, now) {
        NothingBefore(s, i + 1, now, k);
      } else if e.retryCount >= 0 {
        var t := SendPublish(s, i, now);
        SendKeepsTasks(s, i, now);
        SendIsSane(s, i, now);
        assert Sane(e);
        assert t.list == s.list[i := t.list[i]] && t.list[i].msgId == e.msgId;
        assert WalkOut(s, i, now) == [IsSent(e)] + WalkOut(t, i + 1, now);
        SendsMore(IsSent(e), WalkOut(t, i + 1, now), id);
        assert UniqueIds(t.list);
        hide WalkOut, SendPublish, Sends;
        NothingBefore(t, i + 1, now, k);
      }
    }
  }

  // ----- acknowledgements

  /** The publish with this id has got as far as the second half of quality of service 2,
      or is about to. */
  predicate Receivable(s: State, msgId: U16) {
    exists k :: 0 <= k < |s.list| && s.list[k].msgId == msgId
                && (s.list[k].status == WaitPubrec || s.list[k].status == WaitPubcomp)
  }

  /** What the client answers: to a PUBREC it sends exactly one PUBREL with its id if the
      publish awaits a PUBREC or a PUBCOMP, and nothing otherwise; to a PUBACK that refuses
      the topic id it asks to register exactly that publish's topic; to any other PUBACK and
      to a PUBCOMP nothing. */
  lemma AcknowledgementsAnswered(run: Run)
    requires run.Then? && Feasible(run) && FreshIds(run)
    ensures var s, step, outs := After(run.past), run.step, Outputs(After(run.past), run.step);
            && (step.PubRec? ==> outs == if Receivable(s, step.msgId) then [Released(step.msgId)] else [])
            && (step.PubAck? && step.rc != 2 ==> outs == [])
            && (step.PubAck? && step.rc == 2 ==>
                  if HasId(s.list, step.msgId)
                  then exists k :: 0 <= k < |s.list| && s.list[k].msgId == step.msgId
                                   && outs == [Registers(s.list[k].topicName)]
                  else outs == [])
            && (step.PubComp? ==> outs == [])
  {
    var s, step := After(run.past), run.step;
    IdsStayUnique(run.past);
    if step.PubAck? || step.PubRec? || step.PubComp? {
      ByIdFinds(s.list, step.msgId);
    }
    hide After, ById;
  }

  /** A PUBREL has gone out for this id since it was published. */
  predicate PubRelSince(run: Run, msgId: U16)
    requires Feasible(run)
  {
    run.Then?
    && (Released(msgId) in Outputs(After(run.past), run.step)
        || (!(Publishes(run.step) && run.step.msgId == msgId) && PubRelSince(run.past, msgId)))
  }

  lemma {:induction false} CompsFollowRels(run: Run, k: nat)
    requires Feasible(run) && FreshIds(run) && k < |After(run).list| && After(run).list[k].status == WaitPubcomp
    ensures PubRelSince(run, After(run).list[k].msgId)
  {
    var s, id := After(run.past), After(run).list[k].msgId;
    RunIsSane(run.past);
    IdsStayUnique(run.past);
    var j := WaitedBefore(s, run.step, k);
    if run.step.PubRec? && run.step.msgId == id {
      RecReleases(s, run.step, k);
    } else {
      CompsFollowRels(run.past, j);
      assert HasId(s.list, id);
    }
    hide Next, Outputs, AllSane, UniqueIds;
  }

  lemma RecReleases(s: State, step: Step, k: nat)
    requires Possible(s, step) && step.PubRec? && UniqueIds(s.list)
    requires k < |Next(s, step).list| && Next(s, step).list[k].msgId == step.msgId
    requires Next(s, step).list[k].status == WaitPubcomp
    ensures Released(step.msgId) in Outputs(s, step)
  {
    ByIdFinds(s.list, step.msgId);
  }

  /** A publish of quality of service 2 leaves the list only on its PUBCOMP, after a PUBREL
      that was sent for it since it was published. */
  lemma LeavesAfterPubRel(run: Run, k: nat)
    requires run.Then? && Feasible(run) && FreshIds(run) && k < |After(run.past).list|
    requires var e := After(run.past).list[k]; e.Qos() == 2 && !HasId(After(run).list, e.msgId)
    ensures var e := After(run.past).list[k]; run.step == PubComp(e.msgId) && PubRelSince(run.past, e.msgId)
  {
    LeavesOnlyWhenDone(run, k);
    CompsFollowRels(run.past, k);
    hide After;
  }
}
