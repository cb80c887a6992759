/** From the client's PUBLISH to the broker's: the bytes the client writes, what the
    gateway makes of them, and what a broker that follows section 3.3 of MQTT 3.1.1
    reads. */
module EndToEnd {
  import opened Bytes
  import opened Sequences
  import opened Wrappers
  import PM = PublishManager
  import PR = PublishRuns
  import PL = PublishLife
  import GC = GatewayControl
  import GM = GatewayMessages
  import CN = ClientNode
  import T = Topics
  import MP = MqttPublish
  import RL = RemainingLength

  const MQTTSN_TYPE_PUBLISH: Byte := 0x0C

  /** absorb() of a PUBLISH with a short header: length, type, flags, topic id,
      message id, data. */
  function Absorb(m: seq<Byte>): Option<GM.SnMessage> {
    if |m| < 7 || m[0] != |m| || m[1] != MQTTSN_TYPE_PUBLISH then None
    else Some(GM.SnPublish(m[2], Get16(m[3..]), Get16(m[5..]), m[7..]))
  }

  /** A PUBLISH as the standard reads it. */
  datatype View = View(topic: Str, qos: nat, dup: bool, retain: bool, messageId: Option<U16>, payload: seq<Byte>)

  /** A PUBLISH at the front of the broker's stream, and what is behind it. */
  function ReadPublish(stream: seq<Byte>): Option<(View, seq<Byte>)> {
    var h := RL.ReadFixedHeader(stream);
    if h.0 / 16 != 3 || h.1 > |h.3| || h.0 / 2 % 4 == 3 then None
    else
      var v := ReadBody(h.0 % 16, h.3[..h.1]);
      if v.None? then None else Some((v.value, h.3[h.1..]))
  }

  function ReadBody(flags: Byte, body: seq<Byte>): Option<View> {
    var t := ReadUtf(body);
    var dup, qos, retain := flags / 8 % 2 == 1, flags / 2 % 4, flags % 2 == 1;
    if |body| < 2 + |t.0| then None
    else if qos == 0 then Some(View(t.0, qos, dup, retain, None, t.1))
    else if |t.1| < 2 then None
    else Some(View(t.0, qos, dup, retain, Some(ReadWord(t.1).0), ReadWord(t.1).1))
  }

  function ViewOf(p: MP.Publish): View {
    View(p.topic, p.Qos(), p.IsDup(), p.IsRetain(), if p.Qos() == 0 then None else Some(p.messageId), p.payload)
  }

  lemma BodyIsRead(p: MP.Publish)
    requires p.Sendable()
    ensures ReadBody(p.flags, MP.Rest(p)) == Some(ViewOf(p))
  {
    if p.Qos() == 0 {
      WithNothing(Utf(p.topic));
      ReadUtfUtf(p.topic, p.payload);
    } else {
      Assoc(Utf(p.topic), Put16(p.messageId), p.payload);
      ReadUtfUtf(p.topic, Put16(p.messageId) + p.payload);
      ReadWordPut16(p.messageId, p.payload);
    }
    hide ReadUtf, ReadWord, Put16;
  }

  /** The standard's reader recovers every field of a packet that the gateway has
      serialised, and stops right behind it. */
  lemma SerializedIsRead(p: MP.Publish, after: seq<Byte>)
    requires p.Sendable() && p.Qos() <= 2
    ensures ReadPublish(MP.Serialize(p) + after) == Some((ViewOf(p), after))
  {
    MP.HeaderOfSerialized(p, after);
    BodyIsRead(p);
    var rest := MP.Rest(p);
    assert |rest| == p.Remaining();
    hide MP.Rest, MP.Serialize, RL.ReadFixedHeader, ReadBody, ViewOf;
    assert (rest + after)[..|rest|] == rest;
    assert (rest + after)[|rest|..] == after;
  }

  /** An element that the client sends under a topic id that names a topic. */
  predicate Normal(e: PM.Element) {
    PM.Sendable(e) && |e.payload| <= 128 && e.flag % 4 == 0
  }

  lemma ClientBytes(e: PM.Element, dup: bool)
    requires Normal(e)
    ensures var flags := e.flag + if dup then 128 else 0;
            Absorb(PM.PublishBytes(e, dup)) == Some(GM.SnPublish(flags, e.topicId, e.msgId, e.payload))
  {
    var flags := e.flag + if dup then 128 else 0;
    var m := PM.PublishBytes(e, dup);
    var head: seq<Byte> := [|e.payload| + 7, MQTTSN_TYPE_PUBLISH, flags];
    var ids := Put16(e.topicId) + Put16(e.msgId);
    assert m == head + Put16(e.topicId) + Put16(e.msgId) + e.payload;
    assert m[3..] == Put16(e.topicId) + (Put16(e.msgId) + e.payload);
    assert m[5..] == Put16(e.msgId) + e.payload;
    assert m[7..] == e.payload;
    Get16Put16(e.topicId, Put16(e.msgId) + e.payload);
    Get16Put16(e.msgId, e.payload);
  }

  /** Where the gateway's PUBLISH gets its flags. */
  lemma Translated(e: PM.Element, dup: bool, name: Str)
    requires Normal(e)
    ensures var p := GC.Translate(e.flag + if dup then 128 else 0, e.msgId, e.payload, name);
            p.topic == name && p.payload == e.payload && p.messageId == e.msgId && p.flags < 16
            && p.Qos() == e.Qos() && p.IsDup() == dup && p.IsRetain() == (e.flag / 16 % 2 == 1)
  {
  }

  /** What the client means by sending an element. */
  function Meant(e: PM.Element, dup: bool, name: Str): View {
    View(name, e.Qos(), dup, e.flag / 16 % 2 == 1, if e.Qos() == 0 then None else Some(e.msgId), e.payload)
  }

  /** The name behind a topic id, in a session of at most 65280 names. */
  lemma NameFound(r: T.Registry, name: Str)
    requires T.WellFormed(r) && |r.list| <= T.CYCLE && T.IdOf(r, name) != 0
    ensures var tp := T.ById(r.list, T.IdOf(r, name), T.MQTTSN_TOPIC_TYPE_NORMAL); tp.Some? && tp.value.name == name
  {
    T.ByNameFinds(r.list, name);
    T.BijectionExactly(r);
    var tp := T.ByName(r.list, name).value;
    var k :| 0 <= k < |r.list| && r.list[k] == tp;
    assert T.ById(r.list, r.list[k].id, T.MQTTSN_TOPIC_TYPE_NORMAL) == Some(tp);
  }

  /** Whatever the client publishes with at most 128 bytes on a topic it has registered:
      the bytes it sends, absorbed, translated and serialised by the gateway, are
      read by the broker as a PUBLISH with the topic's name and with the client's
      quality of service, DUP, RETAIN, payload and, above quality of service 0,
      message id. Nothing goes back to the client. */
  lemma PublishReachesBroker(cfg: GC.Config, n: CN.Node, e: PM.Element, dup: bool, name: Str, after: seq<Byte>)
    requires Normal(e)
    requires T.WellFormed(n.topics) && |n.topics.list| <= T.CYCLE
    requires e.topicId == T.IdOf(n.topics, name) && e.topicId != 0
    requires |name| + 4 + |e.payload| < 0x1_0000
    ensures var m := Absorb(PM.PublishBytes(e, dup));
            m.Some? && m.value.SnPublish?
            && (var o := GC.HandleSnPublish(cfg, n, m.value.flags, m.value.topicId, m.value.msgId, m.value.data);
                o.toClient == [] && |o.toBroker| == 1 && o.toBroker[0].Publish?
                && ReadPublish(MP.Serialize(o.toBroker[0].publish) + after)
                   == Some((Meant(e, dup, name), after)))
  {
    var flags := e.flag + if dup then 128 else 0;
    var p := GC.Translate(flags, e.msgId, e.payload, name);
    ClientBytes(e, dup);
    Translated(e, dup, name);
    NameFound(n.topics, name);
    assert flags % 4 == T.MQTTSN_TOPIC_TYPE_NORMAL;
    SerializedIsRead(p, after);
    hide Absorb, ReadPublish, MP.Serialize, GC.Translate, T.ById, T.IdOf, PM.PublishBytes;
  }

  /** And every PUBLISH of the client, in every run, is one of these, or goes out under
      another kind of topic id or with a longer payload: its flags are sound, and DUP
      says whether it is a copy. */
  lemma SentElementsAreNormal(run: PR.Run, j: nat)
    requires run.Then? && PR.Feasible(run) && PR.FreshIds(run)
    requires j < |PM.Outputs(PR.After(run.past), run.step)| && PM.Outputs(PR.After(run.past), run.step)[j].Sent?
    ensures var out := PM.Outputs(PR.After(run.past), run.step)[j];
            (out.element.flag % 4 == 0 && |out.element.payload| <= 128 ==> Normal(out.element))
            && (out.dup <==> PR.CopiesBefore(run.past, run.step, out.element.msgId) > 0)
  {
    var s := PR.After(run.past);
    PR.RunIsSane(run.past);
    PR.DupMarksCopies(run, j);
    match run.step {
      case CheckTimeout(now) => PR.WalkSendsElements(s, 0, now, j); WalkSendsSendable(s, 0, now, j);
      case SendSuspend(name, topicId, topicType, _) =>
        PM.FirstSuspendedFinds(s.list, name);
        PM.ReadyIsSendable(s.list[PM.FirstSuspended(s.list, name).value], topicId, topicType);
      case Publish(name, lookup, payload, qos, retain, msgId, index, _) =>
        PM.NewIsSendable(name, 0, lookup, payload, qos, retain, msgId, PM.TaskOf(s, index));
      case PublishById(id, payload, qos, msgId, index, _) =>
        PM.NewIsSendable([], id, 0, payload, qos, false, msgId, PM.TaskOf(s, index));
      case _ =>
    }
  }

  /** What the walk of checkTimeout sends can be sent. */
  lemma {:induction false} WalkSendsSendable(s: PM.State, i: nat, now: nat, j: nat)
    requires PM.TasksThere(s) && PM.AllSane(s.list) && j < |PM.WalkOut(s, i, now)| && PM.WalkOut(s, i, now)[j].Sent?
    ensures PM.Sendable(PM.WalkOut(s, i, now)[j].element)
    decreases |s.list| - i
  {
    var e := s.list[i];
    if !PM.Expired(e, now) {
      WalkSendsSendable(s, i + 1, now, j);
    } else if e.retryCount >= 0 {
      assert PM.Sane(e);
      if j > 0 {
        PM.SendKeepsTasks(s, i, now);
        PM.SendIsSane(s, i, now);
        WalkSendsSendable(PM.SendPublish(s, i, now), i + 1, now, j - 1);
      }
    }
  }

  /** From the application to the broker: in every run of the client with fresh ids, each
      PUBLISH that goes out under the normal topic id that the gateway has for the name, with
      at most 128 bytes, reaches the broker as the application's last publish with that id:
      name, payload, quality of service, RETAIN, and DUP if and only if it is a copy. */
  lemma CallReachesBroker(run: PR.Run, j: nat, cfg: GC.Config, n: CN.Node, after: seq<Byte>)
    requires run.Then? && PR.Feasible(run) && PR.FreshIds(run)
    requires j < |PM.Outputs(PR.After(run.past), run.step)| && PM.Outputs(PR.After(run.past), run.step)[j].Sent?
    requires T.WellFormed(n.topics) && |n.topics.list| <= T.CYCLE
    requires var l := PL.LifeOf(run, PM.Outputs(PR.After(run.past), run.step)[j].element.msgId);
             l.Some? && l.value.kind == 0 && |l.value.call.payload| <= 128
             && l.value.topicId != 0 && l.value.topicId == T.IdOf(n.topics, l.value.call.name)
             && |l.value.call.name| + 132 < 0x1_0000
    ensures Normal(PM.Outputs(PR.After(run.past), run.step)[j].element)
    ensures var out := PM.Outputs(PR.After(run.past), run.step)[j];
            var id := out.element.msgId;
            var call, copy := PL.LifeOf(run, id).value.call, PR.CopiesBefore(run.past, run.step, id) > 0;
            var m := Absorb(PM.PublishBytes(out.element, out.dup));
            m.Some? && m.value.SnPublish?
            && (var o := GC.HandleSnPublish(cfg, n, m.value.flags, m.value.topicId, m.value.msgId, m.value.data);
                o.toClient == [] && |o.toBroker| == 1 && o.toBroker[0].Publish?
                && ReadPublish(MP.Serialize(o.toBroker[0].publish) + after)
                   == Some((View(call.name, call.qos, copy, call.retain, if call.qos == 0 then None else Some(id),
                                 call.payload), after)))
  {
    var out := PM.Outputs(PR.After(run.past), run.step)[j];
    hide *;
    PL.SentAsCalled(run, j);
    SentElementsAreNormal(run, j);
    AsCalled(out.element, PL.LifeOf(run, out.element.msgId).value, out.dup);
    PublishReachesBroker(cfg, n, out.element, out.dup, PL.LifeOf(run, out.element.msgId).value.call.name, after);
  }

  lemma AsCalled(e: PM.Element, l: PL.Life, dup: bool)
    requires PL.Tells(e, l)
    ensures e.payload == l.call.payload && e.topicId == l.topicId && e.flag % 4 == l.kind
    ensures Meant(e, dup, l.call.name)
            == View(l.call.name, l.call.qos, dup, l.call.retain, if l.call.qos == 0 then None else Some(e.msgId),
                    l.call.payload)
  {
  }
}
