/** The topics of a client and the acknowledgements it awaits, over every run. */
module TopicRuns {
  import opened Bytes
  import opened ClientNode
  import opened GatewayControl
  import opened GatewayMessages
  import opened GatewayRuns
  import opened Wrappers
  import MC = MqttConnect
  import MP = MqttPublish
  import T = Topics
  import M = TopicIdMap

  // ----- topics

  /** What a message of the client or the broker can do to the registry: start it
      afresh, which only an accepted CONNECT with a clean session does, or register
      one name. */
  ghost predicate TopicsStep(r: T.Registry, r': T.Registry, clean: bool) {
    if clean then r' == T.NO_TOPICS else r' == r || exists name :: r' == T.Register(r, name)
  }

  predicate StartsAfresh(s: State, step: Step) {
    step.Handled? && step.sn.SnConnect? && s.node.ConnectSendable() && step.sn.clean
  }

  lemma StepOnTopics(cfg: Config, s: State, step: Step)
    ensures TopicsStep(s.node.topics, Effect(cfg, s, step).node.topics, StartsAfresh(s, step))
  {
    hide T.Register, T.ById, T.IdOf, M.Add, M.Erase, M.Lookup, NewConnect, Translate, SnFlags, Put32, MC.NEW_CONNECT;
    if step.Handled? {
      TopicsHandled(cfg, s, step.sn);
      hide HandleClient;
    }
  }

  /** Most messages leave the registry, or the ids, alone. */
  lemma TablesKept(cfg: Config, protocol: Byte, n: Node, m: SnMessage, now: int)
    requires !m.SnConnect? && !m.SnSubscribe?
    ensures var n' := Handle(cfg, protocol, n, m, now).node;
            (!m.SnRegister? ==> n'.topics == n.topics)
            && (!m.SnPublish? ==> n'.pubIds == n.pubIds && n'.subIds == n.subIds)
  {
    hide T.Register, T.ById, T.IdOf, M.Add, NewConnect, Translate, Put32;
  }

  lemma TopicsHandled(cfg: Config, s: State, m: SnMessage)
    ensures var o := HandleClient(cfg, s.protocol, s.node, m, s.now);
            TopicsStep(s.node.topics, o.node.topics, StartsAfresh(s, Handled(m)))
  {
    var n := s.node.UpdateStatus(m, s.now);
    UpdateKeepsTables(s.node, m, s.now);
    hide Node.UpdateStatus, T.Register, T.ById, T.IdOf, M.Add, NewConnect, Translate, Put32;
    if m.SnConnect? {
      ConnectTopics(cfg, s.protocol, n, m.clean, m.will, m.duration, m.clientId);
      hide HandleSnConnect;
    } else if m.SnSubscribe? {
      SubscribeTopics(cfg, n, m.flags, m.msgId, m.name, m.topicId, s.now);
      hide HandleSnSubscribe;
    } else if !m.SnRegister? {
      TablesKept(cfg, s.protocol, n, m, s.now);
      hide Handle;
    }
  }

  lemma UpdateKeepsTables(n: Node, m: SnMessage, now: int)
    ensures var n' := n.UpdateStatus(m, now);
            n'.topics == n.topics && n'.pubIds == n.pubIds && n'.subIds == n.subIds
            && (m.SnConnect? ==> n'.ConnectSendable() == n.ConnectSendable())
  {
  }

  lemma ConnectTopics(cfg: Config, protocol: Byte, n: Node, clean: bool, will: bool, duration: U16, id: Str)
    ensures var n' := HandleSnConnect(cfg, protocol, n, clean, will, duration, id).node;
            n'.topics == if n.ConnectSendable() && clean then T.NO_TOPICS else n.topics
  {
    hide NewConnect;
  }

  lemma SubscribeTopics(cfg: Config, n: Node, flags: Byte, msgId: U16, name: Str, topicId: U16, now: int)
    ensures var n' := HandleSnSubscribe(cfg, n, flags, msgId, name, topicId, now).node;
            n'.topics == n.topics || n'.topics == T.Register(n.topics, name)
  {
    hide T.Register, T.IdOf, M.Add, Put32;
  }

  /** In every run the registry is well formed, and a step keeps every topic that is
      registered unless it starts a clean session. */
  lemma {:induction false} TopicsWellFormed(cfg: Config, run: Run)
    ensures T.WellFormed(After(cfg, run).node.topics)
    ensures run.Then? && !StartsAfresh(After(cfg, run.past), run.step) ==>
              After(cfg, run.past).node.topics.list <= After(cfg, run).node.topics.list
  {
    if run.Start? {
    } else {
      var s := After(cfg, run.past);
      TopicsWellFormed(cfg, run.past);
      StepOnTopics(cfg, s, run.step);
      var r' := After(cfg, run).node.topics;
      hide Effect;
      if !StartsAfresh(s, run.step) && r' != s.node.topics {
        var name :| r' == T.Register(s.node.topics, name);
        T.RegisterKeeps(s.node.topics, name);
      }
    }
  }

  /** A PUBLISH of the broker (its name not of two characters) for an Active client goes
      out under the id that the registry then has for its name, with its message id,
      payload, and quality of service. If the client did not know the name, the next
      id is taken, and a REGISTER of the name goes out just before. DUP stands for
      DUP or RETAIN; RETAIN itself is not passed on. */
  lemma PublishedUnderItsTopic(cfg: Config, run: Run, p: MP.Publish, raw: U16)
    requires |p.topic| != 2 && p.Qos() <= 2 && After(cfg, run).node.status == Active
    ensures var r := After(cfg, run).node.topics;
            var o := Last(cfg, Then(run, FromBroker(BrokerPublish(p, raw))));
            var id := T.IdOf(o.node.topics, p.topic);
            var known := T.IdOf(r, p.topic) != 0;
            id >= 256 && (if known then id == T.IdOf(r, p.topic) && o.node.topics == r else id == T.IdAt(|r.list|))
            && o.toClient == (if known then [] else [Register(id, p.topic)])
                             + [ClientPublish(SnFlags(p, false), id, p.messageId, p.payload)]
    ensures SnFlags(p, false) as int / 32 % 4 == p.Qos() && SnFlags(p, false) as int / 16 % 2 == 0
            && SnFlags(p, false) % 4 == 0
            && (SnFlags(p, false) >= 128 <==> p.IsDup() || p.IsRetain())
  {
    TopicsWellFormed(cfg, run);
    PublishOut(After(cfg, run).node, p, raw);
    FlagsOut(p);
    hide After, T.IdOf, SnFlags, HandlePublish, MP.Publish.Qos, MP.Publish.IsDup, MP.Publish.IsRetain,
          T.WellFormed, T.IdAt;
  }

  lemma PublishOut(n: Node, p: MP.Publish, raw: U16)
    requires |p.topic| != 2 && n.status == Active && T.WellFormed(n.topics)
    ensures var o := HandlePublish(n, p, raw);
            var id := T.IdOf(o.node.topics, p.topic);
            var known := T.IdOf(n.topics, p.topic) != 0;
            id >= 256
            && (if known then id == T.IdOf(n.topics, p.topic) && o.node.topics == n.topics
                else id == T.IdAt(|n.topics.list|))
            && o.toClient == (if known then [] else [Register(id, p.topic)])
                             + [ClientPublish(SnFlags(p, false), id, p.messageId, p.payload)]
  {
    T.RegisterKeeps(n.topics, p.topic);
    hide T.Register, T.IdOf, SnFlags, T.WellFormed, T.IdAt;
  }

  lemma FlagsOut(p: MP.Publish)
    requires p.Qos() <= 2
    ensures SnFlags(p, false) as int / 32 % 4 == p.Qos() && SnFlags(p, false) as int / 16 % 2 == 0
            && SnFlags(p, false) % 4 == 0
            && (SnFlags(p, false) >= 128 <==> p.IsDup() || p.IsRetain())
  {
    hide MP.Publish.Qos, MP.Publish.IsDup, MP.Publish.IsRetain;
  }

  /** Only kinds of topic that a registry holds are found in it. */
  lemma NothingUnderZero(r: T.Registry, id: U16, kind: Byte)
    requires T.WellFormed(r) && (id == 0 || kind != T.MQTTSN_TOPIC_TYPE_NORMAL)
    ensures T.ById(r.list, id, kind).None?
  {
    T.ByIdFinds(r.list, id, kind);
  }

  /** An UNSUBSCRIBE carries its topic's name to the broker exactly if it names a short
      topic, or nothing. */
  lemma UnsubscribeNamesTopicExactly(cfg: Config, run: Run, flags: Byte, msgId: U16, name: Str, topicId: U16)
    requires flags % 4 != 3
    ensures var o := Last(cfg, Then(run, Handled(SnUnsubscribe(flags, msgId, name, topicId))));
            |o.toBroker| == 1 && o.toBroker[0].Unsubscribe? && o.toBroker[0].msgId == msgId && o.toClient == []
            && (o.toBroker[0].name == name <==> flags % 4 == 2 || name == [])
  {
    var s := After(cfg, run);
    var m := SnUnsubscribe(flags, msgId, name, topicId);
    TopicsWellFormed(cfg, run);
    assert s.node.UpdateStatus(m, s.now).topics == s.node.topics;
    NothingUnderZero(s.node.topics, if flags % 4 == 1 then topicId else 0, flags % 4);
    hide After, T.ById, Node.UpdateStatus;
  }

  // ----- correlation of acknowledgements

  /** Which of the two kinds of acknowledgement: PUBACK or SUBACK. */
  datatype Ack = ForPublish | ForSubscribe

  function Ids(n: Node, a: Ack): seq<M.Entry> {
    if a.ForPublish? then n.pubIds else n.subIds
  }

  /** The entry that a message of the client asks to be stored. */
  function Stores(s: State, step: Step, a: Ack): Option<M.Entry> {
    if !step.Handled? then None
    else match step.sn
      case SnPublish(flags, topicId, msgId, _) =>
        if a.ForPublish? && msgId != 0 && T.ById(s.node.topics.list, topicId,
              flags % 4).Some? then Some(M.Entry(msgId, topicId)) else None
      case SnSubscribe(flags, msgId, name, _) =>
        if a.ForSubscribe? && msgId != 0 && flags % 2 == 0
        then Some(M.Entry(msgId, T.IdOf(T.Register(s.node.topics, name), name))) else None
      case _ => None
  }

  /** A CONNECT that can be sent on forgets what awaits an acknowledgement. */
  predicate Forgets(s: State, step: Step) {
    step.Handled? && step.sn.SnConnect? && s.node.ConnectSendable()
  }

  /** The acknowledgement of the broker, by message id. */
  function AcksId(step: Step, a: Ack): Option<U16> {
    if !step.FromBroker? then None
    else if a.ForPublish? && step.mq.BrokerAcked? && step.mq.kind.PubAck? then Some(step.mq.msgId)
    else if a.ForSubscribe? && step.mq.BrokerSubAck? then Some(step.mq.msgId)
    else None
  }

  /** The client has sent a message with this id and topic id, and since then it has
      not connected anew and the broker has not acknowledged the message id. */
  predicate Waiting(cfg: Config, run: Run, a: Ack, e: M.Entry) {
    run.Then? &&
    (var s := After(cfg, run.past);
     if Stores(s, run.step, a) == Some(e) then true
     else !Forgets(s, run.step) && AcksId(run.step, a) != Some(e.msgId) && Waiting(cfg, run.past, a, e))
  }

  /** One step on the ids. */
  lemma StepOnIds(cfg: Config, s: State, step: Step, a: Ack)
    ensures var before, n := Ids(s.node, a), Ids(Effect(cfg, s, step).node, a);
            if Forgets(s, step) then n == []
            else if Stores(s, step, a).Some? then
              n == M.Add(before, cfg.maxInflight, Stores(s, step, a).value.msgId, Stores(s, step, a).value.topicId)
            else if AcksId(step, a).Some? && M.Lookup(before, AcksId(step, a).value) != 0 then
              n == M.Erase(before, AcksId(step, a).value)
            else n == before
  {
    hide T.Register, T.ById, T.IdOf, M.Add, M.Erase, M.Lookup, NewConnect, Translate, SnFlags, Put32;
    if step.Handled? {
      IdsHandled(cfg, s, step.sn, a);
      hide HandleClient;
    }
  }

  lemma SubscribeIds(cfg: Config, n: Node, flags: Byte, msgId: U16, name: Str, topicId: U16, now: int)
    ensures var n' := HandleSnSubscribe(cfg, n, flags, msgId, name, topicId, now).node;
            var id := T.IdOf(T.Register(n.topics, name), name);
            n'.pubIds == n.pubIds
            && n'.subIds == if flags % 2 == 0 && msgId != 0 then M.Add(n.subIds, cfg.maxInflight, msgId, id)
                            else n.subIds
  {
    hide T.Register, T.IdOf, M.Add, Put32;
  }

  lemma IdsHandled(cfg: Config, s: State, m: SnMessage, a: Ack)
    ensures var before, n := Ids(s.node, a), Ids(HandleClient(cfg, s.protocol, s.node, m, s.now).node, a);
            var e := Stores(s, Handled(m), a);
            if Forgets(s, Handled(m)) then n == []
            else if e.Some? then n == M.Add(before, cfg.maxInflight, e.value.msgId, e.value.topicId)
            else n == before
  {
    var n := s.node.UpdateStatus(m, s.now);
    UpdateKeepsTables(s.node, m, s.now);
    hide Node.UpdateStatus, T.Register, T.ById, T.IdOf, M.Add, NewConnect, Translate, Put32;
    if m.SnSubscribe? {
      SubscribeIds(cfg, n, m.flags, m.msgId, m.name, m.topicId, s.now);
      hide HandleSnSubscribe;
    } else if m.SnConnect? {
      ConnectIds(cfg, s.protocol, n, m.clean, m.will, m.duration, m.clientId);
      hide HandleSnConnect;
    } else if m.SnPublish? {
      PublishIds(cfg, n, m.flags, m.topicId, m.msgId, m.data);
      hide HandleSnPublish;
    } else {
      TablesKept(cfg, s.protocol, n, m, s.now);
      hide Handle;
    }
  }

  lemma ConnectIds(cfg: Config, protocol: Byte, n: Node, clean: bool, will: bool, duration: U16, id: Str)
    ensures var n' := HandleSnConnect(cfg, protocol, n, clean, will, duration, id).node;
            if n.ConnectSendable() then n'.pubIds == n'.subIds == [] else n'.pubIds == n.pubIds && n'.subIds == n.subIds
  {
    hide NewConnect;
  }

  lemma PublishIds(cfg: Config, n: Node, flags: Byte, topicId: U16, msgId: U16, data: seq<Byte>)
    ensures var n' := HandleSnPublish(cfg, n, flags, topicId, msgId, data).node;
            n'.subIds == n.subIds
            && n'.pubIds == if msgId != 0 && T.ById(n.topics.list, topicId, flags % 4).Some?
                            then M.Add(n.pubIds, cfg.maxInflight, msgId, topicId) else n.pubIds
  {
    hide M.Add, Translate;
  }

  /** In every run both maps stay within their limit, and each entry is one that the
      client still waits for. */
  ghost predicate IdsAreWaiting(cfg: Config, run: Run, a: Ack) {
    var ids := Ids(After(cfg, run).node, a);
    M.Sorted(ids) && |ids| <= cfg.maxInflight
    && forall e :: e in ids ==> e.topicId >= 256 && Waiting(cfg, run, a, e)
  }

  lemma StoredIdsAreTopics(cfg: Config, run: Run, step: Step, a: Ack)
    ensures var e := Stores(After(cfg, run), step, a); e.Some? ==> e.value.topicId >= 256
  {
    var r := After(cfg, run).node.topics;
    TopicsWellFormed(cfg, run);
    if step.Handled? && step.sn.SnPublish? {
      T.ByIdFinds(r.list, step.sn.topicId, step.sn.flags % 4);
    } else if step.Handled? && step.sn.SnSubscribe? {
      T.RegisterKeeps(r, step.sn.name);
    }
    hide After, T.Register, T.IdOf, T.ById;
  }

  lemma {:induction false} IdsInvariant(cfg: Config, run: Run, a: Ack)
    requires cfg.maxInflight >= 1
    ensures IdsAreWaiting(cfg, run, a)
  {
    if run.Start? {
    } else {
      var s := After(cfg, run.past);
      IdsInvariant(cfg, run.past, a);
      StepOnIds(cfg, s, run.step, a);
      StoredIdsAreTopics(cfg, run.past, run.step, a);
      IdsStep(cfg, run, a);
    }
  }

  lemma WaitsOn(cfg: Config, run: Run, a: Ack, e: M.Entry)
    requires run.Then? && Waiting(cfg, run.past, a, e)
    requires !Forgets(After(cfg, run.past), run.step) && AcksId(run.step, a) != Some(e.msgId)
    ensures Waiting(cfg, run, a, e)
  {
  }

  lemma IdsStep(cfg: Config, run: Run, a: Ack)
    requires cfg.maxInflight >= 1 && run.Then? && IdsAreWaiting(cfg, run.past, a)
    ensures IdsAreWaiting(cfg, run, a)
  {
    var s := After(cfg, run.past);
    var before, ids := Ids(s.node, a), Ids(After(cfg, run).node, a);
    StepOnIds(cfg, s, run.step, a);
    StoredIdsAreTopics(cfg, run.past, run.step, a);
    hide Next, Effect, M.Add, M.Erase, M.Lookup;
    var stored, acked := Stores(s, run.step, a), AcksId(run.step, a);
    if Forgets(s, run.step) {
    } else if stored.Some? {
      M.AddKeeps(before, cfg.maxInflight, stored.value.msgId, stored.value.topicId);
      forall e | e in ids ensures e.topicId >= 256 && Waiting(cfg, run, a, e) {
        if e in before {
          WaitsOn(cfg, run, a, e);
        }
      }
    } else {
      if acked.Some? {
        M.EraseKeeps(before, acked.value);
      }
      forall e | e in ids ensures e.topicId >= 256 && Waiting(cfg, run, a, e) {
        if acked == Some(e.msgId) {
          M.LookupIsEntry(before, e.msgId, e.topicId);
        }
        WaitsOn(cfg, run, a, e);
      }
    }
  }

  /** The topic id of an acknowledgement that goes to the client. */
  function AckTopic(m: ToClient, a: Ack): Option<M.Entry> {
    if a.ForPublish? && m.ClientPubAck? then Some(M.Entry(m.msgId, m.topicId))
    else if a.ForSubscribe? && m.SubAck? then Some(M.Entry(m.msgId, m.topicId))
    else None
  }

  /** Every PUBACK and SUBACK of the broker that is passed on carries the topic id
      that the client itself sent under that message id and still waits for; after
      that the client waits for it no longer. */
  lemma AcksAreCorrelated(cfg: Config, run: Run, a: Ack, i: nat)
    requires cfg.maxInflight >= 1 && run.Then? && AcksId(run.step, a).Some?
    requires i < |Last(cfg, run).toClient|
    ensures var e := AckTopic(Last(cfg, run).toClient[i], a);
            i == 0 && e.Some? && Some(e.value.msgId) == AcksId(run.step, a)
            && Waiting(cfg, run.past, a, e.value) && !Waiting(cfg, run, a, e.value)
  {
    IdsInvariant(cfg, run.past, a);
    var before := Ids(After(cfg, run.past).node, a);
    var id := AcksId(run.step, a).value;
    var topicId := M.Lookup(before, id);
    assert topicId != 0 && i == 0 && AckTopic(Last(cfg, run).toClient[i], a) == Some(M.Entry(id, topicId));
    M.LookupIsEntry(before, id, topicId);
    hide M.Lookup, Effect;
  }

  /** A SUBACK of the broker for a subscription that is waiting reaches the client with the
      quality of service granted if and only if that is 0 or 1. */
  lemma GrantedQosExactly(cfg: Config, run: Run, msgId: U16, granted: Byte)
    requires granted <= 2 && M.Lookup(After(cfg, run).node.subIds, msgId) != 0
    ensures var out := Last(cfg, Then(run, FromBroker(BrokerSubAck(msgId, granted)))).toClient;
            |out| == 1 && out[0].SubAck? && out[0].msgId == msgId && out[0].returnCode == MQTTSN_RC_ACCEPTED
            && (out[0].qos == granted <==> granted <= 1)
  {
    hide After, M.Lookup, M.Erase;
  }

  /** The client's messages stored under a message id, and the broker's answers passed on. */
  function StoredFor(cfg: Config, run: Run, a: Ack, id: U16): nat {
    if run.Start? then 0
    else
      var e := Stores(After(cfg, run.past), run.step, a);
      StoredFor(cfg, run.past, a, id) + if e.Some? && e.value.msgId == id then 1 else 0
  }

  function AnsweredFor(cfg: Config, run: Run, a: Ack, id: U16): nat {
    if run.Start? then 0
    else
      AnsweredFor(cfg, run.past, a, id)
      + if AcksId(run.step, a) == Some(id) && Last(cfg, run).toClient != [] then 1 else 0
  }

  function Waits(ids: seq<M.Entry>, id: U16): nat {
    if M.Has(ids, id) then 1 else 0
  }

  /** No message is answered twice: under each id, the answers passed on and the
      entry still stored never outnumber what the client sent. */
  lemma {:induction false} AnsweredAtMostOnce(cfg: Config, run: Run, a: Ack, id: U16)
    requires cfg.maxInflight >= 1
    ensures AnsweredFor(cfg, run, a, id) + Waits(Ids(After(cfg, run).node, a), id) <= StoredFor(cfg, run, a, id)
  {
    if run.Start? {
    } else {
      AnsweredAtMostOnce(cfg, run.past, a, id);
      IdsInvariant(cfg, run.past, a);
      AnswerStep(cfg, run, a, id);
    }
  }

  lemma AnswerStep(cfg: Config, run: Run, a: Ack, id: U16)
    requires cfg.maxInflight >= 1 && run.Then? && IdsAreWaiting(cfg, run.past, a)
    ensures var e := Stores(After(cfg, run.past), run.step, a);
            (if AcksId(run.step, a) == Some(id) && Last(cfg, run).toClient != [] then 1 else 0)
            + Waits(Ids(After(cfg, run).node, a), id)
            <= Waits(Ids(After(cfg, run.past).node, a), id) + if e.Some? && e.value.msgId == id then 1 else 0
  {
    var s := After(cfg, run.past);
    var before, ids := Ids(s.node, a), Ids(After(cfg, run).node, a);
    StepOnIds(cfg, s, run.step, a);
    if AcksId(run.step, a).Some? && Last(cfg, run).toClient != [] {
      AnswerNeedsEntry(cfg, s, run.step, a);
    }
    hide Next, Effect, M.Add, M.Erase, M.Lookup;
    var stored, acked := Stores(s, run.step, a), AcksId(run.step, a);
    if stored.Some? {
      AddedWaits(before, cfg.maxInflight, stored.value, id);
    } else if acked.Some? && M.Lookup(before, acked.value) != 0 {
      ErasedWaits(before, acked.value, id);
    }
  }

  lemma AddedWaits(before: seq<M.Entry>, max: nat, e: M.Entry, id: U16)
    requires M.Sorted(before) && |before| <= max && max >= 1
    ensures Waits(M.Add(before, max, e.msgId, e.topicId), id) <= Waits(before, id) + if e.msgId == id then 1 else 0
  {
    var ids := M.Add(before, max, e.msgId, e.topicId);
    M.AddKeeps(before, max, e.msgId, e.topicId);
    hide M.Add;
    if M.Has(ids, id) {
      var k :| 0 <= k < |ids| && ids[k].msgId == id;
      assert ids[k] in ids;
    }
  }

  lemma ErasedWaits(before: seq<M.Entry>, acked: U16, id: U16)
    requires M.Sorted(before) && M.Lookup(before, acked) != 0
    ensures Waits(M.Erase(before, acked), id) + (if acked == id then 1 else 0) <= Waits(before, id)
  {
    var ids := M.Erase(before, acked);
    M.EraseKeeps(before, acked);
    M.LookupIsEntry(before, acked, M.Lookup(before, acked));
    hide M.Erase, M.Lookup;
    if M.Has(ids, id) {
      var k :| 0 <= k < |ids| && ids[k].msgId == id;
      assert ids[k] in ids;
    }
  }

  lemma AnswerNeedsEntry(cfg: Config, s: State, step: Step, a: Ack)
    requires AcksId(step, a).Some? && Effect(cfg, s, step).toClient != []
    ensures M.Lookup(Ids(s.node, a), AcksId(step, a).value) != 0
  {
  }
}
