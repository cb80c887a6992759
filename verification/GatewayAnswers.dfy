/** What the gateway sends for each message, in every run: which messages go on to the
    broker and to the client, with their fields and codes. */
module GatewayAnswers {
  import opened Bytes
  import opened ClientNode
  import opened GatewayControl
  import opened GatewayMessages
  import opened GatewayRuns
  import opened Wrappers
  import T = Topics
  import M = TopicIdMap
  import MP = MqttPublish
  import TR = TopicRuns

  function HandledNext(cfg: Config, run: Run, m: SnMessage): Outcome {
    Last(cfg, Then(run, Handled(m)))
  }

  function BrokerNext(cfg: Config, run: Run, b: FromBroker): Outcome {
    Last(cfg, Then(run, FromBroker(b)))
  }

  function NodeAfter(cfg: Config, run: Run): Node {
    After(cfg, run).node
  }

  // ----- SUBSCRIBE, UNSUBSCRIBE, REGISTER

  /** A SUBSCRIBE for a name, long or short, reaches the broker with its message id, name,
      quality of service, DUP and RETAIN, and nothing goes back yet. The name has a topic id
      from then on. */
  lemma SubscribeForwarded(cfg: Config, run: Run, flags: Byte, msgId: U16, name: Str, topicId: U16)
    requires flags % 4 == 0 || flags % 4 == 2
    ensures var o := HandledNext(cfg, run, SnSubscribe(flags, msgId, name, topicId));
            o.toClient == [] && |o.toBroker| == 1 && o.toBroker[0].Subscribe?
            && o.toBroker[0].msgId == msgId && o.toBroker[0].name == name
            && o.toBroker[0].qos as int == flags as int / 32 % 4
            && (o.toBroker[0].dup <==> flags >= 128) && (o.toBroker[0].retain <==> flags as int / 16 % 2 == 1)
            && T.IdOf(o.node.topics, name) >= 256
  {
    var s := After(cfg, run);
    TR.TopicsWellFormed(cfg, run);
    SnMsgIdStays(s.node, SnSubscribe(flags, msgId, name, topicId), s.now);
    T.RegisterKeeps(s.node.topics, name);
    hide After, T.Register, T.IdOf, M.Add, T.WellFormed, Node.UpdateStatus;
  }

  /** A SUBSCRIBE for a predefined topic is answered by the gateway: accepted for the time
      (topic id 1), whose value follows in a PUBLISH, and refused with code 2 for any other.
      One of the reserved kind is refused. Without a message id there is no SUBACK. */
  lemma SubscribeAnswered(cfg: Config, run: Run, flags: Byte, msgId: U16, name: Str, topicId: U16)
    requires flags % 4 == 1 || flags % 4 == 3
    ensures var s, o := After(cfg, run), HandledNext(cfg, run, SnSubscribe(flags, msgId, name, topicId));
            var time := flags % 4 == 1 && topicId == 1;
            var acks := if msgId == 0 then 0 else 1;
            o.toBroker == [] && |o.toClient| == acks + (if time then 1 else 0)
            && (msgId != 0 ==>
                  o.toClient[0] == SubAck(topicId, msgId, if time then 0 else 2,
                                          if flags % 4 == 1 && flags as int / 32 % 4 == 1 then 1 else 0))
            && (time ==>
                  var p := o.toClient[acks];
                  p.ClientPublish? && p.flags == 1 && p.topicId == 1
                  && p.msgId == o.node.snMsgId == s.node.snMsgId % 255 + 1
                  && |p.data| == 4 && Get32(p.data) == s.now / 1000 % 0x1_0000_0000)
  {
    var s := After(cfg, run);
    Get32Put32(s.now / 1000 % 0x1_0000_0000, []);
    assert Put32(s.now / 1000 % 0x1_0000_0000) + [] == Put32(s.now / 1000 % 0x1_0000_0000);
    SnMsgIdStays(s.node, SnSubscribe(flags, msgId, name, topicId), s.now);
    SnMsgIdsCycle(s.node.UpdateStatus(SnSubscribe(flags, msgId, name, topicId), s.now));
    hide After, Put32, Get32, Node.UpdateStatus, Node.NextSnMsgId;
  }

  lemma SnMsgIdStays(n: Node, m: SnMessage, now: int)
    ensures n.UpdateStatus(m, now).snMsgId == n.snMsgId && n.UpdateStatus(m, now).topics == n.topics
    ensures n.UpdateStatus(m, now).pubIds == n.pubIds && n.UpdateStatus(m, now).subIds == n.subIds
  {
  }

  /** An UNSUBSCRIBE of the reserved kind is answered, if it has a message id, and goes no
      further. */
  lemma UnsubscribeAnswered(cfg: Config, run: Run, flags: Byte, msgId: U16, name: Str, topicId: U16)
    requires flags % 4 == 3
    ensures var o := HandledNext(cfg, run, SnUnsubscribe(flags, msgId, name, topicId));
            o.toBroker == [] && o.toClient == if msgId == 0 then [] else [UnsubAck(msgId)]
  {
    hide After;
  }

  /** A REGISTER is answered with code 0 and the id under which the gateway then has the
      name, the one it had or the next. */
  lemma RegisterAnswered(cfg: Config, run: Run, msgId: U16, name: Str)
    ensures var o := HandledNext(cfg, run, SnRegister(msgId, name));
            o.toBroker == [] && |o.toClient| == 1 && o.toClient[0].RegAck?
            && o.toClient[0].msgId == msgId && o.toClient[0].returnCode == 0
            && o.toClient[0].topicId == T.IdOf(o.node.topics, name) >= 256
            && o.toClient[0].topicId == (var id := T.IdOf(NodeAfter(cfg, run).topics, name);
                                         if id != 0 then id else T.IdAt(|NodeAfter(cfg, run).topics.list|))
  {
    var s := After(cfg, run);
    TR.TopicsWellFormed(cfg, run);
    SnMsgIdStays(s.node, SnRegister(msgId, name), s.now);
    T.RegisterKeeps(s.node.topics, name);
    hide After, T.Register, T.IdOf, Node.UpdateStatus, T.IdAt, T.WellFormed;
  }

  // ----- PUBLISH and its acknowledgements

  /** A PUBLISH under a topic id that is not registered is refused with code 2, if it has a
      message id, and goes no further; one under an id that is goes on to the broker alone. */
  lemma PublishRefusedExactly(cfg: Config, run: Run, flags: Byte, topicId: U16, msgId: U16, data: seq<Byte>)
    ensures var o := HandledNext(cfg, run, SnPublish(flags, topicId, msgId, data));
            var list := NodeAfter(cfg, run).topics.list;
            if exists k :: 0 <= k < |list| && list[k].id == topicId && list[k].kind == flags % 4
            then o.toClient == [] && |o.toBroker| == 1 && o.toBroker[0].Publish?
            else o.toBroker == [] && o.toClient == if msgId == 0 then [] else [ClientPubAck(topicId, msgId, 2)]
  {
    var s := After(cfg, run);
    var list := s.node.topics.list;
    T.ByIdFinds(list, topicId, flags % 4);
    ByIdMisses(list, topicId, flags % 4);
    SnMsgIdStays(s.node, SnPublish(flags, topicId, msgId, data), s.now);
    hide After, T.ById, M.Add, Translate, Node.UpdateStatus;
  }

  lemma {:induction false} ByIdMisses(list: seq<T.Topic>, id: U16, kind: Byte)
    ensures T.ById(list, id, kind).None? ==> forall k :: 0 <= k < |list| ==> list[k].id != id || list[k].kind != kind
  {
    if list != [] && !(list[0].id == id && list[0].kind == kind) {
      ByIdMisses(list[1..], id, kind);
      assert forall k :: 1 <= k < |list| ==> list[k] == list[1..][k - 1];
    }
  }

  /** A PUBACK of the broker goes on with code 0 and the topic id stored under its message
      id, if there is one; a SUBACK goes on accepted, with a granted quality of service of 1 or
      else 0, and refused with code 2 if the broker refused it with 0x80. */
  lemma AcksForwarded(cfg: Config, run: Run, msgId: U16, granted: Byte)
    requires cfg.maxInflight >= 1
    ensures var ids, o := NodeAfter(cfg, run).pubIds, BrokerNext(cfg, run, BrokerAcked(PubAck, msgId));
            o.toBroker == []
            && (forall e :: e in ids && e.msgId == msgId ==> o.toClient == [ClientPubAck(e.topicId, msgId, 0)])
            && (!M.Has(ids, msgId) ==> o.toClient == [])
    ensures var ids, o := NodeAfter(cfg, run).subIds, BrokerNext(cfg, run, BrokerSubAck(msgId, granted));
            o.toBroker == []
            && (forall e :: e in ids && e.msgId == msgId ==>
                  o.toClient == [if granted == 0x80 then SubAck(e.topicId, msgId, 2, 0)
                                 else SubAck(e.topicId, msgId, 0, if granted == 1 then 1 else 0)])
            && (!M.Has(ids, msgId) ==> o.toClient == [])
  {
    TR.IdsInvariant(cfg, run, TR.ForPublish);
    TR.IdsInvariant(cfg, run, TR.ForSubscribe);
    FoundById(NodeAfter(cfg, run).pubIds, msgId);
    FoundById(NodeAfter(cfg, run).subIds, msgId);
    hide After, M.Lookup, M.Erase, M.Has;
  }

  lemma FoundById(ids: seq<M.Entry>, msgId: U16)
    requires M.Sorted(ids) && forall e :: e in ids ==> e.topicId >= 256
    ensures forall e :: e in ids && e.msgId == msgId ==> M.Lookup(ids, msgId) == e.topicId != 0
    ensures !M.Has(ids, msgId) ==> M.Lookup(ids, msgId) == 0
  {
    forall e | e in ids && e.msgId == msgId ensures M.Lookup(ids, msgId) == e.topicId != 0 {
      M.LookupIsEntry(ids, msgId, e.topicId);
    }
    if M.Lookup(ids, msgId) != 0 {
      M.LookupIsEntry(ids, msgId, M.Lookup(ids, msgId));
      var i :| 0 <= i < |ids| && ids[i] == M.Entry(msgId, M.Lookup(ids, msgId));
    }
  }

  // ----- messages that are only passed on

  /** The acknowledgements of quality of service 2, PINGREQ and PINGRESP, DISCONNECT and
      UNSUBACK go through as they are; PINGRESP and REGACK of the client end at the gateway. */
  lemma PassedOn(cfg: Config, run: Run, kind: AckKind, msgId: U16, duration: U16)
    ensures var o := HandledNext(cfg, run, SnAck(kind, msgId));
            o.toBroker == [BrokerAck(kind, msgId)] && o.toClient == []
    ensures var o := HandledNext(cfg, run, SnPingReq); o.toBroker == [PingReq] && o.toClient == []
    ensures var o := HandledNext(cfg, run, SnDisconnect(duration));
            o.toBroker == [BrokerDisconnect] && o.toClient == [ClientDisconnect(duration)]
    ensures var o := HandledNext(cfg, run, SnPingResp); o.toBroker == [] && o.toClient == []
    ensures var o := HandledNext(cfg, run, SnRegAck); o.toBroker == [] && o.toClient == []
    ensures var o := BrokerNext(cfg, run, BrokerAcked(kind, msgId));
            o.toBroker == [] && (kind != PubAck ==> o.toClient == [ClientAck(kind, msgId)])
    ensures var o := BrokerNext(cfg, run, BrokerUnsubAck(msgId)); o.toBroker == [] && o.toClient == [UnsubAck(msgId)]
    ensures var o := BrokerNext(cfg, run, BrokerPingResp); o.toBroker == [] && o.toClient == [PingResp]
    ensures var o := BrokerNext(cfg, run, BrokerDisconnected); o.toBroker == [] && o.toClient == [ClientDisconnect(0)]
  {
    hide After, M.Lookup, M.Erase;
  }

  // ----- the dialogue for a connection

  /** A CONNECT with a will is answered by asking for its topic, and a WILLTOPIC by asking for
      its message; while no CONNECT can be sent on, the CONNACK that comes is to be held for
      the WILLMSG, and an older one is forgotten. A CONNECT without a will is not answered. */
  lemma DialogueAnswered(cfg: Config, run: Run, clean: bool, duration: U16, id: Str, flags: bv8, topic: Str)
    ensures var n, o := NodeAfter(cfg, run), HandledNext(cfg, run, SnConnect(clean, true, duration, id));
            o.toBroker == [] && o.toClient == [WillTopicReq]
            && (n.status == Lost || n.status == TryConnecting ==> o.node.connAckSaveFlg && o.node.connAck == None)
            && (n.status != Lost && n.status != TryConnecting ==>
                  o.node.connAckSaveFlg == n.connAckSaveFlg && o.node.connAck == n.connAck
                  && o.node.mqttConnect.Some?)
    ensures var n, o := NodeAfter(cfg, run), HandledNext(cfg, run, SnConnect(clean, false, duration, id));
            o.toClient == []
            && if n.status == Lost || n.status == TryConnecting then o.toBroker == []
               else |o.toBroker| == 1 && o.toBroker[0].Connect?
    ensures var o := HandledNext(cfg, run, SnWillTopic(flags, topic)); o.toBroker == [] && o.toClient == [WillMsgReq]
  {
    hide After, NewConnect, WithWillTopic;
  }

  /** The CONNACK's code for the client. */
  function Code(returnCd: Byte): Byte {
    if returnCd == 0 then 0 else if returnCd == 1 then 3 else if returnCd == 3 then 1 else 2
  }

  /** With no flag set, a CONNACK of the broker sends the client exactly one CONNACK, made
      from it: accepted (0) if and only if the broker accepted, and else "not supported" (3)
      for the protocol version, "congestion" (1) for an unavailable server and "invalid topic
      id" (2) for anything else. A client that is connecting becomes Active if and only if
      it is accepted, and is disconnected otherwise. */
  lemma ConnackSentAtOnce(cfg: Config, run: Run, returnCd: Byte, tag: nat)
    requires !NodeAfter(cfg, run).connAckSaveFlg && !NodeAfter(cfg, run).waitWillMsgFlg
    ensures var n, o := NodeAfter(cfg, run), BrokerNext(cfg, run, BrokerConnAck(returnCd, tag));
            o.toBroker == [] && o.toClient == [ConnAck(SnConnack(Code(returnCd), Some(tag)))]
            && (Code(returnCd) == 0 <==> returnCd == 0)
            && o.node.status == (if n.status != Connecting then n.status
                                 else if returnCd == 0 then Active else Disconnected)
            && o.node.connAck == n.connAck && !o.node.connAckSaveFlg && !o.node.waitWillMsgFlg
  {
    hide After;
  }

  /** With a flag set it is held, and the client's status stays. */
  lemma ConnackHeld(cfg: Config, run: Run, returnCd: Byte, tag: nat)
    requires NodeAfter(cfg, run).connAckSaveFlg || NodeAfter(cfg, run).waitWillMsgFlg
    ensures var n, o := NodeAfter(cfg, run), BrokerNext(cfg, run, BrokerConnAck(returnCd, tag));
            o.toBroker == [] && o.toClient == []
            && o.node == n.(connAck := Some(SnConnack(Code(returnCd), Some(tag))))
  {
    hide After;
  }

  /** What a WILLMSG does: a CONNECT that waits for it goes to the broker if it can. If not,
      a gateway on a stable network that is not secure refuses for congestion and starts
      over. Any other releases the CONNACK held, with its code, and the client's status
      follows it; with none held, it holds the next one, and refuses a client that is not
      connecting. */
  lemma WillMsgAnswered(cfg: Config, run: Run, message: Str)
    ensures var n, o := NodeAfter(cfg, run), HandledNext(cfg, run, SnWillMsg(message));
            if n.mqttConnect.Some? && n.status != Lost && n.status != TryConnecting then
              o.toClient == [] && |o.toBroker| == 1 && o.toBroker[0].Connect?
              && o.node.status == (if n.status == Disconnected then TryConnecting else n.status)
            else if !cfg.secure && cfg.stableNetwork then
              o.toBroker == [] && o.toClient == [ConnAck(SnConnack(1, None))] && o.node.status == Disconnected
              && !o.node.connAckSaveFlg && !o.node.waitWillMsgFlg
            else if n.connAck.Some? && (n.connAckSaveFlg || n.waitWillMsgFlg) then
              o.toBroker == [] && o.toClient == [ConnAck(n.connAck.value)]
              && o.node.connAck == None && !o.node.connAckSaveFlg && !o.node.waitWillMsgFlg
              && o.node.status == (if n.status != Connecting then n.status
                                   else if n.connAck.value.returnCode == 0 then Active else Disconnected)
            else
              o.toBroker == [] && o.node.status == n.status
              && (n.connAck == None ==> o.node.waitWillMsgFlg)
              && o.toClient == if n.status == Disconnected || n.status == Active
                               then [ConnAck(SnConnack(1, None))] else []
  {
    hide After;
  }

  /** So a CONNACK that comes while it is to be held reaches the client with the WILLMSG that
      comes next, with its code, on a network that is not stable or is secure. */
  lemma HeldGoesOut(cfg: Config, run: Run, returnCd: Byte, tag: nat, message: Str)
    requires NodeAfter(cfg, run).connAckSaveFlg || NodeAfter(cfg, run).waitWillMsgFlg
    requires NodeAfter(cfg, run).mqttConnect == None && (cfg.secure || !cfg.stableNetwork)
    ensures var next := Then(run, FromBroker(BrokerConnAck(returnCd, tag)));
            HandledNext(cfg, next, SnWillMsg(message)).toClient == [ConnAck(SnConnack(Code(returnCd), Some(tag)))]
  {
    var next := Then(run, FromBroker(BrokerConnAck(returnCd, tag)));
    ConnackHeld(cfg, run, returnCd, tag);
    assert NodeAfter(cfg, next) == BrokerNext(cfg, run, BrokerConnAck(returnCd, tag)).node;
    hide BrokerNext, HandledNext, NodeAfter;
    WillMsgAnswered(cfg, next, message);
  }

  // ----- what a sleeping or unknown client gets, and short names

  /** A PUBLISH of the broker for a client that is not Active sends nothing, though its name
      is registered all the same. For a name of two characters it goes to an Active client
      under the number the program makes of the string, with the short kind. */
  lemma OtherPublishes(cfg: Config, run: Run, b: FromBroker)
    requires b.BrokerPublish?
    ensures var n, o := NodeAfter(cfg, run), BrokerNext(cfg, run, b);
            o.toBroker == []
            && (n.status != Active ==> o.toClient == [])
            && (|b.publish.topic| != 2 ==> T.IdOf(o.node.topics, b.publish.topic) >= 256)
            && (n.status == Active && |b.publish.topic| == 2 && b.raw != 0 ==>
                  |o.toClient| == 1 && o.toClient[0].ClientPublish? && o.toClient[0].topicId == b.raw
                  && o.toClient[0].flags % 4 == 2 && o.toClient[0].msgId == b.publish.messageId
                  && o.toClient[0].data == b.publish.payload)
  {
    TR.TopicsWellFormed(cfg, run);
    OtherPublished(NodeAfter(cfg, run), b.publish, b.raw);
    hide After, T.Register, T.IdOf, HandlePublish, T.WellFormed;
  }

  lemma OtherPublished(n: Node, p: MP.Publish, raw: U16)
    requires T.WellFormed(n.topics)
    ensures var o := HandlePublish(n, p, raw);
            o.toBroker == []
            && (n.status != Active ==> o.toClient == [])
            && (|p.topic| != 2 ==> T.IdOf(o.node.topics, p.topic) >= 256)
            && (n.status == Active && |p.topic| == 2 && raw != 0 ==>
                  |o.toClient| == 1 && o.toClient[0].ClientPublish? && o.toClient[0].topicId == raw
                  && o.toClient[0].flags % 4 == 2 && o.toClient[0].msgId == p.messageId
                  && o.toClient[0].data == p.payload)
  {
    T.RegisterKeeps(n.topics, p.topic);
    KindOfFlags(p);
    hide T.Register, T.IdOf, SnFlags, T.WellFormed, T.IdAt;
  }

  lemma KindOfFlags(p: MP.Publish)
    ensures SnFlags(p, true) % 4 == 2
  {
    hide MP.Publish.Qos, MP.Publish.IsDup, MP.Publish.IsRetain;
  }

  // ----- the protocol version

  /** The version the gateway speaks is 4 or 3; it starts with 4 and changes exactly when a
      broker refuses it, for this client or another. */
  lemma {:induction false} ProtocolExactly(cfg: Config, run: Run)
    ensures After(cfg, run).protocol == 3 || After(cfg, run).protocol == 4
    ensures run.Start? ==> After(cfg, run).protocol == 4
    ensures run.Then? ==>
              (After(cfg, run).protocol != After(cfg, run.past).protocol
               <==> run.step.ProtocolFlipped?
                    || (run.step.FromBroker? && run.step.mq.BrokerConnAck? && run.step.mq.returnCd == 1))
  {
    if run.Then? {
      ProtocolExactly(cfg, run.past);
      hide Effect;
    }
  }
}
