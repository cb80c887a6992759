/** The gateway's control task: how it translates and answers the messages of a
    client and of its broker connection. */
module GatewayControl {
  import opened Bytes
  import opened ClientNode
  import opened GatewayMessages
  import opened Wrappers
  import MC = MqttConnect
  import MP = MqttPublish
  import T = Topics
  import M = TopicIdMap

  /** The parameters the gateway is started with. */
  datatype Config = Config(loginId: Str, password: Str, secure: bool, stableNetwork: bool,
                           authorized: bool, maxInflight: nat)

  /** What handling one message does: the client's new state, and the messages
      pushed, in order. */
  datatype Outcome = Outcome(node: Node, toBroker: seq<ToBroker>, toClient: seq<ToClient>)

  function Quiet(n: Node): Outcome {
    Outcome(n, [], [])
  }

  function Answer(n: Node, m: ToClient): Outcome {
    Outcome(n, [], [m])
  }

  function Forward(n: Node, m: ToBroker): Outcome {
    Outcome(n, [m], [])
  }

  // ----- upstream

  /** The MQTT packet for an accepted PUBLISH of the client. */
  function Translate(flags: Byte, msgId: U16, data: seq<Byte>, topic: Str): MP.Publish {
    var p := MP.Publish(0, topic, msgId, data).SetQos(flags / 32 % 4);
    var p' := if flags / 128 == 1 then p.SetDup() else p;
    if flags / 16 % 2 == 1 then p'.SetRetain() else p'
  }

  function HandleSnPublish(cfg: Config, n: Node, flags: Byte, topicId: U16, msgId: U16, data: seq<Byte>): Outcome {
    var tp := T.ById(n.topics.list, topicId, flags % 4);
    if tp.Some? then
      Forward(if msgId != 0 then n.(pubIds := M.Add(n.pubIds, cfg.maxInflight, msgId, topicId)) else n,
              Publish(Translate(flags, msgId, data, tp.value.name)))
    else if msgId != 0 then
      Answer(n, ClientPubAck(topicId, msgId, MQTTSN_RC_REJECTED_INVALID_TOPIC_ID))
    else Quiet(n)
  }

  function HandleSnSubscribe(cfg: Config, n: Node, flags: Byte, msgId: U16, name: Str, topicId: U16,
        now: int): Outcome {
    var qos := flags / 32 % 4;
    if flags % 4 == 3 then
      if msgId != 0 then Answer(n, SubAck(topicId, msgId, MQTT_RC_REFUSED_IDENTIFIER_REJECTED, 0)) else Quiet(n)
    else if flags % 4 == 1 then
      SubscribePredefined(n, qos, msgId, topicId, now)
    else
      var topics := T.Register(n.topics, name);
      var id := T.IdOf(topics, name);
      var ids := if msgId != 0 then M.Add(n.subIds, cfg.maxInflight, msgId, id) else n.subIds;
      Forward(n.(topics := topics, subIds := ids),
              Subscribe(msgId, name, qos, flags / 128 == 1, flags / 16 % 2 == 1))
  }

  /** setQos of a SUBACK for the client knows no quality of service but 0 and 1. */
  function SubAckQos(qos: Byte): Byte {
    if qos == 1 then 1 else 0
  }

  /** The only predefined topic is the time, which is published at once. */
  function SubscribePredefined(n: Node, qos: Byte, msgId: U16, topicId: U16, now: int): Outcome {
    var known := topicId == MQTTSN_TOPICID_PREDEFINED_TIME;
    var ack := if msgId == 0 then []
               else [SubAck(topicId, msgId, if known then MQTT_RC_ACCEPTED
                     else MQTT_RC_REFUSED_IDENTIFIER_REJECTED, SubAckQos(qos))];
    if known then
      Outcome(n.(snMsgId := n.NextSnMsgId()), [],
              ack + [ClientPublish(1, MQTTSN_TOPICID_PREDEFINED_TIME, n.NextSnMsgId(),
                    Put32(now / 1000 % 0x1_0000_0000))])
    else Outcome(n, [], ack)
  }

  /** absorb() leaves the topic id of a normal topic at 0, so the topic's name reaches
      the broker only for a short topic. */
  function HandleSnUnsubscribe(n: Node, flags: Byte, msgId: U16, name: Str, topicId: U16): Outcome {
    var kind := flags % 4;
    var tp := T.ById(n.topics.list, if kind == 1 then topicId else 0, kind);
    if kind == 2 || (kind == 0 && tp.Some?) then Forward(n, Unsubscribe(msgId, name))
    else if kind != 3 && tp.None? then Forward(n, Unsubscribe(msgId, []))
    else if msgId != 0 then Answer(n, UnsubAck(msgId))
    else Quiet(n)
  }

  /** The CONNECT for the broker, as far as the client's CONNECT determines it. */
  function NewConnect(cfg: Config, protocol: Byte, id: Str, clean: bool, duration: U16): MC.Connect {
    var c := MC.NEW_CONNECT.SetProtocol(protocol).SetClientId(id).SetKeepAliveTime(duration);
    var c' := if cfg.loginId != []
          && cfg.password != [] then c.SetUserName(cfg.loginId).SetPassword(cfg.password) else c;
    if clean then c'.SetCleanSession() else c'
  }

  /** A client that is not on the list of authorised ones names itself. */
  function Named(cfg: Config, n: Node, id: Str): Node {
    if cfg.authorized then n else n.(nodeId := id)
  }

  /** A CONNECT that can be sent on starts afresh. */
  function StartConnect(n: Node, c: MC.Connect, clean: bool): Node {
    n.(mqttConnect := Some(c), topics := if clean then T.NO_TOPICS else n.topics, pubIds := [], subIds := [])
  }

  function HandleSnConnect(cfg: Config, protocol: Byte, node: Node, clean: bool, will: bool, duration: U16,
        id: Str): Outcome {
    var n := Named(cfg, node, id);
    var c := NewConnect(cfg, protocol, n.nodeId, clean, duration);
    var n' := if n.ConnectSendable() then StartConnect(n, c, clean) else n;
    if will then Answer(if n.ConnectSendable() then n' else n'.SetConnAckSaveFlg(), WillTopicReq)
    else if n.ConnectSendable() then Forward(n'.(mqttConnect := None).ConnectQued(), Connect(c))
    else Quiet(n')
  }

  const MQTTSN_FLAG_QOS_1: bv8 := 0x20
  const MQTTSN_FLAG_QOS_2: bv8 := 0x40

  /** The operator && on numbers. */
  function LogicalAnd(a: bv8, b: bv8): bv8 {
    if a != 0 && b != 0 then 1 else 0
  }

  /** getQos of a WILLTOPIC, of whose flags setFlags has kept quality of service and
      RETAIN. It has a logical && where a mask is meant. */
  function WillQos(flags: bv8): bv8 {
    LogicalAnd(flags & 0x70, MQTTSN_FLAG_QOS_1 | MQTTSN_FLAG_QOS_2) >> 5
  }

  function WithWillTopic(c: MC.Connect, flags: bv8, topic: Str): MC.Connect {
    c.SetWillTopic(topic).SetWillQos(WillQos(flags))
  }

  function HandleSnWillTopic(n: Node, flags: bv8, topic: Str): Outcome {
    Answer(if n.mqttConnect.None? then n
           else n.(mqttConnect := Some(WithWillTopic(n.mqttConnect.value, flags, topic))),
           WillMsgReq)
  }

  const CONGESTION: ToClient := ConnAck(SnConnack(MQTTSN_RC_REJECTED_CONGESTION, None))

  function HandleSnWillMsg(cfg: Config, n: Node, message: Str): Outcome {
    if n.mqttConnect.Some? && n.ConnectSendable() then
      Forward(n.ConnectQued().(mqttConnect := None), Connect(n.mqttConnect.value.SetWillMessage(message)))
    else if !cfg.secure && cfg.stableNetwork then
      Answer(n.Dropped(), CONGESTION)
    else
      WillMsgWithoutConnect(n)
  }

  /** On an unstable or secure network the held CONNACK is released, if there is one. */
  function WillMsgWithoutConnect(n: Node): Outcome {
    var released := n.Released();
    var n' := n.CheckGetConnAck();
    if released.Some? then Answer(n'.ConnackSended(released.value.returnCode), ConnAck(released.value))
    else if n'.status == Disconnected || n'.status == Active then
      Answer(n'.ConnackSended(MQTTSN_RC_REJECTED_CONGESTION), CONGESTION)
    else Quiet(n')
  }

  function HandleSnRegister(n: Node, msgId: U16, name: Str): Outcome {
    var topics := T.Register(n.topics, name);
    Answer(n.(topics := topics), RegAck(T.IdOf(topics, name), msgId, MQTTSN_RC_ACCEPTED))
  }

  /** The part of the dispatch for messages of a client. */
  function Handle(cfg: Config, protocol: Byte, n: Node, m: SnMessage, now: int): Outcome {
    match m
    case SnConnect(clean, will, duration, id) => HandleSnConnect(cfg, protocol, n, clean, will, duration, id)
    case SnWillTopic(flags, topic) => HandleSnWillTopic(n, flags, topic)
    case SnWillMsg(message) => HandleSnWillMsg(cfg, n, message)
    case SnPublish(flags, topicId, msgId, data) => HandleSnPublish(cfg, n, flags, topicId, msgId, data)
    case SnSubscribe(flags, msgId, name, topicId) => HandleSnSubscribe(cfg, n, flags, msgId, name, topicId, now)
    case SnUnsubscribe(flags, msgId, name, topicId) => HandleSnUnsubscribe(n, flags, msgId, name, topicId)
    case SnRegister(msgId, name) => HandleSnRegister(n, msgId, name)
    case SnAck(kind, msgId) => Forward(n, BrokerAck(kind, msgId))
    case SnPingReq => Forward(n, PingReq)
    case SnDisconnect(duration) => Outcome(n, [BrokerDisconnect], [ClientDisconnect(duration)])
    case SnPingResp => Quiet(n)
    case SnRegAck => Quiet(n)
  }

  function HandleClient(cfg: Config, protocol: Byte, n: Node, m: SnMessage, now: int): Outcome {
    Handle(cfg, protocol, n.UpdateStatus(m, now), m, now)
  }

  // ----- downstream

  function ReturnCode(returnCd: Byte): Byte {
    if returnCd == MQTT_RC_ACCEPTED then MQTTSN_RC_ACCEPTED
    else if returnCd == MQTT_RC_REFUSED_PROTOCOL_VERSION then MQTTSN_RC_REJECTED_NOT_SUPPORTED
    else if returnCd == MQTT_RC_REFUSED_SERVER_UNAVAILABLE then MQTTSN_RC_REJECTED_CONGESTION
    else MQTTSN_RC_REJECTED_INVALID_TOPIC_ID
  }

  function OtherProtocol(protocol: Byte): Byte {
    if protocol == MC.MQTT_PROTOCOL_VER4 then MC.MQTT_PROTOCOL_VER3 else MC.MQTT_PROTOCOL_VER4
  }

  /** A broker that refuses the protocol version is tried with the other one. */
  function ProtocolAfter(protocol: Byte, b: FromBroker): Byte {
    if b.BrokerConnAck? && b.returnCd == MQTT_RC_REFUSED_PROTOCOL_VERSION then OtherProtocol(protocol) else protocol
  }

  function HandleConnack(n: Node, returnCd: Byte, tag: nat): Outcome {
    var c := SnConnack(ReturnCode(returnCd), Some(tag));
    if n.HoldsConnAck() then Quiet(n.CheckConnAck(c))
    else Answer(n.ConnackSended(c.returnCode), ConnAck(c))
  }

  function HandlePuback(n: Node, msgId: U16): Outcome {
    var topicId := M.Lookup(n.pubIds, msgId);
    if topicId != 0 then
      Answer(n.(pubIds := M.Erase(n.pubIds, msgId)), ClientPubAck(topicId, msgId, MQTTSN_RC_ACCEPTED))
    else Quiet(n)
  }

  function HandleSuback(n: Node, msgId: U16, grantedQos: Byte): Outcome {
    var topicId := M.Lookup(n.subIds, msgId);
    if topicId == 0 then Quiet(n)
    else
      Answer(n.(subIds := M.Erase(n.subIds, msgId)),
             if grantedQos == 0x80 then SubAck(topicId, msgId, MQTTSN_RC_REJECTED_INVALID_TOPIC_ID, 0)
             else SubAck(topicId, msgId, MQTTSN_RC_ACCEPTED, SubAckQos(grantedQos)))
  }

  /** The flags of the PUBLISH for the client: a retained message is marked as a
      duplicate, not as retained. */
  function SnFlags(p: MP.Publish, short: bool): Byte {
    (if short then 2 else 0) + (if p.Qos() == 1 then 0x20 else if p.Qos() == 2 then 0x40 else 0)
    + if p.IsDup() || p.IsRetain() then 0x80 else 0
  }

  function HandlePublish(n: Node, p: MP.Publish, raw: U16): Outcome {
    var short := |p.topic| == 2;
    var known := if short then raw else T.IdOf(n.topics, p.topic);
    var topics := if known == 0 then T.Register(n.topics, p.topic) else n.topics;
    var id := if known == 0 then T.IdOf(topics, p.topic) else known;
    Outcome(n.(topics := topics), [],
            if id == 0 || n.status != Active then []
            else (if known == 0 then [Register(id, p.topic)] else [])
                 + [ClientPublish(SnFlags(p, short), id, p.messageId, p.payload)])
  }

  function HandleBroker(n: Node, b: FromBroker): Outcome {
    match b
    case BrokerConnAck(returnCd, tag) => HandleConnack(n, returnCd, tag)
    case BrokerPublish(p, raw) => HandlePublish(n, p, raw)
    case BrokerAcked(kind, msgId) => if kind.PubAck? then HandlePuback(n, msgId) else Answer(n, ClientAck(kind, msgId))
    case BrokerSubAck(msgId, granted) => HandleSuback(n, msgId, granted)
    case BrokerUnsubAck(msgId) => Answer(n, UnsubAck(msgId))
    case BrokerPingResp => Answer(n, PingResp)
    case BrokerDisconnected => Answer(n, ClientDisconnect(0))
  }

  // ----- the task

  /** What a method has done to a client is the outcome given. */
  twostate predicate Did(node: ClientNode, o: Outcome)
    reads node
  {
    && node.View() == o.node
    && node.brokerSendQue == old(node.brokerSendQue) + o.toBroker
    && node.clientSendQue == old(node.clientSendQue) + o.toClient
  }

  class GatewayControlTask {
    const config: Config
    var protocol: Byte

    constructor (cfg: Config)
      ensures config == cfg && protocol == MC.MQTT_PROTOCOL_VER4
    {
      config, protocol := cfg, MC.MQTT_PROTOCOL_VER4;
    }

    method SnPublish(clnode: ClientNode, flags: Byte, topicId: U16, msgId: U16, data: seq<Byte>)
      modifies clnode
      ensures Did(clnode, HandleSnPublish(config, old(clnode.View()), flags, topicId, msgId, data))
    {
      var tp := T.ById(clnode.topics.list, topicId, flags % 4);
      if tp.Some? {
        if msgId != 0 {
          clnode.waitedPubTopicIds := M.Add(clnode.waitedPubTopicIds, config.maxInflight, msgId, topicId);
        }
        var mqMsg := ToMqtt(flags, msgId, data, tp.value.name);
        clnode.SetBrokerSendMessage(Publish(mqMsg));
      } else if msgId != 0 {
        clnode.SetClientSendMessage(ClientPubAck(topicId, msgId, MQTTSN_RC_REJECTED_INVALID_TOPIC_ID));
      }
    }

    method ToMqtt(flags: Byte, msgId: U16, data: seq<Byte>, topic: Str) returns (mqMsg: MP.Publish)
      ensures mqMsg == Translate(flags, msgId, data, topic)
    {
      mqMsg := MP.Publish(0, topic, 0, []);
      if msgId != 0 {
        mqMsg := mqMsg.(messageId := msgId);
      }
      mqMsg := mqMsg.SetQos(flags / 32 % 4);
      if flags / 128 == 1 {
        mqMsg := mqMsg.SetDup();
      }
      if flags / 16 % 2 == 1 {
        mqMsg := mqMsg.SetRetain();
      }
      mqMsg := mqMsg.(payload := data);
    }

    method SnSubscribe(clnode: ClientNode, flags: Byte, msgId: U16, name: Str, topicId: U16, now: int)
      modifies clnode
      ensures Did(clnode, HandleSnSubscribe(config, old(clnode.View()), flags, msgId, name, topicId, now))
    {
      var qos := flags / 32 % 4;
      if flags % 4 == 3 {
        if msgId != 0 {
          clnode.SetClientSendMessage(SubAck(topicId, msgId, MQTT_RC_REFUSED_IDENTIFIER_REJECTED, 0));
        }
      } else if flags % 4 == 1 {
        SnSubscribePredefined(clnode, qos, msgId, topicId, now);
      } else {
        clnode.topics := T.Register(clnode.topics, name);
        var id := T.IdOf(clnode.topics, name);
        if msgId != 0 {
          clnode.waitedSubTopicIds := M.Add(clnode.waitedSubTopicIds, config.maxInflight, msgId, id);
        }
        clnode.SetBrokerSendMessage(Subscribe(msgId, name, qos, flags / 128 == 1, flags / 16 % 2 == 1));
      }
    }

    method SnSubscribePredefined(clnode: ClientNode, qos: Byte, msgId: U16, topicId: U16, now: int)
      modifies clnode
      ensures Did(clnode, SubscribePredefined(old(clnode.View()), qos, msgId, topicId, now))
    {
      if msgId != 0 {
        var rc := if topicId == MQTTSN_TOPICID_PREDEFINED_TIME then MQTT_RC_ACCEPTED
              else MQTT_RC_REFUSED_IDENTIFIER_REJECTED;
        clnode.SetClientSendMessage(SubAck(topicId, msgId, rc, SubAckQos(qos)));
      }
      if topicId == MQTTSN_TOPICID_PREDEFINED_TIME {
        var id := clnode.GetNextSnMsgId();
        clnode.SetClientSendMessage(ClientPublish(1, MQTTSN_TOPICID_PREDEFINED_TIME, id,
              Put32(now / 1000 % 0x1_0000_0000)));
      }
    }

    method SnUnsubscribe(clnode: ClientNode, flags: Byte, msgId: U16, name: Str, topicId: U16)
      modifies clnode
      ensures Did(clnode, HandleSnUnsubscribe(old(clnode.View()), flags, msgId, name, topicId))
    {
      var kind := flags % 4;
      var predefined := false;
      if kind != 3 {
        var topicName := [];
        if kind == 2 {
          topicName := name;
        } else if T.ById(clnode.topics.list, if kind == 1 then topicId else 0, kind).Some? {
          predefined := kind == 1;
          topicName := name;
        }
        if !predefined {
          clnode.SetBrokerSendMessage(Unsubscribe(msgId, topicName));
          return;
        }
      }
      if msgId != 0 {
        clnode.SetClientSendMessage(UnsubAck(msgId));
      }
    }

    method SnConnect(clnode: ClientNode, clean: bool, will: bool, duration: U16, id: Str)
      modifies clnode
      ensures Did(clnode, HandleSnConnect(config, protocol, old(clnode.View()), clean, will, duration, id))
    {
      if !config.authorized {
        clnode.nodeId := id;
      }
      var mqMsg := MC.NEW_CONNECT;
      var sendable := clnode.IsConnectSendable();
      if sendable {
        mqMsg := StartOver(clnode, clean, duration);
      }
      AnswerConnect(clnode, will, mqMsg);
    }

    method AnswerConnect(clnode: ClientNode, will: bool, mqMsg: MC.Connect)
      modifies clnode
      ensures var n := old(clnode.View());
              Did(clnode, if will then Answer(if n.ConnectSendable() then n else n.SetConnAckSaveFlg(), WillTopicReq)
                          else if n.ConnectSendable() then
                            Forward(n.(mqttConnect := None).ConnectQued(), Connect(mqMsg))
                          else Quiet(n))
    {
      var sendable := clnode.IsConnectSendable();
      if will {
        clnode.SetClientSendMessage(WillTopicReq);
        if !sendable {
          clnode.SetConnAckSaveFlg();
        }
      } else if sendable {
        clnode.mqttConnect := None;
        clnode.ConnectQued();
        clnode.SetBrokerSendMessage(Connect(mqMsg));
      }
    }

    /** The part of a CONNECT that needs the broker. */
    method StartOver(clnode: ClientNode, clean: bool, duration: U16) returns (mqMsg: MC.Connect)
      modifies clnode
      ensures mqMsg == NewConnect(config, protocol, clnode.nodeId, clean, duration)
      ensures clnode.View() == StartConnect(old(clnode.View()), mqMsg, clean) && clnode.Queues() == old(clnode.Queues())
    {
      mqMsg := DraftConnect(clnode.nodeId, clean, duration);
      if clean {
        clnode.topics := T.NO_TOPICS;
      }
      clnode.mqttConnect := Some(mqMsg);
      clnode.waitedPubTopicIds, clnode.waitedSubTopicIds := [], [];
    }

    method DraftConnect(nodeId: Str, clean: bool, duration: U16) returns (mqMsg: MC.Connect)
      ensures mqMsg == NewConnect(config, protocol, nodeId, clean, duration)
    {
      var connect := new MC.MQTTConnect();
      connect.SetProtocol(protocol);
      connect.SetClientId(nodeId);
      connect.SetKeepAliveTime(duration);
      if config.loginId != [] && config.password != [] {
        connect.SetUserName(config.loginId);
        connect.SetPassword(config.password);
      }
      if clean {
        connect.SetCleanSessionFlg();
      }
      mqMsg := connect.Packet();
    }

    method SnWillTopic(clnode: ClientNode, flags: bv8, topic: Str)
      modifies clnode
      ensures Did(clnode, HandleSnWillTopic(old(clnode.View()), flags, topic))
    {
      if clnode.mqttConnect.Some? {
        clnode.mqttConnect := Some(clnode.mqttConnect.value.SetWillTopic(topic));
        clnode.mqttConnect := Some(clnode.mqttConnect.value.SetWillQos(WillQos(flags)));
      }
      clnode.SetClientSendMessage(WillMsgReq);
    }

    method SnWillMsg(clnode: ClientNode, message: Str)
      modifies clnode
      ensures Did(clnode, HandleSnWillMsg(config, old(clnode.View()), message))
    {
      var sendable := clnode.IsConnectSendable();
      if clnode.mqttConnect.Some? && sendable {
        clnode.mqttConnect := Some(clnode.mqttConnect.value.SetWillMessage(message));
        clnode.ConnectQued();
        clnode.SetBrokerSendMessage(Connect(clnode.mqttConnect.value));
        clnode.mqttConnect := None;
      } else if !config.secure && config.stableNetwork {
        clnode.SetClientSendMessage(CONGESTION);
        clnode.SetDisconnected();
      } else {
        var connack := clnode.CheckGetConnAck();
        if connack.Some? {
          clnode.SetClientSendMessage(ConnAck(connack.value));
          clnode.ConnackSended(connack.value.returnCode);
        } else if clnode.status == Disconnected || clnode.status == Active {
          clnode.SetClientSendMessage(CONGESTION);
          clnode.ConnackSended(MQTTSN_RC_REJECTED_CONGESTION);
        }
      }
    }

    method SnRegister(clnode: ClientNode, msgId: U16, name: Str)
      modifies clnode
      ensures Did(clnode, HandleSnRegister(old(clnode.View()), msgId, name))
    {
      clnode.topics := T.Register(clnode.topics, name);
      clnode.SetClientSendMessage(RegAck(T.IdOf(clnode.topics, name), msgId, MQTTSN_RC_ACCEPTED));
    }

    /** An event for a message of the client. */
    method ClientEvent(clnode: ClientNode, m: SnMessage, now: int)
      modifies clnode
      ensures Did(clnode, HandleClient(config, protocol, old(clnode.View()), m, now))
    {
      clnode.UpdateStatus(m, now);
      match m {
        case SnPublish(flags, topicId, msgId, data) => SnPublish(clnode, flags, topicId, msgId, data);
        case SnSubscribe(flags, msgId, name, topicId) => SnSubscribe(clnode, flags, msgId, name, topicId, now);
        case SnUnsubscribe(flags, msgId, name, topicId) => SnUnsubscribe(clnode, flags, msgId, name, topicId);
        case SnPingReq => clnode.SetBrokerSendMessage(PingReq);
        case SnAck(kind, msgId) => clnode.SetBrokerSendMessage(BrokerAck(kind, msgId));
        case SnWillTopic(flags, topic) => SnWillTopic(clnode, flags, topic);
        case SnWillMsg(message) => SnWillMsg(clnode, message);
        case SnConnect(clean, will, duration, id) => SnConnect(clnode, clean, will, duration, id);
        case SnDisconnect(duration) =>
          clnode.SetBrokerSendMessage(BrokerDisconnect);
          clnode.SetClientSendMessage(ClientDisconnect(duration));
        case SnRegister(msgId, name) => SnRegister(clnode, msgId, name);
        case SnPingResp =>
        case SnRegAck =>
      }
    }

    method Connack(clnode: ClientNode, returnCd: Byte, tag: nat)
      modifies clnode, this`protocol
      ensures Did(clnode, HandleConnack(old(clnode.View()), returnCd, tag))
      ensures protocol == ProtocolAfter(old(protocol), BrokerConnAck(returnCd, tag))
    {
      var rc := MQTTSN_RC_REJECTED_INVALID_TOPIC_ID;
      if returnCd == 0 {
        rc := MQTTSN_RC_ACCEPTED;
      } else if returnCd == MQTT_RC_REFUSED_PROTOCOL_VERSION {
        rc := MQTTSN_RC_REJECTED_NOT_SUPPORTED;
        protocol := if protocol == MC.MQTT_PROTOCOL_VER4 then MC.MQTT_PROTOCOL_VER3 else MC.MQTT_PROTOCOL_VER4;
      } else if returnCd == MQTT_RC_REFUSED_SERVER_UNAVAILABLE {
        rc := MQTTSN_RC_REJECTED_CONGESTION;
      }
      var snMsg := SnConnack(rc, Some(tag));
      var held := clnode.CheckConnAck(snMsg);
      if !held {
        clnode.ConnackSended(rc);
        clnode.SetClientSendMessage(ConnAck(snMsg));
      }
    }

    method Puback(clnode: ClientNode, msgId: U16)
      modifies clnode
      ensures Did(clnode, HandlePuback(old(clnode.View()), msgId))
    {
      var topicId := M.Lookup(clnode.waitedPubTopicIds, msgId);
      if topicId != 0 {
        clnode.waitedPubTopicIds := M.Erase(clnode.waitedPubTopicIds, msgId);
        clnode.SetClientSendMessage(ClientPubAck(topicId, msgId, MQTTSN_RC_ACCEPTED));
      }
    }

    method Suback(clnode: ClientNode, msgId: U16, grantedQos: Byte)
      modifies clnode
      ensures Did(clnode, HandleSuback(old(clnode.View()), msgId, grantedQos))
    {
      var topicId := M.Lookup(clnode.waitedSubTopicIds, msgId);
      if topicId != 0 {
        clnode.waitedSubTopicIds := M.Erase(clnode.waitedSubTopicIds, msgId);
        var rc, qos := MQTTSN_RC_ACCEPTED, SubAckQos(grantedQos);
        if grantedQos == 0x80 {
          rc, qos := MQTTSN_RC_REJECTED_INVALID_TOPIC_ID, 0;
        }
        clnode.SetClientSendMessage(SubAck(topicId, msgId, rc, qos));
      }
    }

    method PublishDown(clnode: ClientNode, p: MP.Publish, raw: U16)
      modifies clnode
      ensures Did(clnode, HandlePublish(old(clnode.View()), p, raw))
    {
      var short := |p.topic| == 2;
      var tpId := raw;
      if !short {
        tpId := T.IdOf(clnode.topics, p.topic);
      }
      if tpId == 0 {
        clnode.topics := T.Register(clnode.topics, p.topic);
        tpId := T.IdOf(clnode.topics, p.topic);
        if tpId == 0 {
          return;
        }
        if clnode.status == Active {
          clnode.SetClientSendMessage(Register(tpId, p.topic));
        }
      }
      if clnode.status == Active {
        clnode.SetClientSendMessage(ClientPublish(SnFlags(p, short), tpId, p.messageId, p.payload));
      }
    }

    /** An event for a message of the broker. */
    method BrokerEvent(clnode: ClientNode, b: FromBroker)
      modifies clnode, this`protocol
      ensures Did(clnode, HandleBroker(old(clnode.View()), b))
      ensures protocol == ProtocolAfter(old(protocol), b)
    {
      match b {
        case BrokerAcked(kind, msgId) =>
          if kind.PubAck? {
            Puback(clnode, msgId);
          } else {
            clnode.SetClientSendMessage(ClientAck(kind, msgId));
          }
        case BrokerPingResp => clnode.SetClientSendMessage(PingResp);
        case BrokerSubAck(msgId, granted) => Suback(clnode, msgId, granted);
        case BrokerUnsubAck(msgId) => clnode.SetClientSendMessage(UnsubAck(msgId));
        case BrokerConnAck(returnCd, tag) => Connack(clnode, returnCd, tag);
        case BrokerPublish(p, raw) => PublishDown(clnode, p, raw);
        case BrokerDisconnected => clnode.SetClientSendMessage(ClientDisconnect(0));
      }
    }
  }
}
