/** The messages that pass through the gateway, as its tasks see them. */
module GatewayMessages {
  import opened Bytes
  import opened Wrappers
  import MC = MqttConnect
  import MP = MqttPublish

  const MQTTSN_RC_ACCEPTED: Byte := 0
  const MQTTSN_RC_REJECTED_CONGESTION: Byte := 1
  const MQTTSN_RC_REJECTED_INVALID_TOPIC_ID: Byte := 2
  const MQTTSN_RC_REJECTED_NOT_SUPPORTED: Byte := 3

  const MQTT_RC_ACCEPTED: Byte := 0
  const MQTT_RC_REFUSED_PROTOCOL_VERSION: Byte := 1
  const MQTT_RC_REFUSED_IDENTIFIER_REJECTED: Byte := 2
  const MQTT_RC_REFUSED_SERVER_UNAVAILABLE: Byte := 3

  const MQTTSN_TOPICID_PREDEFINED_TIME: U16 := 1

  /** The acknowledgements that are passed on with their message id alone. */
  datatype AckKind = PubAck | PubRec | PubRel | PubComp

  /** MQTT-SN, from the client. */
  datatype SnMessage =
    | SnConnect(clean: bool, will: bool, duration: U16, clientId: Str)
    | SnWillTopic(willFlags: bv8, topic: Str)
    | SnWillMsg(message: Str)
    | SnPublish(flags: Byte, topicId: U16, msgId: U16, data: seq<Byte>)
    | SnSubscribe(flags: Byte, msgId: U16, name: Str, topicId: U16)
    | SnUnsubscribe(flags: Byte, msgId: U16, name: Str, topicId: U16)
    | SnRegister(msgId: U16, name: Str)
    | SnAck(kind: AckKind, msgId: U16)
    | SnPingReq
    | SnPingResp
    | SnDisconnect(duration: U16)
    | SnRegAck

  /** A CONNACK for the client. `origin` is the tag of the broker's CONNACK that it
      was made from, if it was. */
  datatype SnConnack = SnConnack(returnCode: Byte, origin: Option<nat>)

  /** MQTT-SN, to the client. */
  datatype ToClient =
    | WillTopicReq
    | WillMsgReq
    | ConnAck(connack: SnConnack)
    | Register(topicId: U16, name: Str)
    | RegAck(topicId: U16, msgId: U16, returnCode: Byte)
    | ClientPublish(flags: Byte, topicId: U16, msgId: U16, data: seq<Byte>)
    | ClientPubAck(topicId: U16, msgId: U16, returnCode: Byte)
    | SubAck(topicId: U16, msgId: U16, returnCode: Byte, qos: Byte)
    | UnsubAck(msgId: U16)
    | ClientAck(kind: AckKind, msgId: U16)
    | PingResp
    | ClientDisconnect(duration: U16)

  /** MQTT, to the broker. */
  datatype ToBroker =
    | Connect(connect: MC.Connect)
    | Publish(publish: MP.Publish)
    | Subscribe(msgId: U16, name: Str, qos: Byte, dup: bool, retain: bool)
    | Unsubscribe(msgId: U16, name: Str)
    | BrokerAck(kind: AckKind, msgId: U16)
    | PingReq
    | BrokerDisconnect

  /** MQTT, from the broker. A CONNACK carries a tag that tells it from others.
      `raw` is the number that getUint16 makes of the string object itself when a
      topic has two characters. */
  datatype FromBroker =
    | BrokerConnAck(returnCd: Byte, tag: nat)
    | BrokerPublish(publish: MP.Publish, raw: U16)
    | BrokerAcked(kind: AckKind, msgId: U16)
    | BrokerSubAck(msgId: U16, grantedQos: Byte)
    | BrokerUnsubAck(msgId: U16)
    | BrokerPingResp
    | BrokerDisconnected
}
