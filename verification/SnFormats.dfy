/** The messages of the client as MQTT-SN 1.2 lays them out: a reader for CONNECT, WILLTOPIC,
    WILLMSG, PUBLISH, DISCONNECT and SEARCHGW (sections 5.4.4, 5.4.7, 5.4.9, 5.4.12, 5.4.21
    and 5.4.2), with a length of one byte. */
module SnFormats {
  import opened Bytes
  import opened Wrappers

  datatype View =
    | Connect(clean: bool, will: bool, otherFlags: nat, protocolId: Byte, duration: U16, clientId: Str)
    | WillTopic(qos: nat, retain: bool, topic: Str)
    | WillMsg(message: Str)
    | Publish(dup: bool, qos: nat, retain: bool, kind: nat, topic: seq<Byte>, msgId: U16, data: seq<Byte>)
    | Disconnect(sleep: Option<U16>)
    | SearchGw(radius: Byte)

  function Read(m: seq<Byte>): Option<View> {
    if |m| < 2 || m[0] != |m| then None
    else if m[1] == 0x04 && |m| >= 6 then
      var flags := m[2] as int;
      Some(Connect(flags / 4 % 2 == 1, flags / 8 % 2 == 1, flags / 16 * 16 + flags % 4, m[3],
                   m[4] as int * 256 + m[5], m[6..]))
    else if m[1] == 0x07 && |m| >= 3 then
      Some(WillTopic(m[2] as int / 32 % 4, m[2] as int / 16 % 2 == 1, m[3..]))
    else if m[1] == 0x09 then Some(WillMsg(m[2..]))
    else if m[1] == 0x0C && |m| >= 7 then
      var flags := m[2] as int;
      Some(Publish(flags / 128 == 1, flags / 32 % 4, flags / 16 % 2 == 1, flags % 4, m[3..5],
                   m[5] as int * 256 + m[6], m[7..]))
    else if m[1] == 0x18 && |m| == 2 then Some(Disconnect(None))
    else if m[1] == 0x18 && |m| == 4 then Some(Disconnect(Some(m[2] as int * 256 + m[3])))
    else if m[1] == 0x01 && |m| == 3 then Some(SearchGw(m[2]))
    else None
  }
}
