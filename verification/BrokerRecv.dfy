/** BrokerRecvTask: one read from the broker's socket is split into packets, and
    each becomes a message and an event. */
module BrokerRecv {
  import opened Bytes
  import opened GatewayMessages
  import opened Sequences
  import opened Wrappers
  import RL = RemainingLength
  import MP = MqttPublish

  const MQTT_TYPE_CONNACK: Byte := 0x20
  const MQTT_TYPE_PUBLISH: Byte := 0x30
  const MQTT_TYPE_SUBACK: Byte := 0x90
  const MQTT_TYPE_UNSUBACK: Byte := 0xB0
  const MQTT_TYPE_PINGRESP: Byte := 0xD0

  /** A packet of the broker. `Published(None)` is a PUBLISH that deserialize
      refuses: the client's connection is dropped, and a message pushed all the same. */
  datatype Packet =
    | ConnAcked(returnCd: Byte)
    | Published(publish: Option<MP.Publish>)
    | Acked(kind: AckKind, msgId: U16)
    | SubAcked(msgId: U16, grantedQos: Byte)
    | UnsubAcked(msgId: U16)
    | PingResponded

  function TypeOf(kind: AckKind): Byte {
    match kind
    case PubAck => 0x40
    case PubRec => 0x50
    case PubRel => 0x60
    case PubComp => 0x70
  }

  predicate KnownType(head: Byte) {
    var t := head as int / 16 * 16;
    t == 0x20 || t == 0x30 || t == 0x40 || t == 0x50 || t == 0x60 || t == 0x70 || t == 0x90 || t == 0xB0 || t == 0xD0
  }

  /** The packet at the front of the zeroed receive buffer. */
  function Read(buf: seq<Byte>): Packet
    requires buf != [] && KnownType(buf[0])
  {
    var t := buf[0] as int / 16 * 16;
    var id := Get16(Take(Skip(buf, 2), 2));
    if t == 0x40 then Acked(PubAck, id)
    else if t == 0x50 then Acked(PubRec, id)
    else if t == 0x60 then Acked(PubRel, id)
    else if t == 0x70 then Acked(PubComp, id)
    else if t == 0x30 then Published(MP.Deserialize(buf))
    else if t == 0x90 then
      var body := RL.ReadFixedHeader(buf).3;
      SubAcked(Get16(Take(body, 2)), Take(Skip(body, 2), 1)[0])
    else if t == 0xD0 then PingResponded
    else if t == 0xB0 then UnsubAcked(id)
    else ConnAcked(Take(Skip(buf, 3), 1)[0])
  }

  /** The 16-bit packetLength. */
  function PacketLength(buf: seq<Byte>): U16 {
    var h := RL.ReadFixedHeader(buf);
    (1 + h.2 + h.1 as int) % 0x1_0000
  }

  /** How the loop ends: nothing left, a type it does not know, or never, because
      the length has wrapped to 0. */
  datatype End = Emptied | UnknownType | Endless

  function Split(buf: seq<Byte>, recvLength: int): (seq<Packet>, End)
    decreases recvLength
  {
    if recvLength <= 0 then ([], Emptied)
    else if buf == [] || !KnownType(buf[0]) then ([], UnknownType)
    else if PacketLength(buf) == 0 then ([Read(buf)], Endless)
    else
      var rest := Split(Skip(buf, PacketLength(buf)), recvLength - PacketLength(buf));
      ([Read(buf)] + rest.0, rest.1)
  }

  // ----- what a broker sends

  function Body(p: Packet): seq<Byte> {
    match p
    case ConnAcked(code) => [0, code]
    case Published(publish) => if publish.Some? then MP.Rest(publish.value) else []
    case Acked(_, id) => Put16(id)
    case SubAcked(id, qos) => Put16(id) + [qos]
    case UnsubAcked(id) => Put16(id)
    case PingResponded => []
  }

  /** Type and flags. A PUBREL has its reserved flags set. */
  function Head(p: Packet): Byte {
    match p
    case ConnAcked(_) => MQTT_TYPE_CONNACK
    case Published(publish) => if publish.Some? then MQTT_TYPE_PUBLISH + publish.value.flags % 16 else MQTT_TYPE_PUBLISH
    case Acked(kind, _) => if kind.PubRel? then 0x62 else TypeOf(kind)
    case SubAcked(_, _) => MQTT_TYPE_SUBACK
    case UnsubAcked(_) => MQTT_TYPE_UNSUBACK
    case PingResponded => MQTT_TYPE_PINGRESP
  }

  function Encode(p: Packet): seq<Byte> {
    RL.FixedHeader(Head(p), |Body(p)| % 0x1_0000) + Body(p)
  }

  function EncodeAll(ps: seq<Packet>): seq<Byte> {
    if ps == [] then [] else Encode(ps[0]) + EncodeAll(ps[1..])
  }

  predicate Complete(p: Packet) {
    |Encode(p)| < 0x1_0000
    && (p.Published? ==> p.publish.Some? && p.publish.value.Sendable() && MP.Utf8Valid(p.publish.value.topic))
  }

  /** The message id of a PUBLISH at quality of service 0 is not on the wire. */
  function OnTheWire(p: Packet): Packet {
    if p.Published? && p.publish.Some? && p.publish.value.Qos() == 0
    then Published(Some(p.publish.value.(messageId := 0)))
    else p
  }

  function AllOnTheWire(ps: seq<Packet>): seq<Packet> {
    if ps == [] then [] else [OnTheWire(ps[0])] + AllOnTheWire(ps[1..])
  }

  lemma PublishEncoded(p: MP.Publish)
    requires p.Sendable()
    ensures Encode(Published(Some(p))) == MP.Serialize(p)
  {
  }

  lemma EncodedAsFrame(p: Packet)
    requires Complete(p)
    ensures |Body(p)| < 0x1_0000
    ensures var header := RL.FixedHeader(Head(p), |Body(p)|);
            Encode(p) == header + Body(p) && |header| == 1 + |RL.Encode(|Body(p)|)|
    ensures |Encode(p)| == 1 + |RL.Encode(|Body(p)|)| + |Body(p)| < 0x1_0000
  {
    hide RL.Encode, Body, Head;
  }

  lemma LengthOfEncoded(p: Packet, after: seq<Byte>)
    requires Complete(p)
    ensures PacketLength(Encode(p) + after) == |Encode(p)|
    ensures RL.ReadFixedHeader(Encode(p) + after).3 == Body(p) + after
    ensures Skip(Encode(p) + after, |Encode(p)|) == after
  {
    var header, body := RL.FixedHeader(Head(p), |Body(p)|), Body(p);
    EncodedAsFrame(p);
    hide *;
    Assoc(header, body, after);
    RL.ReadFixedHeaderOf(Head(p), |body|, body + after);
    TakeSkip(Encode(p), after);
    PacketLengthIs(Encode(p) + after, 1 + |RL.Encode(|body|)| + |body|);
  }

  lemma PacketLengthIs(buf: seq<Byte>, n: nat)
    requires var h := RL.ReadFixedHeader(buf); 1 + h.2 + h.1 == n < 0x1_0000
    ensures PacketLength(buf) == n
  {
    hide RL.ReadFixedHeader;
  }

  lemma HeadOfEncoded(p: Packet, after: seq<Byte>)
    ensures (Encode(p) + after) != [] && (Encode(p) + after)[0] == Head(p) && KnownType(Head(p))
  {
  }

  lemma ShortBody(p: Packet, after: seq<Byte>)
    requires |Body(p)| < 128
    ensures Skip(Encode(p) + after, 2) == Body(p) + after
  {
    var header := RL.FixedHeader(Head(p), |Body(p)|);
    assert |header| == 2;
    assert Encode(p) == header + Body(p);
    hide *;
    Assoc(header, Body(p), after);
    TakeSkip(header, Body(p) + after);
  }

  lemma ReadEncoded(p: Packet, after: seq<Byte>)
    requires Complete(p)
    ensures Read(Encode(p) + after) == OnTheWire(p)
  {
    HeadOfEncoded(p, after);
    if p.Published? {
      PublishEncoded(p.publish.value);
      MP.PublishRoundTrip(p.publish.value, after);
      ReadPublish(Encode(p) + after);
      hide Encode, MP.Serialize, Read, MP.Deserialize;
    } else {
      ReadShort(p, after);
    }
  }

  lemma ReadPublish(buf: seq<Byte>)
    requires buf != [] && MQTT_TYPE_PUBLISH <= buf[0] < MQTT_TYPE_PUBLISH + 16
    ensures KnownType(buf[0]) && Read(buf) == Published(MP.Deserialize(buf))
  {
  }

  lemma ReadShort(p: Packet, after: seq<Byte>)
    requires Complete(p) && !p.Published?
    ensures KnownType((Encode(p) + after)[0]) && Read(Encode(p) + after) == p
  {
    HeadOfEncoded(p, after);
    ShortBody(p, after);
    LengthOfEncoded(p, after);
    hide Encode, RL.ReadFixedHeader;
    match p {
      case Acked(_, id) => TakeSkip(Put16(id), after);
      case UnsubAcked(id) => TakeSkip(Put16(id), after);
      case SubAcked(id, qos) =>
        Assoc(Put16(id), [qos], after);
        TakeSkip(Put16(id), [qos] + after);
        TakeSkip([qos], after);
      case ConnAcked(code) =>
        SkipSkip(Encode(p) + after);
        Assoc([0], [code], after);
        TakeSkip([code], after);
      case PingResponded =>
    }
  }

  lemma SkipSkip(buf: seq<Byte>)
    ensures Skip(buf, 3) == Skip(Skip(buf, 2), 1)
  {
  }

  /** A receive buffer that starts with complete packets is split into exactly these
      packets, in order, and the loop ends, whatever lies behind them. */
  lemma {:induction false} SplitIsExact(ps: seq<Packet>, after: seq<Byte>)
    requires forall i :: 0 <= i < |ps| ==> Complete(ps[i])
    ensures Split(EncodeAll(ps) + after, |EncodeAll(ps)|) == (AllOnTheWire(ps), Emptied)
  {
    if ps == [] {
    } else {
      var p, rest := ps[0], EncodeAll(ps[1..]);
      assert Complete(p);
      assert forall i :: 0 <= i < |ps[1..]| ==> ps[1..][i] == ps[i + 1];
      SplitIsExact(ps[1..], after);
      Assoc(Encode(p), rest, after);
      SplitFirst(p, rest + after, |EncodeAll(ps)|);
      hide Encode, Split, Complete;
    }
  }

  /** The loop takes the first packet off. */
  lemma SplitFirst(p: Packet, after: seq<Byte>, length: nat)
    requires Complete(p) && length >= |Encode(p)|
    ensures var rest := Split(after, length - |Encode(p)|);
            Split(Encode(p) + after, length) == ([OnTheWire(p)] + rest.0, rest.1)
  {
    HeadOfEncoded(p, after);
    LengthOfEncoded(p, after);
    ReadEncoded(p, after);
    assert |Encode(p)| > 0;
    hide Encode, Read, PacketLength, KnownType, Complete;
  }

  // ----- when the loop ends

  /** The length of the packet in front, as the standard reckons it from the digits. */
  function Announced(buf: seq<Byte>): nat {
    var digits := RL.Digits(Skip(buf, 1));
    1 + |digits| + RL.Value(digits)
  }

  /** Going from packet to packet, among the bytes received there is one of a known type
      that announces a multiple of 65536 bytes. */
  predicate MeetsWrap(buf: seq<Byte>, recvLength: int)
    decreases recvLength
  {
    recvLength > 0 && buf != [] && KnownType(buf[0])
    && (Announced(buf) % 0x1_0000 == 0
        || MeetsWrap(Skip(buf, Announced(buf) % 0x1_0000), recvLength - Announced(buf) % 0x1_0000))
  }

  lemma PacketLengthIsAnnounced(buf: seq<Byte>)
    ensures PacketLength(buf) == Announced(buf) % 0x1_0000
  {
    var digits := RL.Digits(Skip(buf, 1));
    RL.DecodeIsValueModulo(digits);
    hide RL.Decode, RL.Digits, RL.Value;
    RL.WrapSum(RL.Value(digits), 1 + |digits|);
  }

  /** Whatever is received, the loop goes round for ever if and only if it meets such a
      packet. */
  lemma {:induction false} EndlessExactly(buf: seq<Byte>, recvLength: int)
    ensures Split(buf, recvLength).1 == Endless <==> MeetsWrap(buf, recvLength)
    decreases recvLength
  {
    SplitStep(buf, recvLength);
    PacketLengthIsAnnounced(buf);
    if recvLength > 0 && PacketLength(buf) != 0 {
      EndlessExactly(Skip(buf, PacketLength(buf)), recvLength - PacketLength(buf));
    }
    hide Split, KnownType, PacketLength, Announced;
  }

  /** A packet that keeps to the standard can be one: with 65532 bytes behind its header
      it is 65536 bytes long. */
  lemma LegalPacketHangs(head: Byte, after: seq<Byte>, recvLength: int)
    requires KnownType(head) && recvLength > 0
    ensures Announced(RL.FixedHeader(head, 65532) + after) == 65536
    ensures Split(RL.FixedHeader(head, 65532) + after, recvLength).1 == Endless
  {
    hide RL.Encode, RL.Digits, RL.Value, Split, KnownType;
    var digits := RL.Encode(65532);
    var buf := [head] + digits + after;
    RL.ValueOfEncode(65532);
    Assoc([head], digits, after);
    TakeSkip([head], digits + after);
    RL.DigitsOfEncode(65532, after);
    assert buf != [] && buf[0] == head;
    EndlessExactly(buf, recvLength);
  }

  /** Four bytes are enough. */
  lemma SplitCanHang()
    ensures Split([0x40, 0xFC, 0xFF, 0x03], 4).1 == Endless
  {
    assert RL.Encode(65532) == [0xFC] + RL.Encode(511) == [0xFC, 0xFF] + RL.Encode(3);
    LegalPacketHangs(0x40, [], 4);
    assert RL.FixedHeader(0x40, 65532) + [] == [0x40, 0xFC, 0xFF, 0x03];
    hide *;
  }

  lemma SplitStep(packet: seq<Byte>, recvLength: int)
    ensures recvLength <= 0 ==> Split(packet, recvLength) == ([], Emptied)
    ensures recvLength > 0 && (packet == [] || !KnownType(packet[0])) ==> Split(packet, recvLength) == ([], UnknownType)
    ensures recvLength > 0 && packet != [] && KnownType(packet[0]) ==>
              if PacketLength(packet) == 0 then Split(packet, recvLength) == ([Read(packet)], Endless)
              else var rest := Split(Skip(packet, PacketLength(packet)), recvLength - PacketLength(packet));
                   Split(packet, recvLength).0 == [Read(packet)] + rest.0 && Split(packet, recvLength).1 == rest.1
  {
    hide Read, KnownType, PacketLength, Skip;
  }

  /** The loop, which stops where the program would go round for ever. `received` is
      -1 if the read failed. The client is `disconnected` then, and by a PUBLISH that
      deserialize refuses. */
  method RecvAndFireEvent(buffer: seq<Byte>, received: int)
    returns (pushed: seq<Packet>, end: End, disconnected: bool)
    ensures pushed == Split(buffer, received).0 && end == Split(buffer, received).1
    ensures disconnected <==> received == -1 || Published(None) in pushed
  {
    hide *;
    pushed, disconnected := [], received == -1;
    var packet, recvLength := buffer, received;
    while recvLength > 0
      invariant Split(buffer, received).0 == pushed + Split(packet, recvLength).0
      invariant Split(buffer, received).1 == Split(packet, recvLength).1
      invariant disconnected <==> received == -1 || Published(None) in pushed
      decreases recvLength
    {
      SplitStep(packet, recvLength);
      if packet == [] || !KnownType(packet[0]) {
        return pushed, UnknownType, disconnected;
      }
      var packetLength := PacketLength(packet);
      Assoc(pushed, [Read(packet)], Split(Skip(packet, packetLength), recvLength - packetLength).0);
      pushed := pushed + [Read(packet)];
      disconnected := disconnected || Read(packet) == Published(None);
      if packetLength == 0 {
        return pushed, Endless, disconnected;
      }
      recvLength := recvLength - packetLength;
      packet := Skip(packet, packetLength);
    }
    SplitStep(packet, recvLength);
    end := Emptied;
  }
}
