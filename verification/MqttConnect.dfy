/** The MQTT CONNECT packet that the gateway assembles for a client, section 3.1 of MQTT 3.1.1. */
module MqttConnect {
  import opened Bytes
  import opened Sequences
  import opened Wrappers
  import RL = RemainingLength

  const TYPE_CONNECT: Byte := 0x10
  const MQTT_PROTOCOL_VER3: Byte := 3
  const MQTT_PROTOCOL_VER4: Byte := 4
  const MQTT_PROTOCOL_NAME3: Str := [0x4D, 0x51, 0x49, 0x73, 0x64, 0x70]
  const MQTT_PROTOCOL_NAME4: Str := [0x4D, 0x51, 0x54, 0x54]

  /** The fields of MQTTConnect, and its setters with their masks. */
  datatype Connect = Connect(flags: bv8, keepAlive: U16, userName: Str, password: Str,
                             willTopic: Str, willMessage: Str, clientId: Str, protocol: Byte) {
    function SetKeepAliveTime(sec: U16): Connect {
      this.(keepAlive := sec)
    }

    function SetUserName(name: Str): Connect {
      this.(userName := name, flags := (flags & 0x7E) | 0x80)
    }

    function SetPassword(pw: Str): Connect {
      this.(password := pw, flags := (flags & 0xBE) | 0x40)
    }

    function SetWillMessage(message: Str): Connect {
      this.(willMessage := message, flags := (flags & 0xFA) | 0x04)
    }

    function SetWillTopic(topic: Str): Connect {
      this.(willTopic := topic, flags := (flags & 0xFA) | 0x04)
    }

    function SetWillQos(qos: bv8): Connect {
      this.(flags := (flags & 0xE6) | (qos << 3))
    }

    function SetProtocol(version: Byte): Connect {
      this.(protocol := version)
    }

    function SetClientId(id: Str): Connect {
      this.(clientId := id)
    }

    function SetCleanSession(): Connect {
      this.(flags := (flags & 0xFC) | 0x02)
    }

    function ProtocolName(): Str {
      if protocol == MQTT_PROTOCOL_VER4 then MQTT_PROTOCOL_NAME4 else MQTT_PROTOCOL_NAME3
    }

    predicate SendsWill() {
      flags & 0x0C != 0
    }

    predicate SendsUserName() {
      flags & 0x80 != 0
    }

    predicate SendsPassword() {
      flags & 0x40 != 0
    }

    /** The length that serialize announces, before it is cut to 16 bits. */
    function Length(): nat {
      |ProtocolName()| + 6 + |Fields(this, SendsWill(), SendsUserName(), SendsPassword())|
    }

    /** The reserved bit is clear, and there is no will QoS without a will. */
    predicate FlagsConsistent() {
      flags & 0x01 == 0 && (flags & 0x04 == 0 ==> flags & 0x38 == 0)
    }
  }

  const NEW_CONNECT: Connect := Connect(0, 0, [], [], [], [], [], 0)

  /** The payload, given which of its optional parts are there. */
  function Fields(c: Connect, will: bool, user: bool, pw: bool): seq<Byte> {
    Utf(c.clientId) + WriteIf(will, c.willTopic) + WriteIf(will, c.willMessage)
    + WriteIf(user, c.userName) + WriteIf(pw, c.password)
  }

  function WriteIf(present: bool, s: Str): seq<Byte> {
    if present then Utf(s) else []
  }

  function VariableHeader(name: Str, level: Byte, flags: Byte, keepAlive: U16): seq<Byte> {
    Utf(name) + [level, flags] + Put16(keepAlive)
  }

  /** What is behind the fixed header. */
  function Body(c: Connect): seq<Byte> {
    BodyWith(c, c.flags as int, c.SendsWill(), c.SendsUserName(), c.SendsPassword())
  }

  function BodyWith(c: Connect, flags: Byte, will: bool, user: bool, pw: bool): seq<Byte> {
    VariableHeader(c.ProtocolName(), c.protocol, flags, c.keepAlive) + Fields(c, will, user, pw)
  }

  function Serialize(c: Connect): seq<Byte> {
    RL.FixedHeader(TYPE_CONNECT, c.Length() % 0x1_0000) + Body(c)
  }

  // ----- a reader that follows the standard

  datatype Will = Will(topic: Str, message: Str, qos: nat, retain: bool)

  datatype View = View(name: Str, level: Byte, clean: bool, keepAlive: U16, clientId: Str,
                       will: Option<Will>, userName: Option<Str>, password: Option<Str>)

  /** Reads a string if its flag is set. */
  function ReadIf(present: bool, s: seq<Byte>): (r: (Option<Str>, seq<Byte>)) {
    if present then var (v, rest) := ReadUtf(s); (Some(v), rest) else (None, s)
  }

  /** The connect flags, bit by bit. */
  datatype Flags = Flags(userName: bool, password: bool, willRetain: bool, willQos: nat, will: bool, clean: bool)

  function Bits(f: bv8): Flags {
    Flags(f & 0x80 != 0, f & 0x40 != 0, f & 0x20 != 0, ((f >> 3) & 0x03) as nat, f & 0x04 != 0, f & 0x02 != 0)
  }

  function ByteBits(b: Byte): Flags {
    Flags(b / 128 == 1, b / 64 % 2 == 1, b / 32 % 2 == 1, b / 8 % 4, b / 4 % 2 == 1, b / 2 % 2 == 1)
  }

  function ParseBody(s: seq<Byte>): (r: (View, seq<Byte>)) {
    var (name, s1) := ReadUtf(s);
    var levelAndFlags := Take(s1, 2);
    var (keepAlive, s2) := ReadWord(Skip(s1, 2));
    ParsePayload(name, levelAndFlags[0], ByteBits(levelAndFlags[1]), keepAlive, s2)
  }

  /** The payload fields are those that the flags announce, in the standard's order. */
  function ParsePayload(name: Str, level: Byte, f: Flags, keepAlive: U16, s: seq<Byte>): (r: (View, seq<Byte>)) {
    var (clientId, s1) := ReadUtf(s);
    var (topic, s2) := ReadIf(f.will, s1);
    var (message, s3) := ReadIf(f.will, s2);
    var (userName, s4) := ReadIf(f.userName, s3);
    var (password, s5) := ReadIf(f.password, s4);
    var will := if topic.None? || message.None? then None
                else Some(Will(topic.value, message.value, f.willQos, f.willRetain));
    (View(name, level, f.clean, keepAlive, clientId, will, userName, password), s5)
  }

  /** A CONNECT packet at the front of the broker's stream, its announced length,
      and what is behind it. */
  function Parse(stream: seq<Byte>): Option<(View, nat, seq<Byte>)> {
    var h := RL.ReadFixedHeader(stream);
    if h.0 != 0x10 || h.1 > |h.3| then None
    else Complete(ParseBody(h.3[..h.1]), 1 + h.2 + h.1, h.3[h.1..])
  }

  /** A body with bytes left over is malformed. */
  function Complete(body: (View, seq<Byte>), length: nat, after: seq<Byte>): Option<(View, nat, seq<Byte>)> {
    if body.1 != [] then None else Some((body.0, length, after))
  }

  function ViewOf(c: Connect): View {
    ViewWith(c, Bits(c.flags))
  }

  function ViewWith(c: Connect, f: Flags): View {
    View(c.ProtocolName(), c.protocol, f.clean, c.keepAlive, c.clientId,
         if f.will then Some(Will(c.willTopic, c.willMessage, f.willQos, f.willRetain)) else None,
         if f.userName then Some(c.userName) else None,
         if f.password then Some(c.password) else None)
  }

  // ----- the setters

  /** Each setter keeps the flags consistent and changes, in the broker's view,
      only the field it is for. */
  lemma SettersAreDisjoint(c: Connect, s: Str, qos: bv8)
    requires c.FlagsConsistent() && qos <= 2
    ensures var d := c.SetUserName(s); d.FlagsConsistent() && ViewOf(d) == ViewOf(c).(userName := Some(s))
    ensures var d := c.SetPassword(s); d.FlagsConsistent() && ViewOf(d) == ViewOf(c).(password := Some(s))
    ensures var d := c.SetCleanSession(); d.FlagsConsistent() && ViewOf(d) == ViewOf(c).(clean := true)
    ensures var d, f := c.SetWillTopic(s), Bits(c.flags);
            d.FlagsConsistent()
            && ViewOf(d) == ViewOf(c).(will := Some(Will(s, c.willMessage, f.willQos, f.willRetain)))
    ensures var d, f := c.SetWillMessage(s), Bits(c.flags);
            d.FlagsConsistent()
            && ViewOf(d) == ViewOf(c).(will := Some(Will(c.willTopic, s, f.willQos, f.willRetain)))
    ensures var d, f := c.SetWillQos(qos), Bits(c.flags);
            f.will ==>
              d.FlagsConsistent()
              && ViewOf(d) == ViewOf(c).(will := Some(Will(c.willTopic, c.willMessage, qos as nat, f.willRetain)))
  {
    UserBits(c.flags);
    WillBits(c.flags, qos);
  }

  lemma UserBits(f: bv8)
    ensures var g := (f & 0x7E) | 0x80; g & 0x01 == 0 && g & 0x80 != 0 && g & 0x7E == f & 0x7E
    ensures var g := (f & 0xBE) | 0x40; g & 0x01 == 0 && g & 0x40 != 0 && g & 0xBE == f & 0xBE
    ensures var g := (f & 0xFC) | 0x02; g & 0x01 == 0 && g & 0x02 != 0 && g & 0xFC == f & 0xFC
  {
  }

  lemma WillBits(f: bv8, qos: bv8)
    requires qos <= 2
    ensures var g := (f & 0xFA) | 0x04; g & 0x01 == 0 && g & 0x04 != 0 && g & 0xFA == f & 0xFA
    ensures var g := (f & 0xE6) | (qos << 3); g & 0x01 == 0 && g & 0xE6 == f & 0xE6 && (g >> 3) & 0x03 == qos
  {
  }

  // ----- what the broker reads

  lemma ReadIfPresent(present: bool, s: Str, tail: seq<Byte>)
    requires |WriteIf(present, s)| < 0x1_0000
    ensures ReadIf(present, WriteIf(present, s) + tail) == (if present then Some(s) else None, tail)
  {
    if present {
      ReadUtfUtf(s, tail);
    } else {
      assert [] + tail == tail;
    }
  }

  lemma FieldsGrouped(c: Connect, will: bool, user: bool, pw: bool)
    ensures Fields(c, will, user, pw)
            == Utf(c.clientId) + (WriteIf(will, c.willTopic) + (WriteIf(will, c.willMessage)
               + (WriteIf(user, c.userName) + (WriteIf(pw, c.password) + []))))
  {
  }

  lemma ParseFields(c: Connect, f: Flags)
    requires |Fields(c, f.will, f.userName, f.password)| < 0x1_0000
    ensures var fields := Fields(c, f.will, f.userName, f.password);
            ParsePayload(c.ProtocolName(), c.protocol, f, c.keepAlive, fields) == (ViewWith(c, f), [])
  {
    FieldsGrouped(c, f.will, f.userName, f.password);
    hide Fields, WriteIf, ReadUtf, ReadIf, Utf, Take, Skip;
    var s4 := WriteIf(f.password, c.password) + [];
    var s3 := WriteIf(f.userName, c.userName) + s4;
    var s2 := WriteIf(f.will, c.willMessage) + s3;
    var s1 := WriteIf(f.will, c.willTopic) + s2;
    ReadUtfUtf(c.clientId, s1);
    ReadIfPresent(f.will, c.willTopic, s2);
    ReadIfPresent(f.will, c.willMessage, s3);
    ReadIfPresent(f.userName, c.userName, s4);
    ReadIfPresent(f.password, c.password, []);
  }

  lemma LowestBit(g: bv8)
    ensures (g & 0x01 != 0) <==> (g as int) % 2 == 1
  {
  }

  lemma LowestTwo(g: bv8)
    ensures (g & 0x03) as int == (g as int) % 4
  {
  }

  lemma Shifts(f: bv8)
    ensures (f >> 1) as int == f as int / 2
    ensures (f >> 2) as int == f as int / 4
    ensures (f >> 3) as int == f as int / 8
  {
  }

  /** The reader's arithmetic on the flag byte sees the bits the masks set. */
  lemma HighBits(f: bv8)
    ensures (f & 0x80 != 0) <==> (f as int) / 128 == 1
    ensures (f & 0x40 != 0) <==> (f as int) / 64 % 2 == 1
    ensures (f & 0x20 != 0) <==> (f as int) / 32 % 2 == 1
  {
  }

  lemma LowBits(f: bv8)
    ensures ((f >> 3) & 0x03) as int == (f as int) / 8 % 4
    ensures (f & 0x04 != 0) <==> (f as int) / 4 % 2 == 1
    ensures (f & 0x02 != 0) <==> (f as int) / 2 % 2 == 1
  {
    Shifts(f);
    LowestTwo(f >> 3);
    LowestBit(f >> 2);
    LowestBit(f >> 1);
    assert (f & 0x04 != 0) <==> ((f >> 2) & 0x01 != 0);
    assert (f & 0x02 != 0) <==> ((f >> 1) & 0x01 != 0);
  }

  /** A consistent flag byte announces exactly the fields that serialize writes. */
  lemma Announced(c: Connect)
    requires c.FlagsConsistent()
    ensures ByteBits(c.flags as int) == Bits(c.flags)
    ensures var f := Bits(c.flags);
            f.will == c.SendsWill() && f.userName == c.SendsUserName() && f.password == c.SendsPassword()
  {
    HighBits(c.flags);
    LowBits(c.flags);
    WillFlag(c.flags);
  }

  lemma WillFlag(f: bv8)
    requires f & 0x04 == 0 ==> f & 0x38 == 0
    ensures f & 0x0C != 0 <==> f & 0x04 != 0
  {
  }

  lemma ParseBodyWith(c: Connect, b: Byte, f: Flags)
    requires ByteBits(b) == f && |Fields(c, f.will, f.userName, f.password)| < 0x1_0000
    ensures var header := VariableHeader(c.ProtocolName(), c.protocol, b, c.keepAlive);
            ParseBody(header + Fields(c, f.will, f.userName, f.password)) == (ViewWith(c, f), [])
  {
    var name := c.ProtocolName();
    var two: seq<Byte> := [c.protocol, b];
    var fields := Fields(c, f.will, f.userName, f.password);
    var tail := Put16(c.keepAlive) + fields;
    Assoc(Utf(name), two, tail);
    Assoc(Utf(name) + two, Put16(c.keepAlive), fields);
    ReadUtfUtf(name, two + tail);
    TakeSkip(two, tail);
    ReadWordPut16(c.keepAlive, fields);
    ParseFields(c, f);
  }

  lemma ParseBodyOf(c: Connect)
    requires c.FlagsConsistent() && c.Length() < 0x1_0000
    ensures ParseBody(Body(c)) == (ViewOf(c), [])
  {
    Announced(c);
    ParseBodyWith(c, c.flags as int, Bits(c.flags));
  }

  /** The announced length is that of the bytes that follow. */
  lemma LengthIsExact(c: Connect)
    ensures |Body(c)| == c.Length()
  {
  }

  lemma SerializedAsFrame(c: Connect)
    requires c.Length() < 0x1_0000
    ensures |Body(c)| == c.Length() && Serialize(c) == RL.FixedHeader(TYPE_CONNECT, |Body(c)|) + Body(c)
  {
    LengthIsExact(c);
  }

  /** Under 65536 bytes, serialize writes exactly the packet it announces, and a
      reader that follows the standard recovers every field and stops right
      behind it. */
  lemma ConnectIsRead(c: Connect, after: seq<Byte>)
    requires c.FlagsConsistent() && c.Length() < 0x1_0000
    ensures Parse(Serialize(c) + after) == Some((ViewOf(c), |Serialize(c)|, after))
  {
    hide *;
    SerializedAsFrame(c);
    ParseBodyOf(c);
    ParseFramed(Body(c), after, ViewOf(c));
  }

  lemma ParseFramed(body: seq<Byte>, after: seq<Byte>, view: View)
    requires |body| < 0x1_0000 && ParseBody(body) == (view, [])
    ensures var packet := RL.FixedHeader(TYPE_CONNECT, |body|) + body;
            Parse(packet + after) == Some((view, |packet|, after))
  {
    hide *;
    var header := RL.FixedHeader(TYPE_CONNECT, |body|);
    HeaderLength(|body|);
    Assoc(header, body, after);
    RL.ReadFixedHeaderOf(TYPE_CONNECT, |body|, body + after);
    CutBody(body, after);
    ParseInParts(header + body + after, |RL.Encode(|body|)|, body, after, view);
  }

  lemma HeaderLength(n: U16)
    ensures |RL.FixedHeader(TYPE_CONNECT, n)| == 1 + |RL.Encode(n)|
  {
    hide RL.Encode;
  }

  lemma CutBody(body: seq<Byte>, after: seq<Byte>)
    ensures (body + after)[..|body|] == body && (body + after)[|body|..] == after
  {
  }

  lemma ParseInParts(stream: seq<Byte>, digits: nat, body: seq<Byte>, after: seq<Byte>, view: View)
    requires |body| < 0x1_0000 && RL.ReadFixedHeader(stream) == (TYPE_CONNECT, |body|, digits, body + after)
    requires ParseBody(body) == (view, []) && (body + after)[..|body|] == body && (body + after)[|body|..] == after
    ensures Parse(stream) == Some((view, 1 + digits + |body|, after))
  {
    hide RL.ReadFixedHeader, ParseBody;
  }

  class MQTTConnect {
    var connectFlags: bv8
    var keepAliveTime: U16
    var userName: Str
    var password: Str
    var willTopic: Str
    var willMessage: Str
    var clientId: Str
    var protocol: Byte
    var remainLength: U16

    constructor ()
      ensures Packet() == NEW_CONNECT
    {
      connectFlags, keepAliveTime, protocol, remainLength := 0, 0, 0, 0;
      userName, password, willTopic, willMessage, clientId := [], [], [], [], [];
    }

    function Packet(): Connect
      reads this
    {
      Connect(connectFlags, keepAliveTime, userName, password, willTopic, willMessage, clientId, protocol)
    }

    method SetProtocol(version: Byte)
      modifies this`protocol
      ensures Packet() == old(Packet()).SetProtocol(version)
    {
      protocol := version;
    }

    method SetClientId(id: Str)
      modifies this`clientId
      ensures Packet() == old(Packet()).SetClientId(id)
    {
      clientId := id;
    }

    method SetKeepAliveTime(sec: U16)
      modifies this`keepAliveTime
      ensures Packet() == old(Packet()).SetKeepAliveTime(sec)
    {
      keepAliveTime := sec;
    }

    method SetUserName(name: Str)
      modifies this
      ensures Packet() == old(Packet()).SetUserName(name)
      ensures old(Packet()).FlagsConsistent() ==>
                Packet().FlagsConsistent() && ViewOf(Packet()) == ViewOf(old(Packet())).(userName := Some(name))
    {
      if Packet().FlagsConsistent() {
        SettersAreDisjoint(Packet(), name, 0);
      }
      userName := name;
      connectFlags := connectFlags & 0x7E;
      connectFlags := connectFlags | 0x80;
    }

    method SetPassword(pw: Str)
      modifies this
      ensures Packet() == old(Packet()).SetPassword(pw)
      ensures old(Packet()).FlagsConsistent() ==>
                Packet().FlagsConsistent() && ViewOf(Packet()) == ViewOf(old(Packet())).(password := Some(pw))
    {
      if Packet().FlagsConsistent() {
        SettersAreDisjoint(Packet(), pw, 0);
      }
      password := pw;
      connectFlags := connectFlags & 0xBE;
      connectFlags := connectFlags | 0x40;
    }

    method SetWillMessage(message: Str)
      modifies this
      ensures Packet() == old(Packet()).SetWillMessage(message)
      ensures old(Packet()).FlagsConsistent() ==>
                var f := Bits(old(connectFlags));
                Packet().FlagsConsistent()
                && ViewOf(Packet())
                   == ViewOf(old(Packet())).(will := Some(Will(willTopic, message, f.willQos, f.willRetain)))
    {
      if Packet().FlagsConsistent() {
        SettersAreDisjoint(Packet(), message, 0);
      }
      willMessage := message;
      connectFlags := connectFlags & 0xFA;
      connectFlags := connectFlags | 0x04;
    }

    method SetWillTopic(topic: Str)
      modifies this
      ensures Packet() == old(Packet()).SetWillTopic(topic)
      ensures old(Packet()).FlagsConsistent() ==>
                var f := Bits(old(connectFlags));
                Packet().FlagsConsistent()
                && ViewOf(Packet())
                   == ViewOf(old(Packet())).(will := Some(Will(topic, willMessage, f.willQos, f.willRetain)))
    {
      if Packet().FlagsConsistent() {
        SettersAreDisjoint(Packet(), topic, 0);
      }
      willTopic := topic;
      connectFlags := connectFlags & 0xFA;
      connectFlags := connectFlags | 0x04;
    }

    method SetWillQos(qos: bv8)
      modifies this
      ensures Packet() == old(Packet()).SetWillQos(qos)
      ensures old(Packet()).FlagsConsistent() && Bits(old(connectFlags)).will && qos <= 2 ==>
                var will := Will(willTopic, willMessage, qos as nat, Bits(old(connectFlags)).willRetain);
                Packet().FlagsConsistent() && ViewOf(Packet()) == ViewOf(old(Packet())).(will := Some(will))
    {
      if Packet().FlagsConsistent() && qos <= 2 {
        SettersAreDisjoint(Packet(), [], qos);
      }
      connectFlags := connectFlags & 0xE6;
      connectFlags := connectFlags | (qos << 3);
    }

    method SetCleanSessionFlg()
      modifies this
      ensures Packet() == old(Packet()).SetCleanSession()
      ensures old(Packet()).FlagsConsistent() ==>
                Packet().FlagsConsistent() && ViewOf(Packet()) == ViewOf(old(Packet())).(clean := true)
    {
      if Packet().FlagsConsistent() {
        SettersAreDisjoint(Packet(), [], 0);
      }
      connectFlags := connectFlags & 0xFC;
      connectFlags := connectFlags | 0x02;
    }

    method SerializeTo(buf: array<Byte>) returns (length: nat)
      requires Packet().Length() < 0x1_0000 && |Serialize(Packet())| <= buf.Length
      modifies buf, this`remainLength
      ensures length <= buf.Length && buf[..length] == Serialize(Packet())
      ensures remainLength == Packet().Length()
    {
      SerializedAsFrame(Packet());
      var will, user, pw := connectFlags & 0x0C != 0, connectFlags & 0x80 != 0, connectFlags & 0x40 != 0;
      length := SerializeWith(buf, connectFlags as int, will, user, pw);
    }

    /** The rest of serialize, the flag byte having been tested. */
    method SerializeWith(buf: array<Byte>, flags: Byte, will: bool, user: bool, pw: bool) returns (length: nat)
      requires |BodyWith(Packet(), flags, will, user, pw)| < 0x1_0000
      requires |RL.FixedHeader(TYPE_CONNECT, |BodyWith(Packet(), flags, will, user, pw)|)|
               + |BodyWith(Packet(), flags, will, user, pw)| <= buf.Length
      modifies buf, this`remainLength
      ensures length <= buf.Length
      ensures var body := BodyWith(Packet(), flags, will, user, pw);
              buf[..length] == RL.FixedHeader(TYPE_CONNECT, |body|) + body && remainLength == |body|
    {
      hide Fields;
      var name, len := MQTT_PROTOCOL_NAME3, 12;
      if protocol == MQTT_PROTOCOL_VER4 {
        name, len := MQTT_PROTOCOL_NAME4, 10;
      }
      len := AddFields(len, will, user, pw);
      remainLength := len;
      var pos := RL.StoreFixedHeader(buf, TYPE_CONNECT, len);
      pos := StoreHeader(buf, pos, name, flags);
      length := StoreFields(buf, pos, will, user, pw);
      Assoc(RL.FixedHeader(TYPE_CONNECT, len), VariableHeader(name, protocol, flags, keepAliveTime),
            Fields(Packet(), will, user, pw));
    }

    /** The length of the payload on top of `len`. */
    method AddFields(len: nat, will: bool, user: bool, pw: bool) returns (sum: nat)
      ensures sum == len + |Fields(Packet(), will, user, pw)|
    {
      sum := len + |clientId| + 2;
      if will {
        sum := sum + |willTopic| + 2;
        sum := sum + |willMessage| + 2;
      }
      if user {
        sum := sum + |userName| + 2;
      }
      if pw {
        sum := sum + |password| + 2;
      }
    }

    method StoreHeader(buf: array<Byte>, start: nat, name: Str, flags: Byte) returns (pos: nat)
      requires start + |VariableHeader(name, protocol, flags, keepAliveTime)| <= buf.Length
      modifies buf
      ensures pos <= buf.Length
      ensures buf[..pos] == old(buf[..start]) + VariableHeader(name, protocol, flags, keepAliveTime)
    {
      pos := Store(buf, start, Utf(name));
      pos := Store(buf, pos, [protocol, flags]);
      pos := Store(buf, pos, Put16(keepAliveTime));
    }

    method StoreIf(buf: array<Byte>, start: nat, present: bool, s: Str) returns (pos: nat)
      requires start + |WriteIf(present, s)| <= buf.Length
      modifies buf
      ensures pos == start + |WriteIf(present, s)| && buf[..pos] == old(buf[..start]) + WriteIf(present, s)
    {
      pos := start;
      if present {
        pos := Store(buf, pos, Utf(s));
      }
    }

    method StoreFields(buf: array<Byte>, start: nat, will: bool, user: bool, pw: bool) returns (pos: nat)
      requires start + |Fields(Packet(), will, user, pw)| <= buf.Length
      modifies buf
      ensures pos <= buf.Length && buf[..pos] == old(buf[..start]) + Fields(Packet(), will, user, pw)
    {
      ghost var before := buf[..start];
      pos := Store(buf, start, Utf(clientId));
      pos := StoreIf(buf, pos, will, willTopic);
      pos := StoreIf(buf, pos, will, willMessage);
      pos := StoreIf(buf, pos, user, userName);
      pos := StoreIf(buf, pos, pw, password);
      Regroup6(before, Utf(clientId), WriteIf(will, willTopic), WriteIf(will, willMessage),
               WriteIf(user, userName), WriteIf(pw, password));
    }
  }

  lemma Regroup6(w: seq<Byte>, a: seq<Byte>, b: seq<Byte>, c: seq<Byte>, d: seq<Byte>, e: seq<Byte>)
    ensures w + a + b + c + d + e == w + (a + b + c + d + e)
  {
    Assoc(w, a, b);
    Assoc(w, a + b, c);
    Assoc(w, a + b + c, d);
    Assoc(w, a + b + c + d, e);
  }
}
