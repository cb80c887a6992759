/** The MQTT PUBLISH packet, section 3.3 of MQTT 3.1.1. */
module MqttPublish {
  import opened Bytes
  import opened Sequences
  import opened Wrappers
  import RL = RemainingLength

  const TYPE_PUBLISH: Byte := 0x30

  // ----- isUtf8Valid

  /** How many continuation bytes the lead byte at `i` asks for, or None where
      the program gives up. */
  function Continuations(s: Str, i: nat): (n: Option<nat>)
    requires i < |s|
    ensures n.Some? ==> n.value <= 3
  {
    var c := s[i];
    if c <= 0x7F then Some(0)
    else if c / 32 == 6 then Some(1)
    else if c == 0xED && i + 1 < |s| && s[i + 1] / 128 == 1 && s[i + 1] / 32 % 2 == 1 then None
    else if c / 16 == 14 then Some(2)
    else if c / 8 == 30 then Some(3)
    else None
  }

  predicate IsContinuation(b: Byte) {
    b / 64 == 2
  }

  predicate Continued(s: Str, i: nat, n: nat) {
    i + n < |s| && forall k :: i < k <= i + n ==> IsContinuation(s[k])
  }

  predicate Utf8From(s: Str, i: nat)
    requires i <= |s|
    decreases |s| - i
  {
    i == |s| ||
    (var n := Continuations(s, i); n.Some? && Continued(s, i, n.value) && Utf8From(s, i + n.value + 1))
  }

  predicate Utf8Valid(s: Str) {
    Utf8From(s, 0)
  }

  // ----- UTF-8 as RFC 3629 has it

  predicate InRange(s: Str, i: nat, low: Byte, high: Byte) {
    i < |s| && low <= s[i] <= high
  }

  /** The length of the character at `i`, 0 if there is none: the table of section 4 of
      RFC 3629. */
  function CharLength(s: Str, i: nat): nat
    requires i < |s|
  {
    var c := s[i];
    if c <= 0x7F then 1
    else if 0xC2 <= c <= 0xDF && InRange(s, i + 1, 0x80, 0xBF) then 2
    else if c == 0xE0 && InRange(s, i + 1, 0xA0, 0xBF) && InRange(s, i + 2, 0x80, 0xBF) then 3
    else if 0xE1 <= c <= 0xEC && InRange(s, i + 1, 0x80, 0xBF) && InRange(s, i + 2, 0x80, 0xBF) then 3
    else if c == 0xED && InRange(s, i + 1, 0x80, 0x9F) && InRange(s, i + 2, 0x80, 0xBF) then 3
    else if 0xEE <= c <= 0xEF && InRange(s, i + 1, 0x80, 0xBF) && InRange(s, i + 2, 0x80, 0xBF) then 3
    else if c == 0xF0 && InRange(s, i + 1, 0x90, 0xBF) && LastTwo(s, i) then 4
    else if 0xF1 <= c <= 0xF3 && InRange(s, i + 1, 0x80, 0xBF) && LastTwo(s, i) then 4
    else if c == 0xF4 && InRange(s, i + 1, 0x80, 0x8F) && LastTwo(s, i) then 4
    else 0
  }

  predicate LastTwo(s: Str, i: nat) {
    InRange(s, i + 2, 0x80, 0xBF) && InRange(s, i + 3, 0x80, 0xBF)
  }

  predicate WellFormedFrom(s: Str, i: nat)
    requires i <= |s|
    decreases |s| - i
  {
    i == |s|
    || (var n := CharLength(s, i); n > 0 && i + n <= |s| && WellFormedFrom(s, i + n))
  }

  /** A character longer than it need be, or behind the last one, U+10FFFF. */
  predicate Loose(s: Str, i: nat)
    requires i < |s|
  {
    s[i] == 0xC0 || s[i] == 0xC1 || s[i] >= 0xF5
    || (i + 1 < |s| && ((s[i] == 0xE0 && s[i + 1] < 0xA0) || (s[i] == 0xF0 && s[i + 1] < 0x90)
                        || (s[i] == 0xF4 && s[i + 1] > 0x8F)))
  }

  /** Going from lead byte to lead byte, there is none. */
  predicate NoneLoose(s: Str, i: nat)
    decreases |s| - i
  {
    i >= |s|
    || (!Loose(s, i) && NoneLoose(s, i + if s[i] < 0xC0 then 1 else if s[i] < 0xE0 then 2
                                         else if s[i] < 0xF0 then 3 else 4))
  }

  /** What isUtf8Valid looks for at one place is a character of the standard, or a loose one. */
  lemma OneCharacter(s: Str, i: nat)
    requires i < |s|
    ensures var n := Continuations(s, i);
            if n.Some? && Continued(s, i, n.value) && !Loose(s, i)
            then CharLength(s, i) == n.value + 1 else CharLength(s, i) == 0
  {
    var n := Continuations(s, i);
    if n.Some? && Continued(s, i, n.value) {
      assert n.value >= 1 ==> IsContinuation(s[i + 1]);
      assert n.value >= 2 ==> IsContinuation(s[i + 2]);
      assert n.value >= 3 ==> IsContinuation(s[i + 3]);
    }
  }

  /** isUtf8Valid accepts exactly the strings that are well-formed but for loose characters:
      a string is UTF-8 if and only if it is accepted and has none. */
  lemma {:induction false} AcceptsExactly(s: Str, i: nat)
    requires i <= |s|
    ensures WellFormedFrom(s, i) <==> Utf8From(s, i) && NoneLoose(s, i)
    decreases |s| - i
  {
    if i < |s| {
      OneCharacter(s, i);
      var n := Continuations(s, i);
      if n.Some? && Continued(s, i, n.value) {
        AcceptsExactly(s, i + n.value + 1);
      }
      hide CharLength, Continued, Loose;
    }
  }

  /** It does accept loose characters: the two bytes C0 80 are one. */
  lemma AcceptsLoose()
    ensures Utf8Valid([0xC0, 0x80]) && !WellFormedFrom([0xC0, 0x80], 0)
  {
    var s: Str := [0xC0, 0x80];
    assert Continuations(s, 0) == Some(1) && Continued(s, 0, 1);
    assert Utf8From(s, 2);
  }

  /** The inner loop: are the `n` bytes behind `start` there, and continuations? */
  method CheckContinuations(s: Str, start: nat, n: nat) returns (i: nat, ok: bool)
    requires start < |s|
    ensures ok <==> Continued(s, start, n)
    ensures ok ==> i == start + n
  {
    i := start;
    var j := 0;
    while j < n
      invariant 0 <= j <= n && i == start + j < |s|
      invariant forall k :: start < k <= start + j ==> IsContinuation(s[k])
    {
      i := i + 1;
      if i == |s| || s[i] / 64 != 2 {
        assert i < |s| ==> !IsContinuation(s[i]);
        return i, false;
      }
      j := j + 1;
    }
    ok := true;
  }

  method IsUtf8Valid(s: Str) returns (valid: bool)
    ensures valid == Utf8Valid(s)
  {
    var i := 0;
    while i < |s|
      invariant 0 <= i <= |s|
      invariant Utf8Valid(s) == Utf8From(s, i)
    {
      var c := s[i];
      var n: nat;
      if c <= 0x7F {
        n := 0;
      } else if c / 32 == 6 {
        n := 1;
      } else if c == 0xED && i < |s| - 1 && s[i + 1] / 128 == 1 && s[i + 1] / 32 % 2 == 1 {
        return false;
      } else if c / 16 == 14 {
        n := 2;
      } else if c / 8 == 30 {
        n := 3;
      } else {
        return false;
      }
      var end, ok := CheckContinuations(s, i, n);
      if !ok {
        return false;
      }
      i := end + 1;
    }
    valid := true;
  }

  // ----- the packet

  /** The fields of MQTTPublish that reach the wire. The four flag bits are
      DUP, two bits of quality of service, and RETAIN. */
  datatype Publish = Publish(flags: Byte, topic: Str, messageId: U16, payload: seq<Byte>) {
    function Qos(): nat {
      flags / 2 % 4
    }

    predicate IsDup() {
      flags / 8 % 2 == 1
    }

    predicate IsRetain() {
      flags % 2 == 1
    }

    function SetQos(qos: nat): Publish {
      var f := flags - flags / 2 % 4 * 2;
      this.(flags := if qos == 1 then f + 2 else if qos == 2 then f + 4 else f)
    }

    function SetDup(): Publish {
      this.(flags := if IsDup() then flags else flags + 8)
    }

    function SetRetain(): Publish {
      this.(flags := if IsRetain() then flags else flags + 1)
    }

    function Remaining(): nat {
      |topic| + 2 + |payload| + if Qos() != 0 then 2 else 0
    }

    /** The program keeps the payload length in eight bits and the remaining
        length in sixteen. */
    predicate Sendable() {
      |payload| < 0x100 && Remaining() < 0x1_0000 && flags < 16
    }
  }

  /** What is behind the fixed header. */
  function Rest(p: Publish): seq<Byte> {
    Utf(p.topic) + (if p.Qos() != 0 then Put16(p.messageId) else []) + p.payload
  }

  function Serialize(p: Publish): seq<Byte> {
    RL.FixedHeader(TYPE_PUBLISH + p.flags % 16, p.Remaining() % 0x1_0000) + Rest(p)
  }

  /** deserialize, at the front of a zeroed buffer. */
  function Deserialize(buf: seq<Byte>): Option<Publish> {
    var (head, remaining, _, rest) := RL.ReadFixedHeader(buf);
    if head / 16 * 16 != TYPE_PUBLISH then None
    else ParseRest(head % 16, remaining, rest)
  }

  /** The part behind the fixed header. */
  function ParseRest(flags: Byte, remaining: U16, buf: seq<Byte>): Option<Publish> {
    var (topic, rest) := ReadUtf(buf);
    if !Utf8Valid(topic) then None
    else if flags / 2 % 4 != 0 then
      var (id, rest') := ReadWord(rest);
      Some(Publish(flags, topic, id, Take(rest', (remaining as int - |topic| - 4) % 0x100)))
    else
      Some(Publish(flags, topic, 0, Take(rest, (remaining as int - |topic| - 2) % 0x100)))
  }

  lemma ParseRestOfRest(p: Publish, after: seq<Byte>)
    requires p.Sendable() && Utf8Valid(p.topic)
    ensures ParseRest(p.flags, p.Remaining(), Rest(p) + after) == Some(if p.Qos() != 0 then p else p.(messageId := 0))
  {
    var tail := p.payload + after;
    TakeSkip(p.payload, after);
    if p.Qos() != 0 {
      var id := Put16(p.messageId);
      Assoc(Utf(p.topic) + id, p.payload, after);
      Assoc(Utf(p.topic), id, tail);
      ReadUtfUtf(p.topic, id + tail);
      ReadWordPut16(p.messageId, tail);
      ParseInParts(p, Rest(p) + after, id + tail, tail);
    } else {
      WithNothing(Utf(p.topic));
      Assoc(Utf(p.topic), p.payload, after);
      ReadUtfUtf(p.topic, tail);
      ParseInParts(p, Rest(p) + after, tail, tail);
    }
    hide Utf, Put16, ReadUtf, ReadWord, Take, Utf8Valid, ParseRest;
  }

  lemma ParseInParts(p: Publish, buf: seq<Byte>, rest: seq<Byte>, tail: seq<Byte>)
    requires p.Sendable() && Utf8Valid(p.topic) && ReadUtf(buf) == (p.topic, rest)
    requires if p.Qos() != 0 then ReadWord(rest) == (p.messageId, tail) else rest == tail
    requires Take(tail, |p.payload|) == p.payload
    ensures ParseRest(p.flags, p.Remaining(), buf) == Some(if p.Qos() != 0 then p else p.(messageId := 0))
  {
    hide ReadUtf, ReadWord, Take, Utf8Valid;
  }

  lemma HeaderOfSerialized(p: Publish, after: seq<Byte>)
    requires p.Sendable()
    ensures var r := RL.ReadFixedHeader(Serialize(p) + after);
            r.0 == TYPE_PUBLISH + p.flags && r.1 == p.Remaining() && r.3 == Rest(p) + after
  {
    hide RL.FixedHeader, RL.Encode, RL.ReadFixedHeader, Rest;
    Assoc(RL.FixedHeader(TYPE_PUBLISH + p.flags, p.Remaining()), Rest(p), after);
    RL.ReadFixedHeaderOf(TYPE_PUBLISH + p.flags, p.Remaining(), Rest(p) + after);
  }

  /** A packet with a payload of at most 255 bytes and a valid topic comes back
      field for field, whatever follows it in the buffer. The message id is on
      the wire only above quality of service 0. */
  lemma PublishRoundTrip(p: Publish, after: seq<Byte>)
    requires p.Sendable() && Utf8Valid(p.topic)
    ensures Deserialize(Serialize(p) + after) == Some(if p.Qos() != 0 then p else p.(messageId := 0))
  {
    HeaderOfSerialized(p, after);
    ParsedFrom(Serialize(p) + after, TYPE_PUBLISH + p.flags, p.Remaining(), Rest(p) + after);
    ParseRestOfRest(p, after);
  }

  lemma ParsedFrom(buf: seq<Byte>, head: Byte, remaining: U16, rest: seq<Byte>)
    requires TYPE_PUBLISH <= head < TYPE_PUBLISH + 16
    requires var r := RL.ReadFixedHeader(buf); r.0 == head && r.1 == remaining && r.3 == rest
    ensures Deserialize(buf) == ParseRest(head - TYPE_PUBLISH, remaining, rest)
  {
  }

  class MQTTPublish {
    var flags: Byte
    var topic: Str
    var messageId: U16
    var payload: seq<Byte>
    var remainLength: U16

    constructor ()
      ensures Packet() == Publish(0, [], 0, []) && remainLength == 0
    {
      flags, topic, messageId, payload, remainLength := 0, [], 0, [], 0;
    }

    ghost function Packet(): Publish
      reads this
    {
      Publish(flags, topic, messageId, payload)
    }

    method SerializeTo(buf: array<Byte>) returns (length: nat)
      requires |payload| < 0x100 && Packet().Remaining() < 0x1_0000
      requires |Serialize(Packet())| <= buf.Length
      modifies buf, this`remainLength
      ensures length <= buf.Length && buf[..length] == Serialize(Packet())
      ensures remainLength == Packet().Remaining()
    {
      remainLength := |topic| + 2 + |payload|;
      var qos := flags / 2 % 4;
      if qos != 0 {
        remainLength := remainLength + 2;
      }
      var pos := RL.StoreFixedHeader(buf, TYPE_PUBLISH + flags % 16, remainLength);
      length := StoreRest(buf, pos);
    }

    method StoreRest(buf: array<Byte>, start: nat) returns (pos: nat)
      requires start + |Rest(Packet())| <= buf.Length
      modifies buf
      ensures pos <= buf.Length && buf[..pos] == old(buf[..start]) + Rest(Packet())
    {
      pos := Store(buf, start, Utf(topic));
      if flags / 2 % 4 != 0 {
        pos := Store(buf, pos, Put16(messageId));
      }
      pos := Store(buf, pos, payload);
      assert buf[..pos] == old(buf[..start]) + Rest(Packet());
    }

    /** Parses the packet at the front of a zeroed buffer. When it fails, what
        has been parsed so far stays in the fields. */
    method DeserializeFrom(buf: seq<Byte>) returns (ok: bool)
      modifies this
      ensures ok == Deserialize(buf).Some?
      ensures ok ==> Packet() == (if Packet().Qos() != 0 then Deserialize(buf).value
                                  else Deserialize(buf).value.(messageId := old(messageId)))
    {
      var (head, remaining, _, rest) := RL.ReadFixedHeader(buf);
      if head / 16 * 16 != TYPE_PUBLISH {
        return false;
      }
      flags, remainLength := head % 16, remaining;
      var (topic', rest') := ReadUtf(rest);
      topic := topic';
      var valid := IsUtf8Valid(topic);
      if !valid {
        return false;
      }
      var header := 2;
      if flags / 2 % 4 != 0 {
        var (id, rest'') := ReadWord(rest');
        messageId, rest', header := id, rest'', header + 2;
      }
      payload := Take(rest', (remainLength as int - |topic| - header) % 0x100);
      return true;
    }
  }
}
