/** The client's MessagePack payload: values are set one after the other and read
    back by their index. */
module Payload {
  import opened Bytes
  import opened Sequences
  import opened Wrappers

  const MSGPACK_FALSE: Byte := 0xC2
  const MSGPACK_TRUE: Byte := 0xC3
  const MSGPACK_UINT8: Byte := 0xCC
  const MSGPACK_UINT16: Byte := 0xCD
  const MSGPACK_UINT32: Byte := 0xCE
  const MSGPACK_INT8: Byte := 0xD0
  const MSGPACK_INT16: Byte := 0xD1
  const MSGPACK_INT32: Byte := 0xD2
  const MSGPACK_FLOAT32: Byte := 0xCA
  const MSGPACK_FIXSTR: Byte := 0xA0
  const MSGPACK_STR8: Byte := 0xD9
  const MSGPACK_STR16: Byte := 0xDA
  const MSGPACK_ARRAY15: Byte := 0x90
  const MSGPACK_ARRAY16: Byte := 0xDC

  type I32 = n: int | -0x8000_0000 <= n < 0x8000_0000

  /** A value that can be set. A float is its four bytes. */
  datatype Element =
    | Bool(b: bool)
    | UInt32(u: U32)
    | Int32(i: I32)
    | Float(bytes: U32)
    | Str(s: Str)
    | Array(n: Byte)

  function EncodeUInt32(v: U32): seq<Byte> {
    if v < 128 then [v]
    else if v < 256 then [MSGPACK_UINT8, v]
    else if v < 65536 then [MSGPACK_UINT16] + Put16(v)
    else [MSGPACK_UINT32] + Put32(v)
  }

  /** The negative numbers above -32 keep only their two's complement byte. */
  function EncodeInt32(v: I32): seq<Byte> {
    if -32 < v < 0 then [256 + v]
    else if 0 <= v < 128 then [v]
    else if -128 < v < 128 then [MSGPACK_INT8, v % 256]
    else if -32768 < v < 32768 then [MSGPACK_INT16] + Put16(v % 0x1_0000)
    else [MSGPACK_INT32] + Put32(v % 0x1_0000_0000)
  }

  function EncodeStr(s: Str): seq<Byte> {
    (if |s| < 32 then [MSGPACK_FIXSTR as int + |s|]
     else if |s| < 256 then [MSGPACK_STR8, |s|]
     else if |s| < 65536 then [MSGPACK_STR16] + Put16(|s|)
     else [])
    + s
  }

  function Encode(e: Element): seq<Byte> {
    match e
    case Bool(b) => [if b then MSGPACK_TRUE else MSGPACK_FALSE]
    case UInt32(u) => EncodeUInt32(u)
    case Int32(i) => EncodeInt32(i)
    case Float(bytes) => [MSGPACK_FLOAT32] + Put32(bytes)
    case Str(s) => EncodeStr(s)
    case Array(n) => if n < 16 then [MSGPACK_ARRAY15 as int + n] else [MSGPACK_ARRAY16] + Put16(n)
  }

  /** The room that a setter asks for. */
  function Room(e: Element): nat {
    match e
    case Bool(_) => 1
    case Str(s) => |s| + 3
    case Array(n) => n + 1
    case _ => 6
  }

  /** No setter writes more than it has asked for; and what it asks for is six bytes for a
      number, three more than a string has, one more than an array has elements, and one for
      a truth value. */
  lemma FitsInRoom(e: Element)
    ensures |Encode(e)| <= Room(e)
    ensures Room(e) == if e.Bool? then 1 else if e.Str? then 3 + |e.s| else if e.Array? then 1 + e.n as int else 6
  {
  }

  // ----- the MessagePack format

  /** A value as the MessagePack specification knows it; a float is its four bytes. */
  datatype Value = Truth(b: bool) | Number(value: int) | Real(bytes: U32) | Text(s: Str) | ArrayOf(length: nat)

  /** The value at the front of `s`, by the format bytes of the MessagePack specification, and
      what is behind it. */
  function ReadValue(s: seq<Byte>): Option<(Value, seq<Byte>)> {
    if s == [] then None
    else
      var h, t := s[0] as int, s[1..];
      if h <= 0x7F then Some((Number(h), t))
      else if h >= 0xE0 then Some((Number(h - 256), t))
      else if 0x90 <= h <= 0x9F then Some((ArrayOf(h - 0x90), t))
      else if 0xA0 <= h <= 0xBF then ReadText(t, h - 0xA0)
      else if h == 0xC2 then Some((Truth(false), t))
      else if h == 0xC3 then Some((Truth(true), t))
      else if h == 0xCC && |t| >= 1 then Some((Number(t[0]), t[1..]))
      else if h == 0xCD && |t| >= 2 then Some((Number(Get16(t)), t[2..]))
      else if h == 0xCE && |t| >= 4 then Some((Number(Get32(t)), t[4..]))
      else if h == 0xD0 && |t| >= 1 then Some((Number(Signed(t[0], 0x80)), t[1..]))
      else if h == 0xD1 && |t| >= 2 then Some((Number(Signed(Get16(t), 0x8000)), t[2..]))
      else if h == 0xD2 && |t| >= 4 then Some((Number(Signed(Get32(t), 0x8000_0000)), t[4..]))
      else if h == 0xCA && |t| >= 4 then Some((Real(Get32(t)), t[4..]))
      else if h == 0xD9 && |t| >= 1 then ReadText(t[1..], t[0])
      else if h == 0xDA && |t| >= 2 then ReadText(t[2..], Get16(t))
      else if h == 0xDC && |t| >= 2 then Some((ArrayOf(Get16(t)), t[2..]))
      else None
  }

  function ReadText(t: seq<Byte>, n: nat): Option<(Value, seq<Byte>)> {
    if n <= |t| then Some((Text(t[..n]), t[n..])) else None
  }

  /** Two's complement. */
  function Signed(n: nat, half: nat): int {
    if n >= half then n - 2 * half else n
  }

  function ValueOf(e: Element): Value {
    match e
    case Bool(b) => Truth(b)
    case UInt32(u) => Number(u)
    case Int32(i) => Number(i)
    case Float(bytes) => Real(bytes)
    case Str(s) => Text(s)
    case Array(n) => ArrayOf(n)
  }

  /** What the setters write is MessagePack: a reader that follows the specification recovers
      every value, the small negative numbers included, and stops right behind it. */
  lemma WritesMessagePack(e: Element, after: seq<Byte>)
    requires e.Str? ==> |e.s| < 65536
    ensures ReadValue(Encode(e) + after) == Some((ValueOf(e), after))
  {
    match e {
      case UInt32(u) => WritesUInt32(u, after);
      case Int32(i) => WritesInt32(i, after);
      case Str(s) => WritesStr(s, after);
      case _ => WritesRest(e, after);
    }
    hide Encode, ReadValue;
  }

  /** A format byte, and what is behind it. */
  lemma FormatByte(h: Byte, rest: seq<Byte>, after: seq<Byte>)
    ensures ([h] + rest + after) != [] && ([h] + rest + after)[0] == h && ([h] + rest + after)[1..] == rest + after
  {
  }

  lemma WritesUInt32(u: U32, after: seq<Byte>)
    ensures ReadValue(EncodeUInt32(u) + after) == Some((Number(u), after))
  {
    NumberRead(u, after);
    hide Put16, Put32, Get16, Get32;
    if u < 128 {
      FormatByte(u, [], after);
      assert [u] + [] + after == [u] + after && [] + after == after;
    } else if u < 256 {
      FormatByte(MSGPACK_UINT8, [u], after);
      assert [MSGPACK_UINT8] + [u] == [MSGPACK_UINT8, u];
    } else if u < 65536 {
      FormatByte(MSGPACK_UINT16, Put16(u), after);
    } else {
      FormatByte(MSGPACK_UINT32, Put32(u), after);
    }
  }

  lemma WritesInt32(i: I32, after: seq<Byte>)
    ensures ReadValue(EncodeInt32(i) + after) == Some((Number(i), after))
  {
    if -128 < i < 128 {
      WritesInt8(i, after);
    } else {
      TwosComplement(i);
      hide Put16, Put32, Get16, Get32, Signed;
      if -32768 < i < 32768 {
        NumberRead(i % 0x1_0000, after);
        FormatByte(MSGPACK_INT16, Put16(i % 0x1_0000), after);
      } else {
        NumberRead(i % 0x1_0000_0000, after);
        FormatByte(MSGPACK_INT32, Put32(i % 0x1_0000_0000), after);
      }
    }
  }

  lemma TwosComplement(i: I32)
    ensures -32768 < i < 32768 ==> Signed(i % 0x1_0000, 0x8000) == i
    ensures Signed(i % 0x1_0000_0000, 0x8000_0000) == i
  {
  }

  lemma WritesInt8(i: I32, after: seq<Byte>)
    requires -128 < i < 128
    ensures ReadValue(EncodeInt32(i) + after) == Some((Number(i), after))
  {
    hide Get16, Get32;
    if -32 < i {
      var h: Byte := i % 256;
      FormatByte(h, [], after);
      assert [h] + [] + after == [h] + after && [] + after == after;
    } else {
      NumberRead(i % 256, after);
      FormatByte(MSGPACK_INT8, [i % 256], after);
      assert [MSGPACK_INT8] + [i % 256] == [MSGPACK_INT8, i % 256];
    }
  }

  lemma WritesStr(s: Str, after: seq<Byte>)
    requires |s| < 65536
    ensures ReadValue(EncodeStr(s) + after) == Some((Text(s), after))
  {
    TextRead(s, after);
    if |s| < 32 {
      Assoc([MSGPACK_FIXSTR + |s|], s, after);
      FormatByte(MSGPACK_FIXSTR + |s|, s, after);
      hide ReadText, Get16, Get32;
    } else {
      WritesLongStr(s, after);
      hide EncodeStr, ReadValue;
    }
  }

  lemma WritesLongStr(s: Str, after: seq<Byte>)
    requires 32 <= |s| < 65536
    ensures ReadValue(EncodeStr(s) + after) == Some((Text(s), after))
  {
    var behind := s + after;
    var h := if |s| < 256 then MSGPACK_STR8 else MSGPACK_STR16;
    var n := if |s| < 256 then [|s|] else Put16(|s|);
    TextRead(s, after);
    NumberRead(|s|, behind);
    Assoc([h], n, behind);
    assert EncodeStr(s) == [h] + n + s;
    Assoc([h] + n, s, after);
    FormatByte(h, n, behind);
    assert EncodeStr(s) + after == [h] + n + behind;
    hide Put16, Put32, Get16, Get32, ReadText, EncodeStr;
  }

  lemma TextRead(s: Str, after: seq<Byte>)
    ensures ReadText(s + after, |s|) == Some((Text(s), after))
  {
    assert (s + after)[..|s|] == s && (s + after)[|s|..] == after;
  }

  lemma WritesRest(e: Element, after: seq<Byte>)
    requires e.Bool? || e.Float? || e.Array?
    ensures ReadValue(Encode(e) + after) == Some((ValueOf(e), after))
  {
    if e.Float? {
      NumberRead(e.bytes, after);
      FormatByte(MSGPACK_FLOAT32, Put32(e.bytes), after);
    } else if e.Array? && e.n >= 16 {
      NumberRead(e.n, after);
      FormatByte(MSGPACK_ARRAY16, Put16(e.n), after);
    } else {
      var h := Encode(e)[0];
      FormatByte(h, [], after);
      assert [h] + [] + after == [h] + after && [] + after == after;
    }
    hide Put16, Put32, Get16, Get32;
  }

  lemma NumberRead(n: U32, after: seq<Byte>)
    ensures n < 0x1_0000 ==> Get16(Put16(n) + after) == n && (Put16(n) + after)[2..] == after
    ensures Get32(Put32(n) + after) == n && (Put32(n) + after)[4..] == after
    ensures n < 256 ==> ([n] + after)[0] == n && ([n] + after)[1..] == after
  {
    if n < 0x1_0000 {
      Get16Put16(n, after);
    }
    Get32Put32(n, after);
  }

  // ----- reading back

  /** How far getBufferPos moves on over the element at the front of `s`. */
  function Size(s: seq<Byte>): nat {
    var h := Take(s, 1)[0];
    var rest := Skip(s, 1);
    if h == MSGPACK_FALSE || h == MSGPACK_TRUE then 1
    else if h == MSGPACK_UINT8 || h == MSGPACK_INT8 then 2
    else if h == MSGPACK_UINT16 || h == MSGPACK_INT16 || h == MSGPACK_ARRAY16 then 3
    else if h == MSGPACK_UINT32 || h == MSGPACK_INT32 || h == MSGPACK_FLOAT32 then 5
    else if h == MSGPACK_STR8 then Take(rest, 1)[0] as int + 2
    else if h == MSGPACK_STR16 then Get16(Take(rest, 2)) as int + 3
    else if h < 0x80 || h >= 0xE0 || (h >= 0x80 && h / 16 % 2 == 1) then 1
    else if h >= 0x80 && h / 32 % 2 == 1 then h - MSGPACK_FIXSTR as int
    else 0
  }

  /** getBufferPos: what is at the position it returns. */
  function At(s: seq<Byte>, index: nat): seq<Byte>
    decreases index
  {
    if index == 0 then s else At(Skip(s, Size(s)), index - 1)
  }

  function GetBool(s: seq<Byte>): bool {
    Take(s, 1)[0] != MSGPACK_FALSE
  }

  function GetUInt32(s: seq<Byte>): U32 {
    var h := Take(s, 1)[0];
    var rest := Skip(s, 1);
    if h == MSGPACK_UINT32 then Get32(Take(rest, 4))
    else if h == MSGPACK_UINT16 then Get16(Take(rest, 2))
    else if h == MSGPACK_UINT8 then Take(rest, 1)[0]
    else if h < 128 then h
    else 0
  }

  function GetInt32(s: seq<Byte>): I32 {
    var h := Take(s, 1)[0];
    var rest := Skip(s, 1);
    if h == MSGPACK_INT32 then
      var d := Get32(Take(rest, 4));
      if d >= 0x8000_0000 then d - 0x1_0000_0000 else d
    else if h == MSGPACK_INT16 then
      var d := Get16(Take(rest, 2));
      if d >= 32768 then d - 65536 else d
    else if h == MSGPACK_INT8 then Take(rest, 1)[0]
    else if h >= 0xE0 then -(h as int - 0xE0)
    else h
  }

  /** 0 stands for a float that is not there. */
  function GetFloat(s: seq<Byte>): U32 {
    if Take(s, 1)[0] == MSGPACK_FLOAT32 then Get32(Take(Skip(s, 1), 4)) else 0
  }

  function GetStr(s: seq<Byte>): Option<Str> {
    var h := Take(s, 1)[0];
    var rest := Skip(s, 1);
    if h == MSGPACK_STR16 then Some(Take(Skip(rest, 2), Get16(Take(rest, 2))))
    else if h == MSGPACK_STR8 then Some(Take(Skip(rest, 1), Take(rest, 1)[0]))
    else if h >= 0x80 || h / 32 % 2 == 1 then
      var h' := if h >= 0x80 then h - 0x80 else h;
      Some(Take(rest, if h' / 32 % 2 == 1 then h' - 32 else h'))
    else None
  }

  function GetArray(s: seq<Byte>): Byte {
    var h := Take(s, 1)[0];
    if h == MSGPACK_ARRAY15 then 0
    else if h == MSGPACK_ARRAY16 then Get16(Take(Skip(s, 1), 2)) % 256
    else 0
  }

  /** The getter that belongs to a value returns it. */
  predicate ReadsBack(e: Element, s: seq<Byte>) {
    match e
    case Bool(b) => GetBool(s) == b
    case UInt32(u) => GetUInt32(s) == u
    case Int32(i) => GetInt32(s) == i
    case Float(bytes) => GetFloat(s) == bytes
    case Str(v) => GetStr(s) == Some(v)
    case Array(n) => GetArray(s) == n
  }

  /** The values that come back: not the negative numbers of one or two bytes, save
      -16, nor the headers of arrays of 1 to 15. */
  predicate Faithful(e: Element) {
    match e
    case Int32(i) => i <= -128 || i >= 0 || i == -16
    case Array(n) => n == 0 || n >= 16
    case _ => true
  }

  /** The values that the walk steps over as a whole: not the strings under 32 bytes. */
  predicate Walkable(e: Element) {
    e.Str? ==> 32 <= |e.s| < 65536
  }

  lemma HeadOf(h: Byte, rest: seq<Byte>)
    ensures Take([h] + rest, 1)[0] == h && Skip([h] + rest, 1) == rest
  {
    TakeSkip([h], rest);
  }

  lemma SizeOfNumber(e: Element, after: seq<Byte>)
    requires e.UInt32? || e.Int32? || e.Float? || e.Bool? || e.Array?
    ensures Size(Encode(e) + after) == |Encode(e)|
  {
    var h := Encode(e)[0];
    assert Encode(e) + after == [h] + (Encode(e)[1..] + after);
    HeadOf(h, Encode(e)[1..] + after);
    hide Take, Skip, Put16, Put32;
  }

  lemma SizeOfStr(s: Str, after: seq<Byte>)
    requires |s| < 65536
    ensures Size(EncodeStr(s) + after) == |EncodeStr(s)| <==> |s| >= 32
  {
    var h := EncodeStr(s)[0];
    assert EncodeStr(s) + after == [h] + (EncodeStr(s)[1..] + after);
    HeadOf(h, EncodeStr(s)[1..] + after);
    if 32 <= |s| < 256 {
      assert EncodeStr(s)[1..] + after == [|s|] + (s + after);
      HeadOf(|s|, s + after);
    } else if |s| >= 256 {
      assert EncodeStr(s)[1..] + after == Put16(|s|) + (s + after);
      TakeSkip(Put16(|s|), s + after);
    }
    hide Take, Skip;
  }

  /** The walk steps over a value exactly if it is no short string. */
  lemma SizeExactly(e: Element, after: seq<Byte>)
    requires e.Str? ==> |e.s| < 65536
    ensures Size(Encode(e) + after) == |Encode(e)| <==> Walkable(e)
  {
    if e.Str? {
      SizeOfStr(e.s, after);
    } else {
      SizeOfNumber(e, after);
    }
  }

  lemma ReadUInt32(u: U32, after: seq<Byte>)
    ensures GetUInt32(EncodeUInt32(u) + after) == u
  {
    if u < 128 {
      HeadOf(u, after);
    } else if u < 256 {
      assert EncodeUInt32(u) + after == [MSGPACK_UINT8] + ([u] + after);
      HeadOf(MSGPACK_UINT8, [u] + after);
      HeadOf(u, after);
    } else if u < 65536 {
      Assoc([MSGPACK_UINT16], Put16(u), after);
      HeadOf(MSGPACK_UINT16, Put16(u) + after);
      TakeSkip(Put16(u), after);
      Get16Put16(u, []);
      WithNothing(Put16(u));
    } else {
      Assoc([MSGPACK_UINT32], Put32(u), after);
      HeadOf(MSGPACK_UINT32, Put32(u) + after);
      TakeSkip(Put32(u), after);
      Get32Put32(u, []);
      WithNothing(Put32(u));
    }
    hide Take, Skip, Put16, Put32, Get16, Get32;
  }

  lemma ReadInt8(i: I32, after: seq<Byte>)
    requires -128 < i < 128
    ensures GetInt32(EncodeInt32(i) + after) == i <==> Faithful(Int32(i))
  {
    if -32 < i {
      HeadOf(EncodeInt32(i)[0], after);
    } else {
      assert EncodeInt32(i) + after == [MSGPACK_INT8] + ([i % 256] + after);
      HeadOf(MSGPACK_INT8, [i % 256] + after);
      HeadOf(i % 256, after);
    }
    hide Take, Skip;
  }

  lemma ReadInt16(i: I32, after: seq<Byte>)
    requires -32768 < i < 32768 && !(-128 < i < 128)
    ensures GetInt32(EncodeInt32(i) + after) == i
  {
    var d: U16 := i % 0x1_0000;
    Assoc([MSGPACK_INT16], Put16(d), after);
    HeadOf(MSGPACK_INT16, Put16(d) + after);
    TakeSkip(Put16(d), after);
    Get16Put16(d, []);
    WithNothing(Put16(d));
    hide Take, Skip, Put16, Get16;
  }

  lemma ReadInt32(i: I32, after: seq<Byte>)
    ensures GetInt32(EncodeInt32(i) + after) == i <==> Faithful(Int32(i))
  {
    if -128 < i < 128 {
      ReadInt8(i, after);
    } else if -32768 < i < 32768 {
      ReadInt16(i, after);
    } else {
      var d: U32 := i % 0x1_0000_0000;
      Assoc([MSGPACK_INT32], Put32(d), after);
      HeadOf(MSGPACK_INT32, Put32(d) + after);
      TakeSkip(Put32(d), after);
      Get32Put32(d, []);
      WithNothing(Put32(d));
    }
    hide Take, Skip, Put32, Get32;
  }

  lemma ReadStr(s: Str, after: seq<Byte>)
    requires |s| < 65536
    ensures GetStr(EncodeStr(s) + after) == Some(s)
  {
    TakeSkip(s, after);
    if |s| < 32 {
      Assoc([MSGPACK_FIXSTR + |s|], s, after);
      HeadOf(MSGPACK_FIXSTR + |s|, s + after);
    } else if |s| < 256 {
      assert EncodeStr(s) + after == [MSGPACK_STR8] + ([|s|] + (s + after));
      HeadOf(MSGPACK_STR8, [|s|] + (s + after));
      HeadOf(|s|, s + after);
    } else {
      var n := Put16(|s|);
      assert EncodeStr(s) + after == [MSGPACK_STR16] + (n + (s + after));
      HeadOf(MSGPACK_STR16, n + (s + after));
      TakeSkip(n, s + after);
      Get16Put16(|s|, []);
      WithNothing(n);
    }
    hide Take, Skip, Put16, Get16;
  }

  lemma ReadRest(e: Element, after: seq<Byte>)
    requires e.Bool? || e.Float? || e.Array?
    ensures ReadsBack(e, Encode(e) + after) <==> Faithful(e)
  {
    if e.Float? {
      Assoc([MSGPACK_FLOAT32], Put32(e.bytes), after);
      HeadOf(MSGPACK_FLOAT32, Put32(e.bytes) + after);
      TakeSkip(Put32(e.bytes), after);
      Get32Put32(e.bytes, []);
      WithNothing(Put32(e.bytes));
    } else if e.Array? && e.n >= 16 {
      Assoc([MSGPACK_ARRAY16], Put16(e.n), after);
      HeadOf(MSGPACK_ARRAY16, Put16(e.n) + after);
      TakeSkip(Put16(e.n), after);
      Get16Put16(e.n, []);
      WithNothing(Put16(e.n));
    } else {
      HeadOf(Encode(e)[0], after);
    }
    hide Take, Skip, Put16, Put32, Get16, Get32;
  }

  /** At its own position a value comes back from its getter exactly if it is one of
      the faithful ones. */
  lemma ReadsBackExactly(e: Element, after: seq<Byte>)
    requires e.Str? ==> |e.s| < 65536
    ensures ReadsBack(e, Encode(e) + after) <==> Faithful(e)
  {
    match e {
      case UInt32(u) => ReadUInt32(u, after);
      case Int32(i) => ReadInt32(i, after);
      case Str(s) => ReadStr(s, after);
      case _ => ReadRest(e, after);
    }
    hide EncodeUInt32, EncodeInt32, EncodeStr, GetUInt32, GetInt32, GetStr;
  }

  function EncodeAll(es: seq<Element>): seq<Byte> {
    if es == [] then [] else Encode(es[0]) + EncodeAll(es[1..])
  }

  lemma {:induction false} EncodeAllSnoc(es: seq<Element>, e: Element)
    ensures EncodeAll(es + [e]) == EncodeAll(es) + Encode(e)
  {
    if es == [] {
      assert [] + [e] == [e] && [e][1..] == [];
      WithNothing(Encode(e));
    } else {
      assert (es + [e])[1..] == es[1..] + [e];
      EncodeAllSnoc(es[1..], e);
      Assoc(Encode(es[0]), EncodeAll(es[1..]), Encode(e));
    }
  }

  /** Random access: whatever walkable values have been set, and whatever lies behind
      them, the walk to an index lands on the start of that element. */
  lemma {:induction false} WalkLands(es: seq<Element>, after: seq<Byte>, i: nat)
    requires i < |es| && forall k :: 0 <= k < |es| ==> Walkable(es[k])
    ensures At(EncodeAll(es) + after, i) == Encode(es[i]) + (EncodeAll(es[i + 1..]) + after)
    decreases i
  {
    var rest := EncodeAll(es[1..]) + after;
    Assoc(Encode(es[0]), EncodeAll(es[1..]), after);
    if i > 0 {
      assert Walkable(es[0]);
      SizeExactly(es[0], rest);
      TakeSkip(Encode(es[0]), rest);
      assert forall k :: 0 <= k < |es[1..]| ==> es[1..][k] == es[k + 1];
      WalkLands(es[1..], after, i - 1);
      assert es[1..][i..] == es[i + 1..];
      hide Encode, Size, Take, Skip, Walkable, EncodeAll;
    }
  }

  /** So an index below the number of values set gives the value back exactly if that
      value is faithful. */
  lemma RandomAccess(es: seq<Element>, after: seq<Byte>, i: nat)
    requires i < |es| && forall k :: 0 <= k < |es| ==> Walkable(es[k])
    ensures ReadsBack(es[i], At(EncodeAll(es) + after, i)) <==> Faithful(es[i])
  {
    WalkLands(es, after, i);
    assert Walkable(es[i]);
    ReadsBackExactly(es[i], EncodeAll(es[i + 1..]) + after);
  }

  class Payload {
    const buff: array<Byte>
    var pos: nat

    constructor (len: U16)
      ensures fresh(buff) && buff.Length == len && pos == 0
    {
      buff := new Byte[len](_ => 0);
      pos := 0;
    }

    ghost predicate Valid()
      reads this
    {
      pos <= buff.Length < 0x1_0000
    }

    ghost function Data(): seq<Byte>
      reads this, buff
      requires Valid()
    {
      buff[..pos]
    }

    /** What setting a value does: it is appended if there is room for it, and else
        refused without a byte being written. */
    twostate predicate Did(e: Element, rc: int)
      reads this, buff
      requires old(Valid())
    {
      && Valid()
      && (rc == 0 <==> Room(e) <= buff.Length - old(pos))
      && (if rc == 0 then Data() == old(Data()) + Encode(e)
          else rc == -1 && pos == old(pos) && buff[..] == old(buff[..]))
    }

    method Init()
      requires Valid()
      modifies this`pos
      ensures Valid() && Data() == []
    {
      pos := 0;
    }

    method SetUInt32(val: U32) returns (rc: int)
      requires Valid()
      modifies this`pos, buff
      ensures Did(UInt32(val), rc)
    {
      if buff.Length - pos < 6 {
        return -1;
      }
      if val < 128 {
        pos := Store(buff, pos, [val]);
      } else if val < 256 {
        pos := Store(buff, pos, [MSGPACK_UINT8, val]);
      } else if val < 65536 {
        pos := Store(buff, pos, [MSGPACK_UINT16] + Put16(val));
      } else {
        pos := Store(buff, pos, [MSGPACK_UINT32] + Put32(val));
      }
      rc := 0;
    }

    method SetInt32(val: I32) returns (rc: int)
      requires Valid()
      modifies this`pos, buff
      ensures Did(Int32(val), rc)
    {
      if buff.Length - pos < 6 {
        return -1;
      }
      if val > -32 && val < 0 {
        pos := Store(buff, pos, [256 + val]);
      } else if val >= 0 && val < 128 {
        pos := Store(buff, pos, [val]);
      } else if val > -128 && val < 128 {
        pos := Store(buff, pos, [MSGPACK_INT8, val % 256]);
      } else if val > -32768 && val < 32768 {
        pos := Store(buff, pos, [MSGPACK_INT16] + Put16(val % 0x1_0000));
      } else {
        pos := Store(buff, pos, [MSGPACK_INT32] + Put32(val % 0x1_0000_0000));
      }
      rc := 0;
    }

    method SetFloat(bytes: U32) returns (rc: int)
      requires Valid()
      modifies this`pos, buff
      ensures Did(Float(bytes), rc)
    {
      if buff.Length - pos < 6 {
        return -1;
      }
      pos := Store(buff, pos, [MSGPACK_FLOAT32] + Put32(bytes));
      rc := 0;
    }

    method SetStr(val: Str) returns (rc: int)
      requires Valid()
      modifies this`pos, buff
      ensures Did(Str(val), rc)
    {
      ghost var before := buff[..pos];
      var header: seq<Byte> := [];
      if buff.Length - pos < |val| + 3 {
        return -1;
      } else if |val| < 32 {
        header := [MSGPACK_FIXSTR + |val|];
      } else if |val| < 256 {
        header := [MSGPACK_STR8, |val|];
      } else if |val| < 65536 {
        header := [MSGPACK_STR16] + Put16(|val|);
      }
      pos := Store(buff, pos, header);
      Assoc(before, header, val);
      pos := Store(buff, pos, val);
      rc := 0;
    }

    method SetArray(val: Byte) returns (rc: int)
      requires Valid()
      modifies this`pos, buff
      ensures Did(Array(val), rc)
    {
      if buff.Length - pos < val as int + 1 {
        return -1;
      }
      if val < 16 {
        pos := Store(buff, pos, [MSGPACK_ARRAY15 + val]);
      } else {
        pos := Store(buff, pos, [MSGPACK_ARRAY16] + Put16(val));
      }
      rc := 0;
    }

    method SetBool(val: bool) returns (rc: int)
      requires Valid()
      modifies this`pos, buff
      ensures Did(Bool(val), rc)
    {
      if buff.Length - pos < 1 {
        return -1;
      }
      if val {
        pos := Store(buff, pos, [MSGPACK_TRUE]);
      } else {
        pos := Store(buff, pos, [MSGPACK_FALSE]);
      }
      rc := 0;
    }

    /** The walk. Its 8-bit counter never gets past 255, so it ends for smaller indices. */
    method GetBufferPos(index: Byte) returns (bpos: nat)
      requires index < 255
      ensures Skip(buff[..], bpos) == At(buff[..], index)
    {
      var offset: nat := 0;
      bpos := 0;
      var i := 0;
      while i <= index
        invariant 0 <= i <= index + 1
        invariant i <= index ==> At(buff[..], index) == At(Skip(buff[..], offset), index - i)
        invariant i == index + 1 ==> Skip(buff[..], bpos) == At(buff[..], index)
      {
        bpos := offset;
        var s := Skip(buff[..], offset);
        SkipTwice(buff[..], offset, Size(s));
        offset := offset + Size(s);
        i := i + 1;
      }
    }
  }

  lemma SkipTwice(s: seq<Byte>, m: nat, n: nat)
    ensures Skip(Skip(s, m), n) == Skip(s, m + n)
  {
  }
}
