/** Bytes and the big-endian integers that client and gateway put on the wire. */
module Bytes {
  type Byte = b: int | 0 <= b < 0x100
  type U16 = n: int | 0 <= n < 0x1_0000
  type U32 = n: int | 0 <= n < 0x1_0000_0000

  /** setUint16: most significant byte first. */
  function Put16(v: U16): (s: seq<Byte>)
    ensures |s| == 2
  {
    [v / 256, v % 256]
  }

  /** getUint16 at the front of `s`. */
  function Get16(s: seq<Byte>): U16
    requires |s| >= 2
  {
    s[0] as int * 256 + s[1]
  }

  function Put32(v: U32): (s: seq<Byte>)
    ensures |s| == 4
  {
    Put16(v / 0x1_0000) + Put16(v % 0x1_0000)
  }

  function Get32(s: seq<Byte>): U32
    requires |s| >= 4
  {
    Get16(s) as int * 0x1_0000 + Get16(s[2..])
  }

  lemma Get16Put16(v: U16, rest: seq<Byte>)
    ensures Get16(Put16(v) + rest) == v
  {
  }

  lemma Get32Put32(v: U32, rest: seq<Byte>)
    ensures Get32(Put32(v) + rest) == v
  {
    var hi, lo := Put16(v / 0x1_0000), Put16(v % 0x1_0000);
    assert hi + lo + rest == hi + (lo + rest);
    assert (hi + (lo + rest))[2..] == lo + rest;
  }

  function Sum(s: seq<Byte>): nat {
    if s == [] then 0 else s[0] + Sum(s[1..])
  }

  lemma {:induction false} SumConcat(s: seq<Byte>, t: seq<Byte>)
    ensures Sum(s + t) == Sum(s) + Sum(t)
  {
    if s == [] {
      assert s + t == t;
    } else {
      assert (s + t)[1..] == s[1..] + t;
      SumConcat(s[1..], t);
    }
  }

  lemma SumSnoc(s: seq<Byte>, b: Byte)
    ensures Sum(s + [b]) == Sum(s) + b
  {
    SumConcat(s, [b]);
    assert [b][1..] == [];
  }

  /** The strings of both programs: topic names, client ids, will messages. */
  type Str = seq<Byte>

  /** utfSerialize: a 16-bit length and the characters. */
  function Utf(s: Str): (r: seq<Byte>)
    ensures |r| == 2 + |s|
  {
    Put16(|s| % 0x1_0000) + s
  }

  function Zeros(n: nat): (r: seq<Byte>)
    ensures |r| == n
  {
    if n == 0 then [] else [0] + Zeros(n - 1)
  }

  /** The first `n` bytes of a zeroed buffer that starts with `s`. */
  function Take(s: seq<Byte>, n: nat): (r: seq<Byte>)
    ensures |r| == n
  {
    if n <= |s| then s[..n] else s + Zeros(n - |s|)
  }

  /** What is behind them. */
  function Skip(s: seq<Byte>, n: nat): seq<Byte> {
    if n <= |s| then s[n..] else []
  }

  lemma TakeSkip(a: seq<Byte>, b: seq<Byte>)
    ensures Take(a + b, |a|) == a && Skip(a + b, |a|) == b
  {
  }

  /** A 16-bit number at the front of a zeroed buffer, and what is behind it. */
  function ReadWord(s: seq<Byte>): (U16, seq<Byte>) {
    (Get16(Take(s, 2)), Skip(s, 2))
  }

  /** A string with its length in front, and what is behind it. */
  function ReadUtf(s: seq<Byte>): (Str, seq<Byte>) {
    var (n, rest) := ReadWord(s);
    (Take(rest, n), Skip(rest, n))
  }

  lemma ReadWordPut16(v: U16, tail: seq<Byte>)
    ensures ReadWord(Put16(v) + tail) == (v, tail)
  {
    TakeSkip(Put16(v), tail);
  }

  lemma ReadUtfUtf(s: Str, tail: seq<Byte>)
    requires |s| < 0x1_0000
    ensures ReadUtf(Utf(s) + tail) == (s, tail)
  {
    assert Utf(s) + tail == Put16(|s|) + (s + tail);
    ReadWordPut16(|s|, s + tail);
    TakeSkip(s, tail);
  }

  /** memcpy behind the `pos` bytes already written. */
  method Store(buf: array<Byte>, pos: nat, bytes: seq<Byte>) returns (end: nat)
    requires pos + |bytes| <= buf.Length
    modifies buf
    ensures end == pos + |bytes|
    ensures buf[..end] == old(buf[..pos]) + bytes
  {
    forall k | 0 <= k < |bytes| {
      buf[pos + k] := bytes[k];
    }
    end := pos + |bytes|;
    assert buf[..pos] == old(buf[..pos]);
    assert buf[pos..end] == bytes;
    assert buf[..end] == buf[..pos] + buf[pos..end];
  }
}
