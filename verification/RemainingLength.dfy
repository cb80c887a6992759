/** The remaining length of an MQTT packet, section 2.2.3 of MQTT 3.1.1. */
module RemainingLength {
  import opened Bytes
  import opened Sequences

  /** encode: seven bits a digit, least significant digit first. */
  function Encode(n: U16): (s: seq<Byte>)
    ensures 1 <= |s|
    decreases n
  {
    if n < 128 then [n] else [n % 128 + 128] + Encode(n / 128)
  }

  /** decode(), with the program's 16-bit multiplier and 16-bit sum. */
  function DecodeFrom(digits: seq<Byte>, multiplier: U16, value: U16): U16 {
    if digits == [] then value
    else
      var value' := (value + digits[0] % 128 * multiplier) % 0x1_0000;
      if digits[0] < 128 then value' else DecodeFrom(digits[1..], multiplier * 128 % 0x1_0000, value')
  }

  function Decode(digits: seq<Byte>): U16 {
    DecodeFrom(digits, 1, 0)
  }

  /** deserialize: the digits at the front of a zeroed buffer. */
  function Digits(s: seq<Byte>): (r: seq<Byte>)
    ensures 1 <= |r|
  {
    if s == [] then [0]
    else if s[0] < 128 then [s[0]]
    else [s[0]] + Digits(s[1..])
  }

  /** The value the standard gives to a digit string. */
  function Value(digits: seq<Byte>): nat {
    if digits == [] then 0
    else if digits[0] < 128 then digits[0]
    else digits[0] - 128 + 128 * Value(digits[1..])
  }

  lemma Wrap(x: int, k: int)
    ensures (x + 0x1_0000 * k) % 0x1_0000 == x % 0x1_0000
  {
  }

  lemma WrapSum(x: int, y: int)
    ensures (x % 0x1_0000 + y) % 0x1_0000 == (x + y) % 0x1_0000
  {
  }

  lemma WrapProduct(d: nat, k: nat)
    ensures d * (k % 0x1_0000) % 0x1_0000 == d * k % 0x1_0000
  {
    var q := k / 0x1_0000;
    assert k == k % 0x1_0000 + 0x1_0000 * q;
    calc {
      d * k;
      d * (k % 0x1_0000 + 0x1_0000 * q);
      d * (k % 0x1_0000) + 0x1_0000 * (d * q);
    }
    Wrap(d * (k % 0x1_0000), d * q);
  }

  /** One round of decode(), computed modulo 65536, in unbounded arithmetic. */
  lemma Round(value: nat, d: nat, multiplier: nat, k: nat, v: nat)
    requires multiplier == k % 0x1_0000
    ensures multiplier * 128 % 0x1_0000 == 128 * k % 0x1_0000
    ensures (value + d * multiplier) % 0x1_0000 == (value + k * d) % 0x1_0000
    ensures ((value + d * multiplier) % 0x1_0000 + 128 * k * v) % 0x1_0000 == (value + k * (d + 128 * v)) % 0x1_0000
  {
    WrapProduct(128, k);
    WrapProduct(d, k);
    WrapSum(d * multiplier, value);
    WrapSum(d * k, value);
    WrapSum(value + d * k, 128 * k * v);
    Distribute(k, d, v);
  }

  lemma Distribute(k: nat, d: nat, v: nat)
    ensures k * (d + 128 * v) == d * k + 128 * k * v
  {
  }

  /** One digit of the loop, and of the value. */
  lemma OneDigit(digits: seq<Byte>, multiplier: U16, value: U16)
    requires digits != []
    ensures var d, last := digits[0] % 128, digits[0] < 128;
            var next := (value + d * multiplier) % 0x1_0000;
            DecodeFrom(digits, multiplier, value)
            == (if last then next else DecodeFrom(digits[1..], multiplier * 128 % 0x1_0000, next))
            && Value(digits) == d + 128 * if last then 0 else Value(digits[1..])
  {
  }

  lemma {:induction false} DecodeFromIsValue(digits: seq<Byte>, multiplier: U16, value: U16, k: nat)
    requires multiplier == k % 0x1_0000
    ensures DecodeFrom(digits, multiplier, value) == (value + k * Value(digits)) % 0x1_0000
  {
    if digits == [] {
      assert k * Value(digits) == 0;
    } else {
      OneDigit(digits, multiplier, value);
      hide DecodeFrom, Value;
      var d := digits[0] % 128;
      Round(value, d, multiplier, k, if digits[0] < 128 then 0 else Value(digits[1..]));
      if digits[0] >= 128 {
        var next := (value + d * multiplier) % 0x1_0000;
        DecodeFromIsValue(digits[1..], multiplier * 128 % 0x1_0000, next, 128 * k);
      }
    }
  }

  /** What decode() computes for any digits is the standard's value modulo 65536. */
  lemma DecodeIsValueModulo(digits: seq<Byte>)
    ensures Decode(digits) == Value(digits) % 0x1_0000
  {
    DecodeFromIsValue(digits, 1, 0, 1);
  }

  lemma {:induction false} ValueOfEncode(n: U16)
    ensures Value(Encode(n)) == n
    ensures |Encode(n)| == if n < 0x80 then 1 else if n < 0x4000 then 2 else 3
    decreases n
  {
    if n >= 128 {
      ValueOfEncode(n / 128);
      assert Encode(n)[1..] == Encode(n / 128);
    }
  }

  lemma {:induction false} DigitsOfEncode(n: U16, after: seq<Byte>)
    ensures Digits(Encode(n) + after) == Encode(n)
    decreases n
  {
    if n >= 128 {
      assert (Encode(n) + after)[1..] == Encode(n / 128) + after;
      DigitsOfEncode(n / 128, after);
    }
  }

  /** Every 16-bit length survives being written into a buffer and read back,
      in one to three digits. */
  lemma RoundTrip(n: U16, after: seq<Byte>)
    ensures Digits(Encode(n) + after) == Encode(n)
    ensures Decode(Encode(n)) == n && 1 <= |Encode(n)| <= 3
  {
    DigitsOfEncode(n, after);
    ValueOfEncode(n);
    DecodeIsValueModulo(Encode(n));
  }

  /** The fixed header of an MQTT packet: type and flags, then the length. */
  function FixedHeader(head: Byte, n: U16): seq<Byte> {
    [head] + Encode(n)
  }

  /** Type and flags, length, number of length digits, and what is behind. */
  function ReadFixedHeader(buf: seq<Byte>): (Byte, U16, nat, seq<Byte>) {
    var digits := Digits(Skip(buf, 1));
    (Take(buf, 1)[0], Decode(digits), |digits|, Skip(Skip(buf, 1), |digits|))
  }

  lemma ReadFixedHeaderOf(head: Byte, n: U16, tail: seq<Byte>)
    ensures ReadFixedHeader(FixedHeader(head, n) + tail) == (head, n, |Encode(n)|, tail)
  {
    Assoc([head], Encode(n), tail);
    TakeSkip([head], Encode(n) + tail);
    RoundTrip(n, tail);
    TakeSkip(Encode(n), tail);
  }

  class RemainingLength {
    const digit: array<Byte>
    var size: nat

    constructor ()
      ensures fresh(digit) && digit.Length == 4 && size == 0
    {
      digit := new Byte[4](_ => 0);
      size := 0;
    }

    method EncodeLength(length: U16)
      requires digit.Length == 4
      modifies this, digit
      ensures size == |Encode(length)| <= 3 && digit[..size] == Encode(length)
    {
      ValueOfEncode(length);
      var len: U16 := length;
      size := 0;
      var more := true;
      while more
        invariant 0 <= size <= 3
        invariant if more then digit[..size] + Encode(len) == Encode(length) else digit[..size] == Encode(length)
        decreases more, len
      {
        ValueOfEncode(len);
        assert size < 3;
        var d: Byte := len % 128;
        var left := len / 128;
        if left > 0 {
          d := d + 128;
        }
        ghost var was := digit[..size];
        assert left > 0 ==> was + ([d] + Encode(left)) == was + [d] + Encode(left);
        digit[size] := d;
        size := size + 1;
        assert digit[..size] == was + [d];
        len, more := left, left > 0;
      }
    }

    method DecodeLength() returns (value: U16)
      requires 1 <= size <= digit.Length == 4 && digit[size - 1] < 128
      ensures value == Decode(digit[..size])
    {
      var multiplier: U16 := 1;
      value := 0;
      var pos := 0;
      ghost var all := digit[..size];
      while true
        invariant 0 <= pos < size
        invariant DecodeFrom(digit[pos..size], multiplier, value) == Decode(all)
        decreases size - pos
      {
        var d := digit[pos];
        assert digit[pos..size][1..] == digit[pos + 1..size];
        pos := pos + 1;
        value := (value + d % 128 * multiplier) % 0x1_0000;
        multiplier := multiplier * 128 % 0x1_0000;
        if d < 128 {
          break;
        }
      }
    }
  }

  /** Writes a fixed header at the front of `buf`. */
  method StoreFixedHeader(buf: array<Byte>, head: Byte, length: U16) returns (pos: nat)
    requires |FixedHeader(head, length)| <= buf.Length
    modifies buf
    ensures pos <= buf.Length && buf[..pos] == FixedHeader(head, length)
  {
    var rem := new RemainingLength();
    rem.EncodeLength(length);
    pos := Store(buf, 0, [head]);
    pos := Store(buf, pos, rem.digit[..rem.size]);
  }
}
