/** The XBee API frame: START, then the escaped length, frame data and checksum. */
module XBeeFrame {
  import opened Bytes
  import opened Wrappers

  const START: Byte := 0x7E
  const ESCAPE: Byte := 0x7D
  const XON: Byte := 0x11
  const XOFF: Byte := 0x13

  const API_REQUEST: Byte := 0x10
  const API_RESPONSE: Byte := 0x90
  const API_MODEMSTATUS: Byte := 0x8A
  const API_XMITSTATUS: Byte := 0x8B

  /** One read of the serial port: a byte, or nothing there yet. The end of a
      sequence of attempts is the moment the caller's timer runs out. */
  datatype Attempt = Got(b: Byte) | Dry

  predicate Special(b: Byte) {
    b == START || b == ESCAPE || b == XON || b == XOFF
  }

  /** `b ^ 0x20` */
  function Flip(b: Byte): Byte {
    if b / 32 % 2 == 0 then b + 32 else b - 32
  }

  function Escape(b: Byte): seq<Byte> {
    if Special(b) then [ESCAPE, Flip(b)] else [b]
  }

  function EscapeAll(s: seq<Byte>): seq<Byte> {
    if s == [] then [] else Escape(s[0]) + EscapeAll(s[1..])
  }

  function Checksum(data: seq<Byte>): Byte {
    255 - Sum(data) % 256
  }

  /** What is escaped between START and the next frame: length, data and a
      checksum byte, right or wrong. */
  function Body(data: seq<Byte>, check: Byte): seq<Byte>
    requires |data| < 256
  {
    [0, |data|] + data + [check]
  }

  function FrameWith(data: seq<Byte>, check: Byte): seq<Byte>
    requires |data| < 256
  {
    [START] + EscapeAll(Body(data, check))
  }

  function Frame(data: seq<Byte>): seq<Byte>
    requires |data| < 256
  {
    FrameWith(data, Checksum(data))
  }

  /** What both senders put around their data: the length is cut to a byte. */
  function Block(data: seq<Byte>, check: Byte): seq<Byte> {
    [START] + EscapeAll([0, |data| % 256] + data + [check])
  }

  /** The bytes that a sequence of read attempts delivers. */
  function Content(attempts: seq<Attempt>): seq<Byte> {
    if attempts == [] then []
    else if attempts[0].Dry? then Content(attempts[1..])
    else [attempts[0].b] + Content(attempts[1..])
  }

  /** The four special bytes are escaped by 0x7D and go out with their bit 0x20 inverted; all
      others go out as they are. */
  lemma EscapesExactly(b: bv8)
    ensures Escape(b as int)
            == if b == 0x7E || b == 0x7D || b == 0x11 || b == 0x13 then [0x7D, (b ^ 0x20) as int] else [b as int]
  {
  }

  /** A transmit request as the API frame format lays it out. */
  datatype TxRequest = TxRequest(frameId: Byte, address64: seq<Byte>, address16: seq<Byte>, radius: Byte,
                                 options: Byte, payload: seq<Byte>)

  function ReadTxRequest(data: seq<Byte>): Option<TxRequest> {
    if |data| < 14 || data[0] != 0x10 then None
    else Some(TxRequest(data[1], data[2..10], data[10..12], data[12], data[13], data[14..]))
  }

  lemma {:induction false} EscapeAllConcat(s: seq<Byte>, t: seq<Byte>)
    ensures EscapeAll(s + t) == EscapeAll(s) + EscapeAll(t)
  {
    if s == [] {
      assert s + t == t;
    } else {
      assert (s + t)[1..] == s[1..] + t;
      EscapeAllConcat(s[1..], t);
    }
  }

  /** Escaping loses nothing. */
  lemma {:induction false} EscapeAllInjective(s: seq<Byte>, t: seq<Byte>)
    requires EscapeAll(s) == EscapeAll(t)
    ensures s == t
  {
    if s == [] || t == [] {
      EscapedLength(s);
      EscapedLength(t);
    } else {
      assert EscapeAll(s)[0] == EscapeAll(t)[0];
      assert Special(s[0]) ==> EscapeAll(s)[1] == EscapeAll(t)[1];
      assert s[0] == t[0];
      assert EscapeAll(s)[|Escape(s[0])|..] == EscapeAll(s[1..]);
      assert EscapeAll(t)[|Escape(t[0])|..] == EscapeAll(t[1..]);
      EscapeAllInjective(s[1..], t[1..]);
      assert s == [s[0]] + s[1..] && t == [t[0]] + t[1..];
    }
  }

  ghost predicate IsFrame(bytes: seq<Byte>) {
    exists data: seq<Byte>, check: Byte :: |data| < 256 && bytes == FrameWith(data, check)
  }

  /** What is sent is a frame if and only if there are fewer than 256 bytes of data. */
  lemma BlockIsFrameExactly(data: seq<Byte>, check: Byte)
    ensures |data| < 256 ==> Block(data, check) == FrameWith(data, check)
    ensures IsFrame(Block(data, check)) <==> |data| < 256
  {
    if IsFrame(Block(data, check)) {
      var d: seq<Byte>, c: Byte :| |d| < 256 && Block(data, check) == FrameWith(d, c);
      assert Block(data, check)[1..] == EscapeAll([0, |data| % 256] + data + [check]);
      assert FrameWith(d, c)[1..] == EscapeAll(Body(d, c));
      EscapeAllInjective([0, |data| % 256] + data + [check], Body(d, c));
      assert |[0, |data| % 256] + data + [check]| == |data| + 3;
    }
  }

  lemma EscapeAllSnoc(s: seq<Byte>, b: Byte)
    ensures EscapeAll(s + [b]) == EscapeAll(s) + Escape(b)
  {
    EscapeAllConcat(s, [b]);
    assert EscapeAll([b]) == Escape(b) + EscapeAll([b][1..]);
  }

  lemma {:induction false} NoStartInEscaped(s: seq<Byte>)
    ensures START !in EscapeAll(s)
  {
    if s != [] {
      NoStartInEscaped(s[1..]);
    }
  }

  /** A frame holds START at its first byte and nowhere else, so a receiver can
      always find the start of the next frame. */
  lemma OnlyOneStart(data: seq<Byte>, check: Byte)
    requires |data| < 256
    ensures var f := FrameWith(data, check);
            forall i :: 0 <= i < |f| ==> (f[i] == START <==> i == 0)
  {
    NoStartInEscaped(Body(data, check));
    var e := EscapeAll(Body(data, check));
    forall i | 0 < i < |FrameWith(data, check)|
      ensures FrameWith(data, check)[i] != START
    {
      assert FrameWith(data, check)[i] == e[i - 1];
    }
  }

  lemma {:induction false} EscapedLength(s: seq<Byte>)
    ensures |EscapeAll(s)| >= |s|
    ensures |EscapeAll(s)| == |s| <==> forall b | b in s :: !Special(b)
    ensures |EscapeAll(s)| == |s| ==> EscapeAll(s) == s
  {
    if s != [] {
      EscapedLength(s[1..]);
      assert s == [s[0]] + s[1..];
    }
  }

  /** Changing one byte of the data, or the checksum, breaks the checksum. */
  lemma OneByteChangeBreaksChecksum(data: seq<Byte>, i: nat, b: Byte)
    requires i < |data| && b != data[i]
    ensures Checksum(data[i := b]) != Checksum(data)
  {
    assert data == data[..i] + [data[i]] + data[i + 1..];
    assert data[i := b] == data[..i] + [b] + data[i + 1..];
    SumConcat(data[..i] + [data[i]], data[i + 1..]);
    SumConcat(data[..i] + [b], data[i + 1..]);
    SumSnoc(data[..i], data[i]);
    SumSnoc(data[..i], b);
    var rest := Sum(data[..i]) + Sum(data[i + 1..]);
    assert (rest + b) % 256 != (rest + data[i]) % 256;
  }
}
