/** The client's serial network: its own frame decoder and its own frame writer. */
module NetworkXBee {
  import opened Bytes
  import opened Sequences
  import opened Wrappers
  import opened XBeeFrame

  /** Read attempts up to and including the first that yields a byte, if any does. */
  function Await(line: seq<Attempt>): (r: (bool, Byte, seq<Attempt>))
    ensures |r.2| <= |line| && (r.0 ==> |r.2| < |line|)
  {
    if line == [] then (false, 0, [])
    else if line[0].Dry? then Await(line[1..])
    else (true, line[0].b, line[1..])
  }

  /** recvByte: one byte, with its escape undone. A time-out leaves the caller's
      buffer as the last successful read left it. */
  function RecvByte(buf: Byte, line: seq<Attempt>): (r: (Byte, seq<Attempt>))
    ensures |r.1| <= |line|
  {
    var (got, b, rest) := Await(line);
    if !got then (buf, rest)
    else if b != ESCAPE then (b, rest)
    else
      var (got2, b2, rest2) := Await(rest);
      if got2 then (Flip(b2), rest2) else (b, rest2)
  }

  function RecvBlock(n: nat, buf: Byte, line: seq<Attempt>): (r: (seq<Byte>, Byte, seq<Attempt>))
    ensures |r.0| == n && |r.2| <= |line|
  {
    if n == 0 then ([], buf, line)
    else
      var (b, rest) := RecvByte(buf, line);
      var (block, last, rest') := RecvBlock(n - 1, b, rest);
      ([b] + block, last, rest')
  }

  /** readApiFrame(): length, data and checksum, after START has been seen. */
  function RecvFrame(line: seq<Attempt>): (r: (bool, seq<Byte>, seq<Attempt>))
    ensures |r.2| <= |line|
  {
    var (msb, l1) := RecvByte(0, line);
    var (len, l2) := RecvByte(msb, l1);
    var (data, last, l3) := RecvBlock(len, len, l2);
    var (check, l4) := RecvByte(last, l3);
    (check == Checksum(data), data, l4)
  }

  /** The search for START that precedes it. */
  function Hunt(line: seq<Attempt>): (r: (bool, seq<Byte>, seq<Attempt>))
    ensures |r.2| <= |line|
  {
    if line == [] then (false, [], [])
    else if line[0] == Got(START) then RecvFrame(line[1..])
    else Hunt(line[1..])
  }

  // ----- frames are decoded wherever the port runs dry

  lemma {:induction false} AwaitContent(line: seq<Attempt>, more: seq<Attempt>) returns (left: seq<Attempt>)
    requires Content(line) != []
    ensures Await(line + more) == (true, Content(line)[0], left + more) && Content(left) == Content(line)[1..]
    ensures (line[|line| - 1].Got? && left != [] ==> left[|left| - 1].Got?) && |left| < |line|
  {
    assert (line + more)[1..] == line[1..] + more;
    if line[0].Dry? {
      left := AwaitContent(line[1..], more);
    } else {
      left := line[1..];
    }
  }

  lemma {:induction false} RecvByteContent(buf: Byte, b: Byte, s: seq<Byte>, line: seq<Attempt>,
        more: seq<Attempt>) returns (left: seq<Attempt>)
    requires Content(line) == Escape(b) + s
    ensures RecvByte(buf, line + more) == (b, left + more) && Content(left) == s
    ensures line[|line| - 1].Got? && left != [] ==> left[|left| - 1].Got?
  {
    left := AwaitContent(line, more);
    if Special(b) {
      assert Content(left) == [Flip(b)] + s;
      left := AwaitContent(left, more);
    }
  }

  lemma {:induction false} RecvBlockContent(buf: Byte, data: seq<Byte>, s: seq<Byte>, line: seq<Attempt>,
        more: seq<Attempt>)
      returns (last: Byte, left: seq<Attempt>)
    requires Content(line) == EscapeAll(data) + s
    ensures RecvBlock(|data|, buf, line + more) == (data, last, left + more) && Content(left) == s
    ensures line != [] && line[|line| - 1].Got? && left != [] ==> left[|left| - 1].Got?
    decreases |data|
  {
    if data == [] {
      last, left := buf, line;
      assert Content(line) == s;
    } else {
      assert EscapeAll(data) + s == Escape(data[0]) + (EscapeAll(data[1..]) + s);
      var left1 := RecvByteContent(buf, data[0], EscapeAll(data[1..]) + s, line, more);
      last, left := RecvBlockContent(data[0], data[1..], s, left1, more);
      assert data == [data[0]] + data[1..];
    }
  }

  lemma {:induction false} ClosingGot(left: seq<Attempt>)
    requires left != [] ==> left[|left| - 1].Got?
    requires Content(left) == []
    ensures left == []
  {
    if left != [] {
      if left[0].Dry? {
        ClosingGot(left[1..]);
      }
    }
  }

  lemma EscapedPair(a: Byte, b: Byte)
    ensures EscapeAll([a, b]) == Escape(a) + Escape(b)
  {
    EscapeAllSnoc([a], b);
    EscapeAllSnoc([], a);
    assert [a] + [b] == [a, b] && [] + [a] == [a];
  }

  lemma EscapedBody(data: seq<Byte>, check: Byte)
    requires |data| < 256
    ensures EscapeAll(Body(data, check)) == Escape(0) + (Escape(|data|) + (EscapeAll(data) + Escape(check)))
  {
    Assoc([0, |data|], data, [check]);
    EscapedPair(0, |data|);
    EscapeAllConcat([0, |data|], data + [check]);
    EscapeAllSnoc(data, check);
    Assoc(Escape(0), Escape(|data|), EscapeAll(data) + Escape(check));
    hide Escape, EscapeAll;
  }

  lemma RecvFrameContent(data: seq<Byte>, check: Byte, line: seq<Attempt>, more: seq<Attempt>)
    requires |data| < 256
    requires line != [] && line[|line| - 1].Got?
    requires Content(line) == EscapeAll(Body(data, check))
    ensures RecvFrame(line + more) == (check == Checksum(data), data, more)
  {
    EscapedBody(data, check);
    hide *;
    var n := |data|;
    var s3 := EscapeAll(data) + Escape(check);
    var left1 := RecvByteContent(0, 0, Escape(n) + s3, line, more);
    var left2 := RecvByteContent(0, n, s3, left1, more);
    var last, left3 := RecvBlockContent(n, data, Escape(check), left2, more);
    WithNothing(Escape(check));
    var left4 := RecvByteContent(last, check, [], left3, more);
    ClosingGot(left4);
    WithNothing(more);
    FrameInParts(line + more, left1 + more, left2 + more, left3 + more, more, data, last, check);
  }

  lemma FrameInParts(line: seq<Attempt>, l1: seq<Attempt>, l2: seq<Attempt>, l3: seq<Attempt>, l4: seq<Attempt>,
                     data: seq<Byte>, last: Byte, check: Byte)
    requires |data| < 256
    requires RecvByte(0, line) == (0, l1) && RecvByte(0, l1) == (|data|, l2)
    requires RecvBlock(|data|, |data|, l2) == (data, last, l3) && RecvByte(last, l3) == (check, l4)
    ensures RecvFrame(line) == (check == Checksum(data), data, l4)
  {
    hide RecvByte, RecvBlock, Checksum;
  }

  /** A frame is decoded from its START byte on, whatever bytes other than START
      went before it and wherever the port ran dry: the decoder stops exactly
      behind it, yields exactly its data, and accepts it if and only if its
      checksum byte is the checksum of its data. */
  lemma {:induction false} ClientDecodes(data: seq<Byte>, check: Byte, junk: seq<Attempt>, attempts: seq<Attempt>,
        more: seq<Attempt>)
    requires |data| < 256
    requires START !in Content(junk)
    requires Content(attempts) == FrameWith(data, check)
    requires attempts[|attempts| - 1].Got?
    ensures Hunt(junk + attempts + more) == (check == Checksum(data), data, more)
    decreases |junk| + |attempts|
  {
    var all := junk + attempts + more;
    if junk != [] {
      assert all[1..] == junk[1..] + attempts + more;
      ClientDecodes(data, check, junk[1..], attempts, more);
    } else {
      assert all[1..] == attempts[1..] + more;
      assert all[0] == attempts[0];
      if attempts[0].Dry? {
        assert [] + attempts[1..] + more == all[1..];
        ClientDecodes(data, check, [], attempts[1..], more);
      } else {
        assert Content(attempts)[0] == START;
        assert Content(attempts)[1..] == EscapeAll(Body(data, check));
        EscapedLength(Body(data, check));
        RecvFrameContent(data, check, attempts[1..], more);
      }
    }
  }

  /** A frame of which one byte of the data, or the checksum, has been changed is
      rejected. */
  lemma ClientRejectsChange(data: seq<Byte>, i: nat, b: Byte, check: Byte, junk: seq<Attempt>, attempts: seq<Attempt>,
        more: seq<Attempt>)
    requires i < |data| < 256 && START !in Content(junk)
    requires (b != data[i] && check == Checksum(data)) || (b == data[i] && check != Checksum(data))
    requires Content(attempts) == FrameWith(data[i := b], check) && attempts[|attempts| - 1].Got?
    ensures !Hunt(junk + attempts + more).0 && Hunt(junk + attempts + more).2 == more
  {
    if b != data[i] {
      OneByteChangeBreaksChecksum(data, i, b);
    } else {
      assert data[i := b] == data;
    }
    ClientDecodes(data[i := b], check, junk, attempts, more);
  }

  // ----- what a frame received stands for

  const MQTTSN_MAX_PACKET_SIZE := 128

  /** The receive buffer once data has been written over its front. What has no room in
      it is written behind its end, over whatever is there. */
  function Stored(data: seq<Byte>, buf: seq<Byte>): (r: seq<Byte>)
    ensures |r| == |buf|
  {
    if |data| <= |buf| then data + buf[|data|..] else data[..|buf|]
  }

  function BehindData(data: seq<Byte>, r: (seq<Byte>, Byte, seq<Attempt>)): (seq<Byte>, Byte, seq<Attempt>) {
    (data + r.0, r.1, r.2)
  }

  /** One round of the loop over the frame data. */
  lemma BlockStep(data: seq<Byte>, n: nat, buf: Byte, line: seq<Attempt>)
    requires n > 0
    ensures var (b, rest) := RecvByte(buf, line);
            BehindData(data, RecvBlock(n, buf, line)) == BehindData(data + [b], RecvBlock(n - 1, b, rest))
  {
    var (b, rest) := RecvByte(buf, line);
    Assoc(data, [b], RecvBlock(n - 1, b, rest).0);
  }

  lemma BlockDone(data: seq<Byte>, buf: Byte, line: seq<Attempt>)
    ensures BehindData(data, RecvBlock(0, buf, line)) == (data, buf, line)
  {
    WithNothing(data);
  }

  lemma BehindNothing(r: (seq<Byte>, Byte, seq<Attempt>))
    ensures BehindData([], r) == r
  {
    assert [] + r.0 == r.0;
  }

  lemma NothingSummed()
    ensures Sum([]) == 0
  {
  }

  lemma StoredNothing(buf: seq<Byte>)
    ensures Stored([], buf) == buf
  {
  }

  lemma StoredNext(data: seq<Byte>, b: Byte, was: seq<Byte>)
    ensures Stored(data + [b], was) == if |data| < |was| then Stored(data, was)[|data| := b] else Stored(data, was)
  {
  }

  datatype Reply = Nothing | Response | XmitStatus

  /** readApiFrame(timeout): a response counts when it comes from the gateway, or has bit 1
      set in the byte after the twelve header bytes. */
  function Judge(found: bool, buf: seq<Byte>, gwAddr64: seq<Byte>): Reply
    requires |buf| == MQTTSN_MAX_PACKET_SIZE + 1
  {
    if !found then Nothing
    else if buf[0] == API_RESPONSE then
      if buf[1..9] != gwAddr64 && buf[12] / 2 % 2 == 0 then Nothing else Response
    else if buf[0] == API_XMITSTATUS then XmitStatus
    else Nothing
  }

  /** A response frame that fits the buffer counts if and only if its checksum is right and
      it comes from the gateway or has that bit; a transmit status if its checksum is right. */
  lemma FrameJudged(data: seq<Byte>, check: Byte, buf: seq<Byte>, gwAddr64: seq<Byte>, junk: seq<Attempt>,
        attempts: seq<Attempt>, more: seq<Attempt>)
    requires 12 < |data| <= |buf| == 129 && START !in Content(junk)
    requires Content(attempts) == FrameWith(data, check) && attempts[|attempts| - 1].Got?
    ensures var (found, got, _) := Hunt(junk + attempts + more);
            var reply := Judge(found, Stored(got, buf), gwAddr64);
            got == data
            && (reply == Response <==> check == Checksum(data) && data[0] == 0x90
                                       && (data[1..9] == gwAddr64 || data[12] / 2 % 2 == 1))
            && (reply == XmitStatus <==> check == Checksum(data) && data[0] == 0x8B)
  {
    ClientDecodes(data, check, junk, attempts, more);
    hide Hunt, FrameWith, Checksum, Content;
    assert Stored(data, buf)[1..9] == data[1..9];
  }

  // ----- the client's transmit request

  const BROADCAST_ADDRESS: seq<Byte> := [0, 0, 0, 0, 0, 0, 0xFF, 0xFF, 0xFF, 0xFE]

  function NextFrameId(id: Byte): Byte {
    if id == 0 then 1 else (id + 1) % 256
  }

  function TxData(payload: seq<Byte>, id: Byte, addr: seq<Byte>): seq<Byte> {
    [API_REQUEST, id] + addr + [0, 0] + payload
  }

  /** The request has the frame id and the address given, and carries the payload. */
  lemma RequestIsRead(payload: seq<Byte>, id: Byte, addr: seq<Byte>)
    requires |addr| == 10
    ensures ReadTxRequest(TxData(payload, id, addr)) == Some(TxRequest(id, addr[..8], addr[8..], 0, 0, payload))
  {
    var data := TxData(payload, id, addr);
    assert data[2..10] == addr[..8] && data[10..12] == addr[8..] && data[14..] == payload;
  }

  /** The frame ids go round through all bytes. */
  lemma FrameIdsGoOn(id: Byte)
    ensures NextFrameId(id) == (id as int + 1) % 256
  {
  }

  /** What send() writes: the frame id and the address go out unescaped. */
  function Emitted(payload: seq<Byte>, id: Byte, addr: seq<Byte>): seq<Byte>
    requires |addr| == 10
  {
    var data := TxData(payload, id, addr);
    Header(|data| % 256, id, addr) + EscapeAll([0, 0] + payload + [Checksum(data)])
  }

  /** START, the length and the API id, and then the unescaped bytes. */
  function Header(length: Byte, id: Byte, addr: seq<Byte>): seq<Byte> {
    [START] + EscapeAll([0, length, API_REQUEST]) + ([id] + addr)
  }

  lemma RawIsEscaped(a: seq<Byte>, raw: seq<Byte>, z: seq<Byte>)
    ensures a + raw + z == a + EscapeAll(raw) + z <==> forall b | b in raw :: !Special(b)
  {
    EscapedLength(raw);
    if EscapeAll(raw) != raw {
      assert |a + EscapeAll(raw) + z| > |a + raw + z|;
    }
  }

  /** What send() writes is the escaped request exactly when neither the frame id nor an
      address byte is one of the four special bytes. */
  lemma EmittedIsBlock(payload: seq<Byte>, id: Byte, addr: seq<Byte>)
    requires |addr| == 10
    ensures var data := TxData(payload, id, addr);
            Emitted(payload, id, addr) == Block(data, Checksum(data))
            <==> !Special(id) && forall b | b in addr :: !Special(b)
  {
    var data := TxData(payload, id, addr);
    var front: seq<Byte> := [0, |data| % 256, API_REQUEST];
    var raw := [id] + addr;
    var back := [0, 0] + payload + [Checksum(data)];
    BlockInParts(payload, id, addr);
    assert forall b :: b in raw <==> b == id || b in addr;
    hide EscapeAll, Checksum, TxData, Special;
    EscapeAllConcat(front, raw + back);
    EscapeAllConcat(raw, back);
    Assoc(EscapeAll(front), EscapeAll(raw), EscapeAll(back));
    Assoc([START], EscapeAll(front), EscapeAll(raw));
    Assoc([START], EscapeAll(front) + EscapeAll(raw), EscapeAll(back));
    RawIsEscaped([START] + EscapeAll(front), raw, EscapeAll(back));
  }

  lemma BlockInParts(payload: seq<Byte>, id: Byte, addr: seq<Byte>)
    requires |addr| == 10
    ensures var data := TxData(payload, id, addr);
            [0, |data| % 256] + data + [Checksum(data)]
            == [0, |data| % 256, API_REQUEST] + (([id] + addr) + ([0, 0] + payload + [Checksum(data)]))
  {
    hide Checksum;
  }

  /** So it is the frame of its request if these bytes are not special and the payload has
      at most 241 bytes; and if they are not special, no frame at all for longer ones. */
  lemma EmittedIsFrame(payload: seq<Byte>, id: Byte, addr: seq<Byte>)
    requires |addr| == 10
    ensures var data := TxData(payload, id, addr);
            |payload| <= 241 ==>
              |data| < 256
              && (Emitted(payload, id, addr) == Frame(data) <==> !Special(id) && forall b | b in addr :: !Special(b))
    ensures !Special(id) && (forall b | b in addr :: !Special(b)) ==>
              (IsFrame(Emitted(payload, id, addr)) <==> |payload| <= 241)
  {
    var data := TxData(payload, id, addr);
    assert |data| == 14 + |payload|;
    hide Emitted, Special, Block, FrameWith;
    EmittedIsBlock(payload, id, addr);
    BlockIsFrameExactly(data, Checksum(data));
  }

  lemma EmptyEscaped(before: seq<Byte>)
    ensures before + EscapeAll([]) == before
  {
  }

  lemma HeaderWritten(before: seq<Byte>, length: Byte, id: Byte, addr: seq<Byte>)
    ensures before + ([START] + EscapeAll([0, length, API_REQUEST]) + [id]) + addr == before + Header(length, id, addr)
  {
    var head := [START] + EscapeAll([0, length, API_REQUEST]);
    Assoc(before, head + [id], addr);
    Assoc(head, [id], addr);
  }

  class Network {
    const responseData: array<Byte>
    /** A byte has been written behind the end of responseData. */
    var overrun: bool
    var packetLen: nat
    var gwAddr64: seq<Byte>
    var gwAddr16: seq<Byte>
    var frameId: Byte
    /** What the serial port will yield before the caller's timer runs out. */
    var line: seq<Attempt>
    /** What has been written to the serial port. */
    var wire: seq<Byte>

    constructor (line: seq<Attempt>)
      ensures Valid() && fresh(responseData) && this.line == line && wire == [] && frameId == 0 && !overrun
      ensures gwAddr64 == [0, 0, 0, 0, 0, 0, 0, 0] && gwAddr16 == [0, 0]
    {
      responseData := new Byte[MQTTSN_MAX_PACKET_SIZE + 1](_ => 0);
      overrun, packetLen, frameId := false, 0, 0;
      gwAddr64, gwAddr16 := [0, 0, 0, 0, 0, 0, 0, 0], [0, 0];
      this.line, wire := line, [];
    }

    predicate Valid() {
      responseData.Length == MQTTSN_MAX_PACKET_SIZE + 1
    }

    method Recv() returns (ok: bool, b: Byte)
      requires line != []
      modifies this`line
      ensures line == old(line)[1..] && ok == old(line)[0].Got? && (ok ==> b == old(line)[0].b)
    {
      ok, b := line[0].Got?, if line[0].Got? then line[0].b else 0;
      line := line[1..];
    }

    method AwaitByte() returns (flg: bool, b: Byte)
      modifies this`line
      ensures (flg, b, line) == Await(old(line))
    {
      flg, b := false, 0;
      while !flg && line != []
        invariant if flg then (true, b, line) == Await(old(line)) else b == 0 && Await(line) == Await(old(line))
        decreases |line|, !flg
      {
        var ok, c := Recv();
        if ok {
          flg, b := true, c;
        }
      }
    }

    method ReceiveByte(buf: Byte) returns (b: Byte)
      modifies this`line
      ensures (b, line) == RecvByte(buf, old(line))
    {
      b := buf;
      var flg, c := AwaitByte();
      if flg {
        b := c;
        if b == ESCAPE {
          flg, c := AwaitByte();
          if !flg {
            return;
          }
          b := Flip(c);
        }
      }
    }

    /** The loop over the frame data, whose length is in `buf`. */
    method ReadData(len: Byte) returns (buf: Byte, checksum: Byte, ghost data: seq<Byte>)
      requires Valid()
      modifies this`line, this`overrun, responseData
      ensures (data, buf, line) == RecvBlock(len, len, old(line))
      ensures responseData[..] == Stored(data, old(responseData[..]))
      ensures overrun == (old(overrun) || len > MQTTSN_MAX_PACKET_SIZE + 1)
      ensures checksum == Sum(data) % 256
    {
      hide RecvBlock, RecvByte, Sum, Stored, BehindData;
      ghost var all, was := RecvBlock(len, len, line), responseData[..];
      var pos: nat := 0;
      buf, checksum, data := len, 0, [];
      StoredNothing(was);
      NothingSummed();
      BehindNothing(all);
      while pos < len
        invariant |data| == pos <= len && |was| == responseData.Length
        invariant checksum == Sum(data) % 256
        invariant responseData[..] == Stored(data, was)
        invariant overrun == (old(overrun) || pos > responseData.Length)
        invariant all == BehindData(data, RecvBlock(len - pos, buf, line))
      {
        BlockStep(data, len - pos, buf, line);
        buf := ReceiveByte(buf);
        SumSnoc(data, buf);
        StoreByte(pos, buf, data, was);
        data := data + [buf];
        checksum := (checksum + buf) % 256;
        pos := pos + 1;
      }
      BlockDone(data, buf, line);
    }

    /** `_responseData[pos++] = buf` */
    method StoreByte(pos: nat, buf: Byte, ghost data: seq<Byte>, ghost was: seq<Byte>)
      requires pos == |data| && |was| == responseData.Length && responseData[..] == Stored(data, was)
      modifies this`overrun, responseData
      ensures responseData[..] == Stored(data + [buf], was)
      ensures overrun == (old(overrun) || pos >= responseData.Length)
    {
      StoredNext(data, buf, was);
      if pos < responseData.Length {
        responseData[pos] := buf;
      } else {
        overrun := true;
      }
    }

    method ReadApiFrame() returns (ok: bool)
      requires Valid()
      modifies this`line, this`overrun, this`packetLen, responseData
      ensures var (good, data, rest) := RecvFrame(old(line));
              ok == good && line == rest && responseData[..] == Stored(data, old(responseData[..]))
              && packetLen == (if good then |data| else 0)
              && overrun == (old(overrun) || |data| > MQTTSN_MAX_PACKET_SIZE + 1)
    {
      var buf := ReceiveByte(0);
      buf := ReceiveByte(buf);
      var len, checksum := buf, 0;
      ghost var data;
      buf, checksum, data := ReadData(buf);
      packetLen := 0;
      buf := ReceiveByte(buf);
      ok := 0xFF - checksum == buf;
      if ok {
        packetLen := len;
      }
    }

    /** readApiFrame(timeout). */
    method ReadApiFrameTimed() returns (reply: Reply)
      requires Valid()
      modifies this`line, this`overrun, this`packetLen, responseData
      ensures var (found, data, rest) := Hunt(old(line));
              line == rest && responseData[..] == Stored(data, old(responseData[..]))
              && reply == Judge(found, responseData[..], gwAddr64)
              && (found ==> packetLen == |data|)
              && overrun == (old(overrun) || |data| > MQTTSN_MAX_PACKET_SIZE + 1)
    {
      hide Hunt, RecvFrame, Stored;
      var flg := FindStart();
      if !flg {
        StoredNothing(responseData[..]);
        return Nothing;
      }
      var good := ReadApiFrame();
      reply := Judged(good);
    }

    /** The search for START. */
    method FindStart() returns (flg: bool)
      modifies this`line
      ensures if flg then Hunt(old(line)) == RecvFrame(line) else line == [] && Hunt(old(line)) == (false, [], [])
    {
      hide RecvFrame;
      flg := false;
      while line != [] && !flg
        invariant if flg then Hunt(old(line)) == RecvFrame(line) else Hunt(old(line)) == Hunt(line)
        decreases |line|, !flg
      {
        var ok, buff := Recv();
        if ok && buff == START {
          flg := true;
        }
      }
    }

    /** What readApiFrame(timeout) says of a frame. */
    method Judged(good: bool) returns (reply: Reply)
      requires Valid()
      ensures reply == Judge(good, responseData[..], gwAddr64)
    {
      if good {
        if responseData[0] == API_RESPONSE {
          if responseData[1..9] != gwAddr64 && responseData[12] / 2 % 2 == 0 {
            return Nothing;
          } else {
            return Response;
          }
        } else if responseData[0] == API_XMITSTATUS {
          return XmitStatus;
        }
      }
      return Nothing;
    }

    method Write(b: Byte)
      modifies this`wire
      ensures wire == old(wire) + [b]
    {
      wire := wire + [b];
    }

    /** Appends `b` to the escaped bytes `sent` that follow `before` on the wire. */
    method SendByte(b: Byte, ghost before: seq<Byte>, ghost sent: seq<Byte>)
      requires wire == before + EscapeAll(sent)
      modifies this`wire
      ensures wire == before + EscapeAll(sent + [b])
    {
      EscapeAllSnoc(sent, b);
      if b == START || b == ESCAPE || b == XON || b == XOFF {
        Write(ESCAPE);
        Write(Flip(b));
      } else {
        Write(b);
      }
    }

    method SendRaw(addr: seq<Byte>, checksum: Byte, ghost data: seq<Byte>) returns (checksum': Byte)
      requires checksum == Sum(data) % 256
      modifies this`wire
      ensures wire == old(wire) + addr && checksum' == Sum(data + addr) % 256
    {
      checksum' := checksum;
      ghost var sum := data;
      assert data + addr[..0] == data;
      hide Sum;
      for i := 0 to |addr|
        invariant sum == data + addr[..i]
        invariant wire == old(wire) + addr[..i] && checksum' == Sum(sum) % 256
      {
        Write(addr[i]);
        OneMore(old(wire), addr, i);
        OneMore(data, addr, i);
        SumSnoc(sum, addr[i]);
        sum := sum + [addr[i]];
        checksum' := (checksum' + addr[i]) % 256;
      }
      assert addr[..|addr|] == addr;
    }

    method SendPayload(payload: seq<Byte>, checksum: Byte, ghost data: seq<Byte>, ghost before: seq<Byte>,
          ghost sent: seq<Byte>)
      returns (checksum': Byte)
      requires checksum == Sum(data) % 256
      requires wire == before + EscapeAll(sent)
      modifies this`wire
      ensures wire == before + EscapeAll(sent + payload) && checksum' == Sum(data + payload) % 256
    {
      checksum' := checksum;
      ghost var sum, out := data, sent;
      assert data + payload[..0] == data && sent + payload[..0] == sent;
      hide Sum, EscapeAll;
      for i := 0 to |payload|
        invariant sum == data + payload[..i] && out == sent + payload[..i]
        invariant wire == before + EscapeAll(out) && checksum' == Sum(sum) % 256
      {
        SendByte(payload[i], before, out);
        OneMore(sent, payload, i);
        OneMore(data, payload, i);
        SumSnoc(sum, payload[i]);
        sum, out := sum + [payload[i]], out + [payload[i]];
        checksum' := (checksum' + payload[i]) % 256;
      }
      assert payload[..|payload|] == payload;
    }

    /** START, length, API id and frame id. */
    method SendStart(length: Byte) returns (checksum: Byte)
      modifies this`wire, this`frameId
      ensures frameId == NextFrameId(old(frameId))
      ensures wire == old(wire) + ([START] + EscapeAll([0, length, API_REQUEST]) + [frameId])
      ensures checksum == Sum([API_REQUEST, frameId]) % 256
    {
      Write(START);
      ghost var before := wire;
      SendByte(0, before, []);
      SendByte(length, before, [] + [0]);
      SendByte(API_REQUEST, before, [] + [0] + [length]);
      assert [] + [0] + [length] + [API_REQUEST] == [0, length, API_REQUEST];
      frameId := if frameId == 0 then 1 else (frameId + 1) % 256;
      Write(frameId);
      checksum := (API_REQUEST + frameId) % 256;
      SumSnoc([API_REQUEST], frameId);
      assert [API_REQUEST] + [frameId] == [API_REQUEST, frameId];
    }

    method SendHeader(length: Byte, unicast: bool) returns (checksum: Byte)
      requires |gwAddr64| == 8 && |gwAddr16| == 2
      modifies this`wire, this`frameId
      ensures frameId == NextFrameId(old(frameId))
      ensures wire == old(wire) + Header(length, frameId, if unicast then gwAddr64 + gwAddr16 else BROADCAST_ADDRESS)
      ensures checksum == Sum([API_REQUEST, frameId] + if unicast then gwAddr64 + gwAddr16 else BROADCAST_ADDRESS) % 256
    {
      checksum := SendStart(length);
      ghost var data: seq<Byte> := [API_REQUEST, frameId];
      ghost var start, addr := wire, if unicast then gwAddr64 + gwAddr16 else BROADCAST_ADDRESS;
      hide Sum, EscapeAll, NextFrameId;
      if unicast {
        checksum := SendRaw(gwAddr64, checksum, data);
        checksum := SendRaw(gwAddr16, checksum, data + gwAddr64);
        Assoc(data, gwAddr64, gwAddr16);
        Assoc(start, gwAddr64, gwAddr16);
      } else {
        checksum := SendRaw(BROADCAST_ADDRESS, checksum, data);
      }
      assert wire == start + addr;
      HeaderWritten(old(wire), length, frameId, addr);
    }

    /** Broadcast or unicast. A unicast then waits for its transmit status. */
    method Send(payload: seq<Byte>, unicast: bool) returns (acknowledged: bool)
      requires Valid() && |payload| < 256 && |gwAddr64| == 8 && |gwAddr16| == 2
      modifies this, responseData
      ensures frameId == NextFrameId(old(frameId)) && gwAddr64 == old(gwAddr64) && gwAddr16 == old(gwAddr16)
      ensures wire == old(wire) + Emitted(payload, frameId, if unicast then gwAddr64 + gwAddr16 else BROADCAST_ADDRESS)
      ensures line == if unicast then Hunt(old(line)).2 else old(line)
      ensures unicast ==> responseData[..] == Stored(Hunt(old(line)).1, old(responseData[..]))
      ensures acknowledged
              <==> unicast && Judge(Hunt(old(line)).0, responseData[..], old(gwAddr64)) == XmitStatus
    {
      ghost var addr := if unicast then gwAddr64 + gwAddr16 else BROADCAST_ADDRESS;
      hide Sum, EscapeAll, Header, NextFrameId, Hunt;
      var checksum := SendHeader((14 + |payload|) % 256, unicast);
      ghost var before := wire;
      ghost var data := [API_REQUEST, frameId] + addr;
      EmptyEscaped(before);
      SendByte(0, before, []);
      SendByte(0, before, [] + [0]);
      assert [] + [0] + [0] == [0, 0];
      SumSnoc(data, 0);
      SumSnoc(data + [0], 0);
      assert data + [0] + [0] == data + [0, 0];
      checksum := SendPayload(payload, checksum, data + [0, 0], before, [0, 0]);
      checksum := 0xFF - checksum;
      SendByte(checksum, before, [0, 0] + payload);
      assert data + [0, 0] + payload == TxData(payload, frameId, addr);
      acknowledged := false;
      if unicast {
        var reply := ReadApiFrameTimed();
        acknowledged := reply == XmitStatus;
      }
    }
  }
}
