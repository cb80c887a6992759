/** The gateway's serial stack: the API frame receiver and the frame writer. */
module ZBStack {
  import opened Bytes
  import opened Sequences
  import opened Wrappers
  import opened XBeeFrame

  const MAX_FRAME_DATA_SIZE := 128
  const ZB_API_ID_POS := 3
  const ZB_RX_PAYLOAD_OFFSET := 15

  const NO_ERROR := 0
  const CHECKSUM_ERROR := 1
  const PACKET_OVERFLOW := 2

  /** Every field of the receiver that survives from one call to the next. */
  datatype Rx = Rx(pos: nat, esc: bool, total: Byte, data: seq<Byte>, error: nat, available: bool, respLen: nat) {
    predicate Ok() {
      |data| == MAX_FRAME_DATA_SIZE + 1 && pos <= MAX_FRAME_DATA_SIZE + 1
    }

    predicate Done() {
      available || error != NO_ERROR
    }

    /** A new call forgets a finished frame. */
    function Restart(): Rx {
      if Done() then this.(available := false, error := NO_ERROR, pos := 0) else this
    }

    /** What one byte does once its escape has been undone. */
    function Absorb(b: Byte): (st: Rx)
      requires Ok()
      ensures st.Ok()
    {
      var st := if pos >= ZB_API_ID_POS then this.(total := (total + b) % 256) else this;
      if pos == 0 then
        st.(pos := 1)
      else if pos > MAX_FRAME_DATA_SIZE then
        st.(error := PACKET_OVERFLOW, pos := 0)
      else if pos > 2 && pos == data[2] as int + 3 then
        st.(available := st.total == 0xFF, error := if st.total == 0xFF then NO_ERROR else CHECKSUM_ERROR,
            respLen := pos, pos := 0, total := 0)
      else
        st.(data := data[pos := b], pos := pos + 1)
    }

    /** Undo an escape that an earlier read left pending, then absorb. */
    function Decode(b: Byte): (st: Rx)
      requires Ok()
      ensures st.Ok()
    {
      if esc then this.(esc := false).Absorb(Flip(b)) else Absorb(b)
    }
  }

  /** One pass of the receive loop over a byte and, for an escape, the read attempt after it. */
  function Pass(st: Rx, attempts: seq<Attempt>): (r: (Rx, seq<Attempt>))
    requires st.Ok() && attempts != [] && attempts[0].Got?
    ensures r.0.Ok() && |r.1| < |attempts|
  {
    var b := attempts[0].b;
    if b == START then
      (st.(pos := 1, total := 0), attempts[1..])
    else if st.pos > 0 && b == ESCAPE then
      if |attempts| == 1 then (st.(esc := true), [])
      else if attempts[1].Dry? then (st.(esc := true), attempts[2..])
      else (st.Decode(Flip(attempts[1].b)), attempts[2..])
    else
      (st.Decode(b), attempts[1..])
  }

  /** readApiFrame(): read until the port runs dry or a frame is complete. */
  function Burst(st: Rx, attempts: seq<Attempt>): (r: (Rx, seq<Attempt>))
    requires st.Ok()
    ensures r.0.Ok() && |r.1| <= |attempts|
    ensures attempts != [] && !st.Done() ==> |r.1| < |attempts|
    decreases |attempts|
  {
    if attempts == [] || st.Done() then (st, attempts)
    else if attempts[0].Dry? then (st, attempts[1..])
    else
      var (st', rest) := Pass(st, attempts);
      Burst(st', rest)
  }

  /** readApiFrame(timeout): bursts until a response or modem status, an error or the timer. */
  function Receive(st: Rx, attempts: seq<Attempt>): (r: (Rx, seq<Attempt>, bool))
    requires st.Ok()
    ensures r.0.Ok() && |r.1| <= |attempts|
    decreases |attempts|
  {
    if attempts == [] then (st, [], false)
    else
      var (st', rest) := Burst(st.Restart(), attempts);
      if st'.available && (st'.data[ZB_API_ID_POS] == API_RESPONSE || st'.data[ZB_API_ID_POS] == API_MODEMSTATUS) then
        (st', rest, true)
      else if !st'.available && st'.error != NO_ERROR then
        (st', rest, false)
      else
        Receive(st', rest)
  }

  function TimedReceive(st: Rx, attempts: seq<Attempt>): (r: (Rx, seq<Attempt>, bool))
    requires st.Ok()
  {
    Receive(st.(pos := 0), attempts)
  }

  // ----- every frame is decoded, whatever the receiver's past and wherever the port runs dry

  /** What receive makes of the end of a burst. */
  function Resume(r: (Rx, seq<Attempt>)): (Rx, seq<Attempt>, bool)
    requires r.0.Ok()
  {
    if r.0.available && (r.0.data[ZB_API_ID_POS] == API_RESPONSE || r.0.data[ZB_API_ID_POS] == API_MODEMSTATUS) then
      (r.0, r.1, true)
    else if !r.0.available && r.0.error != NO_ERROR then
      (r.0, r.1, false)
    else
      Receive(r.0, r.1)
  }

  lemma ReceiveResumes(st: Rx, attempts: seq<Attempt>)
    requires st.Ok() && !st.Done() && attempts != []
    ensures Receive(st, attempts) == Resume(Burst(st, attempts))
  {
    hide Burst;
  }

  /** Receiving is insensitive to where a burst ends. */
  lemma ReceiveStep(st: Rx, attempts: seq<Attempt>)
    requires st.Ok() && !st.Done() && attempts != []
    ensures attempts[0].Dry? ==> Receive(st, attempts) == Receive(st, attempts[1..])
    ensures attempts[0].Got? ==>
              var (st', rest) := Pass(st, attempts);
              !st'.Done() ==> Receive(st, attempts) == Receive(st', rest)
  {
    ReceiveResumes(st, attempts);
    if attempts[0].Dry? {
      assert Burst(st, attempts) == (st, attempts[1..]);
    } else {
      var st', rest := Pass(st, attempts).0, Pass(st, attempts).1;
      assert Burst(st, attempts) == Burst(st', rest);
      if !st'.Done() && rest != [] {
        ReceiveResumes(st', rest);
      }
    }
    hide Receive, Burst, Pass;
  }

  /** The receiver is inside a frame and has absorbed the first `k` bytes of `body`. */
  predicate Within(st: Rx, body: seq<Byte>, k: nat) {
    && st.Ok() && !st.Done()
    && k < |body|
    && st.pos == k + 1
    && st.data[1..k + 1] == body[..k]
    && st.total == (if k <= 2 then 0 else Sum(body[2..k]) % 256)
    && (st.esc ==> Special(body[k]))
  }

  /** What is still to come on the wire. */
  function Remaining(esc: bool, s: seq<Byte>): seq<Byte>
    requires s != []
  {
    if esc then [Flip(s[0])] + EscapeAll(s[1..]) else EscapeAll(s)
  }

  predicate Delivered(st: Rx, data: seq<Byte>)
    requires st.Ok() && |data| <= 125
  {
    && st.available && st.error == NO_ERROR && !st.esc
    && st.respLen == |data| + 3
    && st.data[ZB_API_ID_POS..ZB_API_ID_POS + |data|] == data
  }

  lemma AbsorbGoesOn(st: Rx, body: seq<Byte>, k: nat)
    requires Within(st, body, k) && !st.esc && k + 1 < |body|
    requires 2 <= |body| <= 128 && body[1] as int + 3 == |body|
    ensures Within(st.Absorb(body[k]), body, k + 1) && !st.Absorb(body[k]).esc
  {
    var st' := st.Absorb(body[k]);
    if k > 2 {
      assert st.data[2] == st.data[1..k + 1][1] == body[..k][1];
    }
    DataGrows(st.data, body, k);
    if k >= 2 {
      SumSnoc(body[2..k], body[k]);
      OneMoreFrom(body, k);
    }
    hide Sum;
  }

  lemma DataGrows(data: seq<Byte>, body: seq<Byte>, k: nat)
    requires k < |body| && k + 1 < |data| && data[1..k + 1] == body[..k]
    ensures data[k + 1 := body[k]][1..k + 2] == body[..k + 1]
  {
    assert data[k + 1 := body[k]][1..k + 2] == data[1..k + 1] + [body[k]];
  }

  lemma OneMoreFrom(body: seq<Byte>, k: nat)
    requires 2 <= k < |body|
    ensures body[2..k + 1] == body[2..k] + [body[k]]
  {
  }

  /** Absorbing the next byte of a body either goes on or, at the checksum, ends the frame. */
  lemma AbsorbWithin(st: Rx, data: seq<Byte>, check: Byte, k: nat)
    requires |data| <= 125
    requires Within(st, Body(data, check), k) && !st.esc
    ensures var body, st' := Body(data, check), st.Absorb(Body(data, check)[k]);
            if k + 1 < |body| then Within(st', body, k + 1) && !st'.esc
            else if check == Checksum(data) then Delivered(st', data)
            else st'.error == CHECKSUM_ERROR && !st'.available
  {
    var body := Body(data, check);
    if k + 1 < |body| {
      AbsorbGoesOn(st, body, k);
      hide Within, Sum;
    } else {
      assert st.data[2] == st.data[1..k + 1][1] == body[..k][1];
      assert body[2..k] == data;
      assert st.data[3..k + 1] == st.data[1..k + 1][2..];
      assert body[..k][2..] == data;
      hide Sum;
    }
  }

  /** What receiving must come to when a frame with this data and checksum byte
      is followed by `more`. */
  ghost predicate Verdict(data: seq<Byte>, check: Byte, r: (Rx, seq<Attempt>, bool), more: seq<Attempt>)
    requires 1 <= |data| <= 125 && r.0.Ok()
  {
    if check != Checksum(data) then
      !r.2 && r.1 == more && r.0.error == CHECKSUM_ERROR && !r.0.available
    else if data[0] == 0x90 || data[0] == 0x8A then
      r.2 && r.1 == more && Delivered(r.0, data)
    else
      exists st: Rx :: st.Ok() && Delivered(st, data) && r == Receive(st, more)
  }

  lemma ContentHead(attempts: seq<Attempt>, b: Byte, s: seq<Byte>)
    requires attempts != [] && attempts[0].Got?
    requires Content(attempts) == [b] + s
    ensures attempts[0].b == b && Content(attempts[1..]) == s
  {
    assert Content(attempts)[0] == b;
    assert Content(attempts)[1..] == s;
  }

  lemma {:induction false} EmptyContent(attempts: seq<Attempt>)
    requires attempts != [] && attempts[|attempts| - 1].Got?
    ensures Content(attempts) != []
  {
    if attempts[0].Dry? {
      EmptyContent(attempts[1..]);
    }
  }

  /** Absorbing the checksum byte ends the frame with the verdict. */
  lemma FrameEnds(st: Rx, data: seq<Byte>, check: Byte, all: seq<Attempt>, more: seq<Attempt>)
    requires 1 <= |data| <= 125
    requires Within(st, Body(data, check), |data| + 2)
    requires all != [] && all[0].Got?
    requires Pass(st, all) == (st.(esc := false).Absorb(check), more)
    ensures Verdict(data, check, Receive(st, all), more)
  {
    var st' := st.(esc := false).Absorb(check);
    AbsorbWithin(st.(esc := false), data, check, |data| + 2);
    assert Burst(st, all) == Burst(st', more) == (st', more);
    if check == Checksum(data) {
      assert st'.data[3] == st'.data[3..3 + |data|][0] == data[0];
    }
  }

  /** The next byte on the wire, inside a frame that still has `s` to come. */
  lemma NextOnWire(esc: bool, s: seq<Byte>, attempts: seq<Attempt>)
    requires s != [] && (esc ==> Special(s[0]))
    requires attempts != [] && attempts[0].Got?
    requires Content(attempts) == Remaining(esc, s)
    ensures attempts[0].b != START
    ensures !esc && Special(s[0]) ==> attempts[0].b == ESCAPE && Content(attempts[1..]) == Remaining(true, s)
    ensures esc || !Special(s[0]) ==>
              attempts[0].b == (if esc then Flip(s[0]) else s[0]) && Content(attempts[1..]) == EscapeAll(s[1..])
  {
    var later := EscapeAll(s[1..]);
    if !esc && Special(s[0]) {
      assert Content(attempts) == [ESCAPE] + ([Flip(s[0])] + later);
      ContentHead(attempts, ESCAPE, [Flip(s[0])] + later);
    } else {
      ContentHead(attempts, if esc then Flip(s[0]) else s[0], later);
    }
  }

  /** From anywhere inside a frame, the rest of the frame leads to the verdict. */
  lemma {:induction false} FinishFrame(st: Rx, data: seq<Byte>, check: Byte, k: nat, attempts: seq<Attempt>,
        more: seq<Attempt>)
    requires 1 <= |data| <= 125
    requires Within(st, Body(data, check), k)
    requires attempts != [] && attempts[|attempts| - 1].Got?
    requires Content(attempts) == Remaining(st.esc, Body(data, check)[k..])
    ensures Verdict(data, check, Receive(st, attempts + more), more)
    decreases |attempts|, 1
  {
    var s := Body(data, check)[k..];
    var all := attempts + more;
    assert all[1..] == attempts[1..] + more;
    assert s[1..] == Body(data, check)[k + 1..];
    if attempts[0].Dry? {
      ReceiveStep(st, all);
      FinishFrame(st, data, check, k, attempts[1..], more);
    } else {
      NextOnWire(st.esc, s, attempts);
      if !st.esc && Special(s[0]) {
        EscapeArrives(st, data, check, k, attempts, more);
      } else {
        ByteDone(st, data, check, k, all, attempts[1..], more);
      }
    }
  }

  /** The step of FinishFrame that reads an escape, with the byte after it if that is there. */
  lemma {:induction false} EscapeArrives(st: Rx, data: seq<Byte>, check: Byte, k: nat, attempts: seq<Attempt>,
        more: seq<Attempt>)
    requires 1 <= |data| <= 125
    requires Within(st, Body(data, check), k) && !st.esc && Special(Body(data, check)[k])
    requires attempts != [] && attempts[|attempts| - 1].Got?
    requires attempts[0] == Got(ESCAPE)
    requires Content(attempts[1..]) == Remaining(true, Body(data, check)[k..])
    ensures Verdict(data, check, Receive(st, attempts + more), more)
    decreases |attempts|, 0
  {
    var s := Body(data, check)[k..];
    var all := attempts + more;
    assert |attempts| > 1;
    assert all[2..] == attempts[2..] + more;
    assert attempts[1..][1..] == attempts[2..];
    if attempts[1].Dry? {
      ReceiveStep(st, all);
      FinishFrame(st.(esc := true), data, check, k, attempts[2..], more);
    } else {
      NextOnWire(true, s, attempts[1..]);
      assert s[1..] == Body(data, check)[k + 1..];
      ByteDone(st, data, check, k, all, attempts[2..], more);
    }
  }

  /** The step of FinishFrame that completes a byte of the body. */
  lemma {:induction false} ByteDone(st: Rx, data: seq<Byte>, check: Byte, k: nat,
                                    all: seq<Attempt>, left: seq<Attempt>, more: seq<Attempt>)
    requires 1 <= |data| <= 125
    requires Within(st, Body(data, check), k)
    requires all != [] && all[0].Got?
    requires Pass(st, all) == (st.(esc := false).Absorb(Body(data, check)[k]), left + more)
    requires Content(left) == EscapeAll(Body(data, check)[k + 1..])
    requires left != [] ==> left[|left| - 1].Got?
    ensures Verdict(data, check, Receive(st, all), more)
    decreases |left|, 2
  {
    var body := Body(data, check);
    if k + 1 < |body| {
      AbsorbWithin(st.(esc := false), data, check, k);
      ReceiveStep(st, all);
      EscapedLength(body[k + 1..]);
      FinishFrame(st.(esc := false).Absorb(body[k]), data, check, k + 1, left, more);
    } else {
      if left != [] {
        EmptyContent(left);
      }
      assert left + more == more;
      FrameEnds(st, data, check, all, more);
    }
  }

  lemma {:induction false} FrameArrives(st: Rx, data: seq<Byte>, check: Byte, attempts: seq<Attempt>,
        more: seq<Attempt>)
    requires st.Ok() && !st.esc && !st.Done()
    requires 1 <= |data| <= 125
    requires Content(attempts) == FrameWith(data, check)
    requires attempts[|attempts| - 1].Got?
    ensures Verdict(data, check, Receive(st, attempts + more), more)
    decreases |attempts|
  {
    var all := attempts + more;
    assert all[1..] == attempts[1..] + more;
    ReceiveStep(st, all);
    if attempts[0].Dry? {
      FrameArrives(st, data, check, attempts[1..], more);
    } else {
      ContentHead(attempts, START, EscapeAll(Body(data, check)));
      assert Body(data, check)[0..] == Body(data, check);
      EscapedLength(Body(data, check));
      FinishFrame(st.(pos := 1, total := 0), data, check, 0, attempts[1..], more);
    }
  }

  /** A frame of at most 125 data bytes is received from any state with no
      escape pending, wherever the port runs dry on the way. Exactly its
      attempts are consumed. It is rejected if its checksum byte is wrong;
      otherwise its data is delivered, and the call returns if the frame is a
      response or a modem status and goes on receiving if it is any other. */
  lemma GatewayDecodes(st: Rx, data: seq<Byte>, check: Byte, attempts: seq<Attempt>, more: seq<Attempt>)
    requires st.Ok() && !st.esc
    requires 1 <= |data| <= 125
    requires Content(attempts) == FrameWith(data, check)
    requires attempts[|attempts| - 1].Got?
    ensures Verdict(data, check, TimedReceive(st, attempts + more), more)
  {
    var st0 := st.(pos := 0).Restart();
    assert TimedReceive(st, attempts + more) == Receive(st0, attempts + more);
    FrameArrives(st0, data, check, attempts, more);
  }

  // ----- frames that do not fit

  /** The receiver is inside a frame that announces more than fits its buffer. */
  predicate Filling(st: Rx, body: seq<Byte>, k: nat) {
    && st.Ok() && !st.Done()
    && k <= MAX_FRAME_DATA_SIZE < |body| && body[1] as int + 3 > MAX_FRAME_DATA_SIZE
    && st.pos == k + 1
    && (k >= 2 ==> st.data[2] == body[1])
    && (st.esc ==> Special(body[k]))
  }

  lemma AbsorbFills(st: Rx, body: seq<Byte>, k: nat)
    requires Filling(st, body, k) && !st.esc
    ensures var st' := st.Absorb(body[k]);
            if k < MAX_FRAME_DATA_SIZE then Filling(st', body, k + 1) && !st'.esc
            else st'.error == PACKET_OVERFLOW && !st'.available
  {
  }

  /** What comes of it. */
  predicate Overflown(r: (Rx, seq<Attempt>, bool)) {
    !r.2 && r.0.error == PACKET_OVERFLOW && !r.0.available
  }

  lemma {:induction false} FillsUp(st: Rx, body: seq<Byte>, k: nat, attempts: seq<Attempt>, more: seq<Attempt>)
    requires Filling(st, body, k) && attempts != [] && Content(attempts) == Remaining(st.esc, body[k..])
    ensures Overflown(Receive(st, attempts + more))
    decreases |attempts|, 1
  {
    var s, all := body[k..], attempts + more;
    assert all[1..] == attempts[1..] + more && s[1..] == body[k + 1..];
    if attempts[0].Dry? {
      ReceiveStep(st, all);
      assert attempts[1..] != [] by {
        EscapedLength(s[1..]);
        EscapedLength(s);
      }
      FillsUp(st, body, k, attempts[1..], more);
    } else {
      NextOnWire(st.esc, s, attempts);
      if st.esc || !Special(s[0]) {
        ByteFills(st, body, k, all, attempts[1..], more);
      } else {
        assert |attempts| > 1;
        assert all[2..] == attempts[2..] + more && attempts[1..][1..] == attempts[2..];
        if attempts[1].Dry? {
          ReceiveStep(st, all);
          FillsUp(st.(esc := true), body, k, attempts[2..], more);
        } else {
          NextOnWire(true, s, attempts[1..]);
          ByteFills(st, body, k, all, attempts[2..], more);
        }
      }
    }
  }

  lemma {:induction false} ByteFills(st: Rx, body: seq<Byte>, k: nat, all: seq<Attempt>, left: seq<Attempt>,
        more: seq<Attempt>)
    requires Filling(st, body, k) && all != [] && all[0].Got?
    requires Pass(st, all) == (st.(esc := false).Absorb(body[k]), left + more)
    requires Content(left) == EscapeAll(body[k + 1..]) && |left| < |all|
    ensures Overflown(Receive(st, all))
    decreases |left|, 2
  {
    var st' := st.(esc := false).Absorb(body[k]);
    AbsorbFills(st.(esc := false), body, k);
    if k < MAX_FRAME_DATA_SIZE {
      ReceiveStep(st, all);
      EscapedLength(body[k + 1..]);
      FillsUp(st', body, k + 1, left, more);
    } else {
      assert Burst(st, all) == Burst(st', left + more) == (st', left + more);
      ReceiveResumes(st, all);
    }
  }

  /** A frame of more than 125 data bytes is rejected as too long, whatever its checksum, from
      any state with no escape pending and wherever the port runs dry. */
  lemma TooLongIsRejected(st: Rx, data: seq<Byte>, check: Byte, attempts: seq<Attempt>, more: seq<Attempt>)
    requires st.Ok() && !st.esc && 125 < |data| < 256
    requires Content(attempts) == FrameWith(data, check)
    ensures Overflown(TimedReceive(st, attempts + more))
  {
    var st0 := st.(pos := 0).Restart();
    TooLongArrives(st0, data, check, attempts, more);
    assert TimedReceive(st, attempts + more) == Receive(st0, attempts + more);
  }

  lemma {:induction false} TooLongArrives(st: Rx, data: seq<Byte>, check: Byte, attempts: seq<Attempt>,
        more: seq<Attempt>)
    requires st.Ok() && !st.esc && !st.Done() && 125 < |data| < 256
    requires Content(attempts) == FrameWith(data, check)
    ensures Overflown(Receive(st, attempts + more))
    decreases |attempts|
  {
    var all := attempts + more;
    assert all[1..] == attempts[1..] + more;
    ReceiveStep(st, all);
    if attempts[0].Dry? {
      TooLongArrives(st, data, check, attempts[1..], more);
    } else {
      var body := Body(data, check);
      ContentHead(attempts, START, EscapeAll(body));
      assert body[0..] == body;
      EscapedLength(body);
      FillsUp(st.(pos := 1, total := 0), body, 0, attempts[1..], more);
    }
  }

  lemma Rejected(data: seq<Byte>, check: Byte, r: (Rx, seq<Attempt>, bool), more: seq<Attempt>)
    requires 1 <= |data| <= 125 && r.0.Ok() && Verdict(data, check, r, more) && check != Checksum(data)
    ensures !r.2 && r.1 == more && r.0.error == CHECKSUM_ERROR && !r.0.available
  {
  }

  /** A frame of which one byte of the data, or the checksum, has been changed is
      rejected: the call ends behind it with an error and delivers nothing. */
  lemma GatewayRejectsChange(st: Rx, data: seq<Byte>, i: nat, b: Byte, check: Byte, attempts: seq<Attempt>,
        more: seq<Attempt>)
    requires st.Ok() && !st.esc && i < |data| <= 125
    requires (b != data[i] && check == Checksum(data)) || (b == data[i] && check != Checksum(data))
    requires Content(attempts) == FrameWith(data[i := b], check) && attempts[|attempts| - 1].Got?
    ensures var (st', rest, ok) := TimedReceive(st, attempts + more);
            !ok && !st'.available && st'.error == CHECKSUM_ERROR && rest == more
  {
    var changed := data[i := b];
    if b != data[i] {
      OneByteChangeBreaksChecksum(data, i, b);
    } else {
      assert changed == data;
    }
    assert check != Checksum(changed) && 1 <= |changed| <= 125;
    hide *;
    GatewayDecodes(st, changed, check, attempts, more);
    Rejected(changed, check, TimedReceive(st, attempts + more), more);
  }

  /** The frame received is a response of some client. */
  predicate IsResponse(st: Rx, ok: bool)
    requires st.Ok()
  {
    ok && st.data[ZB_API_ID_POS] == API_RESPONSE
  }

  /** A response frame of 12 to 125 data bytes yields its payload: what follows the API
      id, the two addresses and the options. */
  lemma ResponseFound(st: Rx, data: seq<Byte>, check: Byte, attempts: seq<Attempt>, more: seq<Attempt>)
    requires st.Ok() && !st.esc && 12 <= |data| <= 125 && data[0] == 0x90
    requires Content(attempts) == FrameWith(data, check) && attempts[|attempts| - 1].Got?
    ensures var (st', rest, ok) := TimedReceive(st, attempts + more);
            rest == more && (IsResponse(st', ok) <==> check == Checksum(data))
            && (ok ==> ZB_RX_PAYLOAD_OFFSET <= st'.respLen <= |st'.data|
                       && st'.data[ZB_RX_PAYLOAD_OFFSET..st'.respLen] == data[12..])
  {
    GatewayDecodes(st, data, check, attempts, more);
    var st', rest, ok := TimedReceive(st, attempts + more).0, TimedReceive(st, attempts + more).1,
      TimedReceive(st, attempts + more).2;
    if ok {
      assert st'.data[15..st'.respLen] == st'.data[3..3 + |data|][12..];
      assert st'.data[3..3 + |data|][0] == data[0];
    }
  }

  // ----- the transmit request

  /** The data of the transmit request that carries `payload`: frame id 0, the
      destination, radius 0 and no options. */
  function TxData(payload: seq<Byte>, msb: U32, lsb: U32, addr16: U16): seq<Byte> {
    [API_REQUEST, 0] + Put32(msb) + Put32(lsb) + Put16(addr16) + [0, 0] + payload
  }

  /** The request names its destination and carries the payload; nothing is to be acknowledged
      to the gateway. */
  lemma RequestIsRead(payload: seq<Byte>, msb: U32, lsb: U32, addr16: U16)
    ensures ReadTxRequest(TxData(payload, msb, lsb, addr16))
            == Some(TxRequest(0, Put32(msb) + Put32(lsb), Put16(addr16), 0, 0, payload))
  {
    var data := TxData(payload, msb, lsb, addr16);
    assert data[2..10] == Put32(msb) + Put32(lsb) && data[10..12] == Put16(addr16) && data[14..] == payload;
    hide Put32, Put16;
  }

  function Emitted(payload: seq<Byte>, msb: U32, lsb: U32, addr16: U16): seq<Byte> {
    var data := TxData(payload, msb, lsb, addr16);
    Block(data, Checksum(data))
  }

  /** Whatever the address, what send() writes is the frame of its request for payloads of
      up to 241 bytes, and no frame at all for longer ones. */
  lemma EmittedIsFrame(payload: seq<Byte>, msb: U32, lsb: U32, addr16: U16)
    ensures |payload| <= 241 ==> Emitted(payload, msb, lsb, addr16) == Frame(TxData(payload, msb, lsb, addr16))
    ensures IsFrame(Emitted(payload, msb, lsb, addr16)) <==> |payload| <= 241
  {
    var data := TxData(payload, msb, lsb, addr16);
    assert |data| == 14 + |payload|;
    BlockIsFrameExactly(data, Checksum(data));
  }

  class Network {
    var pos: nat
    var esc: bool
    var checksumTotal: Byte
    const responseData: array<Byte>
    var errorCode: nat
    var available: bool
    var respLen: nat
    /** What the serial port will yield before the caller's timer runs out. */
    var line: seq<Attempt>
    /** What has been written to the serial port. */
    var wire: seq<Byte>

    constructor (line: seq<Attempt>)
      ensures Valid() && fresh(responseData) && this.line == line && wire == []
      ensures State().pos == 0 && !State().esc
    {
      pos, esc, checksumTotal, errorCode, available, respLen := 0, false, 0, NO_ERROR, false, 0;
      responseData := new Byte[MAX_FRAME_DATA_SIZE + 1];
      this.line, wire := line, [];
    }

    ghost predicate Valid()
      reads this, responseData
    {
      State().Ok()
    }

    ghost function State(): Rx
      reads this, responseData
    {
      Rx(pos, esc, checksumTotal, responseData[..], errorCode, available, respLen)
    }

    method Read() returns (ok: bool, b: Byte)
      modifies this`line
      ensures old(line) == [] ==> !ok && line == []
      ensures old(line) != [] ==> line == old(line)[1..] && ok == old(line)[0].Got? && (ok ==> b == old(line)[0].b)
    {
      ok, b := false, 0;
      if line != [] {
        if line[0].Got? {
          ok, b := true, line[0].b;
        }
        line := line[1..];
      }
    }

    method ReadApiFrame()
      requires Valid()
      modifies this`pos, this`esc, this`checksumTotal, this`errorCode, this`available, this`respLen, this`line,
            responseData
      ensures Valid()
      ensures (State(), line) == Burst(old(State()).Restart(), old(line))
    {
      if available || errorCode != NO_ERROR {
        available, errorCode, pos := false, NO_ERROR, 0;
      }
      ghost var goal := Burst(State(), line);
      while true
        invariant Valid() && !State().Done()
        invariant Burst(State(), line) == goal
        decreases |line|
      {
        var ok, byteData := Read();
        if !ok {
          return;
        }
        if byteData == START {
          pos, checksumTotal := 1, 0;
          continue;
        }
        if pos > 0 && byteData == ESCAPE {
          ok, byteData := Read();
          if ok {
            byteData := Flip(byteData);
          } else {
            esc := true;
            continue;
          }
        }
        TakeByte(byteData);
        if available || errorCode != NO_ERROR {
          return;
        }
      }
    }

    /** The tail of the receive loop: what is done with one byte. */
    method TakeByte(b: Byte)
      requires Valid() && !State().Done()
      modifies this`pos, this`esc, this`checksumTotal, this`errorCode, this`available, this`respLen, responseData
      ensures Valid() && State() == old(State()).Decode(b)
    {
      var byteData := b;
      if esc {
        byteData := Flip(byteData);
        esc := false;
      }
      if pos >= ZB_API_ID_POS {
        checksumTotal := (checksumTotal + byteData) % 256;
      }
      if pos > 0 {
        if pos > MAX_FRAME_DATA_SIZE {
          errorCode, pos := PACKET_OVERFLOW, 0;
          return;
        } else if pos > 2 && pos == responseData[2] as int + 3 {
          if checksumTotal == 0xFF {
            available, errorCode := true, NO_ERROR;
          } else {
            errorCode := CHECKSUM_ERROR;
          }
          respLen, pos, checksumTotal := pos, 0, 0;
          return;
        } else {
          responseData[pos] := byteData;
        }
      }
      pos := pos + 1;
    }

    method ReadApiFrameTimed() returns (ok: bool)
      requires Valid()
      modifies this`pos, this`esc, this`checksumTotal, this`errorCode, this`available, this`respLen, this`line,
            responseData
      ensures Valid()
      ensures (State(), line, ok) == TimedReceive(old(State()), old(line))
    {
      pos := 0;
      ghost var goal := Receive(State(), line);
      while line != []
        invariant Valid()
        invariant Receive(State(), line) == goal
        decreases |line|
      {
        ReadApiFrame();
        if available {
          if responseData[ZB_API_ID_POS] == API_RESPONSE {
            return true;
          } else if responseData[ZB_API_ID_POS] == API_MODEMSTATUS {
            return true;
          }
        } else if errorCode != NO_ERROR {
          return false;
        }
      }
      return false;
    }

    /** What getResponce returns: a pointer behind the header of a response, and what is
        left of the frame's length. */
    method GetResponse() returns (found: bool, start: nat, len: int)
      requires Valid()
      modifies this`pos, this`esc, this`checksumTotal, this`errorCode, this`available, this`respLen, this`line,
            responseData
      ensures Valid()
      ensures var (st, rest, ok) := TimedReceive(old(State()), old(line));
              State() == st && line == rest && found == IsResponse(st, ok)
      ensures found ==> start == ZB_RX_PAYLOAD_OFFSET && len == respLen - ZB_RX_PAYLOAD_OFFSET
    {
      var ok := ReadApiFrameTimed();
      if ok {
        if responseData[ZB_API_ID_POS] == API_RESPONSE {
          return true, ZB_RX_PAYLOAD_OFFSET, respLen - ZB_RX_PAYLOAD_OFFSET;
        }
      }
      return false, 0, 0;
    }

    method Write(b: Byte)
      modifies this`wire
      ensures wire == old(wire) + [b]
    {
      wire := wire + [b];
    }

    /** Appends `b` to the escaped bytes `sent` that follow `before` on the wire. */
    method SendByte(b: Byte, ghost before: seq<Byte>, ghost sent: seq<Byte>)
      requires wire == before + EscapeAll(sent)
      modifies this`wire
      ensures wire == before + EscapeAll(sent + [b])
    {
      EscapeAllSnoc(sent, b);
      if b == START || b == ESCAPE || b == XON || b == XOFF {
        Write(ESCAPE);
        Write(Flip(b));
      } else {
        Write(b);
      }
    }

    /** Appends `addr` to the frame data `data`, of which `checksum` is the sum so far. */
    method SendAddr(addr: seq<Byte>, checksum: Byte, ghost before: seq<Byte>,
          ghost data: seq<Byte>) returns (checksum': Byte)
      requires wire == before + EscapeAll(data) && checksum == Sum(data) % 256
      modifies this`wire
      ensures wire == before + EscapeAll(data + addr) && checksum' == Sum(data + addr) % 256
    {
      checksum' := checksum;
      ghost var done := data;
      assert data + addr[..0] == data;
      hide EscapeAll, Sum;
      for i := 0 to |addr|
        invariant done == data + addr[..i]
        invariant wire == before + EscapeAll(done) && checksum' == Sum(done) % 256
      {
        SendByte(addr[i], before, done);
        SumSnoc(done, addr[i]);
        checksum' := (checksum' + addr[i]) % 256;
        OneMore(data, addr, i);
        done := done + [addr[i]];
      }
      assert addr[..|addr|] == addr;
    }

    /** START, the length, the API id and the unescaped frame id 0. */
    method SendHeader(length: Byte) returns (checksum: Byte)
      modifies this`wire
      ensures wire == old(wire) + [START] + EscapeAll([0, length]) + EscapeAll([API_REQUEST, 0])
      ensures checksum == Sum([API_REQUEST, 0]) % 256
    {
      Write(START);
      ghost var start := wire;
      SendByte(0, start, []);
      SendByte(length, start, [] + [0]);
      assert [] + [0] + [length] == [0, length];
      ghost var before := wire;
      SendByte(API_REQUEST, before, []);
      assert [] + [API_REQUEST] == [API_REQUEST];
      EscapeAllSnoc([API_REQUEST], 0);
      SumSnoc([], API_REQUEST);
      SumSnoc([API_REQUEST], 0);
      Write(0);
      assert [API_REQUEST] + [0] == [API_REQUEST, 0];
      checksum := API_REQUEST;
    }

    /** Whatever the payload and the address, what goes out is the transmit request, with
        its length cut to a byte, escaped throughout. */
    method Send(payload: seq<Byte>, msb: U32, lsb: U32, addr16: U16)
      requires |payload| < 256
      modifies this`wire
      ensures wire == old(wire) + Emitted(payload, msb, lsb, addr16)
    {
      ghost var length: seq<Byte> := [0, (14 + |payload|) % 256];
      ghost var before := wire + [START] + EscapeAll(length);
      ghost var data: seq<Byte> := [API_REQUEST, 0];
      var checksum := SendHeader((14 + |payload|) % 256);
      checksum := SendAddr(Put32(msb), checksum, before, data);
      data := data + Put32(msb);
      checksum := SendAddr(Put32(lsb), checksum, before, data);
      data := data + Put32(lsb);
      checksum := SendAddr(Put16(addr16), checksum, before, data);
      data := data + Put16(addr16);
      SumSnoc(data, 0);
      SendByte(0, before, data);
      data := data + [0];
      SumSnoc(data, 0);
      SendByte(0, before, data);
      data := data + [0];
      checksum := SendAddr(payload, checksum, before, data);
      data := data + payload;
      checksum := 255 - checksum;
      SendByte(checksum, before, data);
      SentFrame(old(wire), wire, payload, msb, lsb, addr16, data, checksum);
    }
  }

  lemma SentFrame(was: seq<Byte>, now: seq<Byte>, payload: seq<Byte>, msb: U32, lsb: U32, addr16: U16,
        data: seq<Byte>, check: Byte)
    requires check == Checksum(data)
    requires data == [API_REQUEST, 0] + Put32(msb) + Put32(lsb) + Put16(addr16) + [0] + [0] + payload
    requires now == was + [START] + EscapeAll([0, (14 + |payload|) % 256]) + EscapeAll(data + [check])
    ensures now == was + Emitted(payload, msb, lsb, addr16)
  {
    assert data == TxData(payload, msb, lsb, addr16);
    var length: seq<Byte> := [0, |data| % 256];
    EscapeAllConcat(length, data + [check]);
    assert length + (data + [check]) == length + data + [check];
  }
}
