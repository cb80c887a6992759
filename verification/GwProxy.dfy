/** The client's connect loop (the build for XBee, which searches for its gateway). */
module GwProxy {
  import opened Bytes
  import opened Sequences
  import opened Wrappers
  import F = SnFormats

  const MQTTSN_RETRY_COUNT := 3
  const MQTTSN_TIME_RETRY := 10

  const SEARCHGW: Byte := 0x01
  const GWINFO: Byte := 0x02
  const CONNECT: Byte := 0x04
  const CONNACK: Byte := 0x05
  const WILLTOPICREQ: Byte := 0x06
  const WILLTOPIC: Byte := 0x07
  const WILLMSGREQ: Byte := 0x08
  const WILLMSG: Byte := 0x09
  const DISCONNECT: Byte := 0x18
  const FLAG_CLEAN: Byte := 0x04
  const FLAG_WILL: Byte := 0x08

  datatype Status =
    | Lost | Searching | Connecting | WaitWillTopicReq | SendWillTopic | WaitWillMsgReq | SendWillMsg
    | WaitConnack | Connected | Disconnecting | Sleeping | Disconnected | Slept

  /** What the application configures. */
  datatype Config = Config(clientId: Str, willTopic: Option<Str>, willMsg: Option<Str>, willFlags: Byte,
                           clean: bool, keepAlive: U16) {
    predicate HasWill() {
      willTopic.Some? && willMsg.Some?
    }

    /** No message is longer than its length byte can say. */
    predicate Ok() {
      (willTopic.Some? ==> |willTopic.value| <= 252) && (willMsg.Some? ==> |willMsg.value| <= 253)
    }

    /** At most 23 characters of the client's name are sent. */
    function Name(): Str {
      if |clientId| > 23 then clientId[..23] else clientId
    }
  }

  /** The message buffer keeps what earlier messages have left in it. */
  datatype Proxy = Proxy(status: Status, retryCount: int, sendUTC: nat, buf: seq<Byte>)

  function ConnectBytes(cfg: Config, flags: Byte): (m: seq<Byte>)
    ensures |m| == 6 + |cfg.Name()|
  {
    [6 + |cfg.Name()|, CONNECT, flags, 0x01] + Put16(cfg.keepAlive) + cfg.Name()
  }

  function WillTopicBytes(cfg: Config): (m: seq<Byte>)
    requires cfg.HasWill() && cfg.Ok()
    ensures |m| == 3 + |cfg.willTopic.value|
  {
    [3 + |cfg.willTopic.value|, WILLTOPIC, cfg.willFlags] + cfg.willTopic.value
  }

  function WillMsgBytes(cfg: Config): (m: seq<Byte>)
    requires cfg.HasWill() && cfg.Ok()
    ensures |m| == 2 + |cfg.willMsg.value|
  {
    [2 + |cfg.willMsg.value|, WILLMSG] + cfg.willMsg.value
  }

  const SEARCHGW_BYTES: seq<Byte> := [3, SEARCHGW, 0]

  function WithWillFlag(flags: Byte): Byte {
    if flags / 8 % 2 == 1 then flags else (flags as int + 8) % 256
  }

  /** The flags of a CONNECT: without a clean session they start from the byte that
      happens to be in the buffer. */
  function ConnectFlags(cfg: Config, buf: seq<Byte>): Byte {
    var f := if cfg.clean then FLAG_CLEAN else Take(buf, 3)[2];
    if cfg.HasWill() then WithWillFlag(f) else f
  }

  /** A message is written over the front of the buffer. */
  function Over(m: seq<Byte>, buf: seq<Byte>): seq<Byte> {
    m + Skip(buf, |m|)
  }

  /** What writeMsg sends: as many bytes as the first says. */
  function Message(buf: seq<Byte>): seq<Byte> {
    Take(buf, Take(buf, 1)[0])
  }

  /** The message that a status has connect() write, with its terminating 0 if it is a
      string, and the status in which its answer is awaited. */
  function ToWrite(cfg: Config, p: Proxy): Option<(seq<Byte>, seq<Byte>, Status)>
    requires cfg.Ok() && (p.status == SendWillMsg || p.status == SendWillTopic ==> cfg.HasWill())
  {
    match p.status
    case SendWillMsg => Some((WillMsgBytes(cfg), [0], WaitConnack))
    case SendWillTopic => Some((WillTopicBytes(cfg), [0], WaitWillMsgReq))
    case Connecting => Some((ConnectBytes(cfg, ConnectFlags(cfg, p.buf)), [0],
          if cfg.HasWill() then WaitWillTopicReq else WaitConnack))
    case Disconnected => Some((ConnectBytes(cfg, ConnectFlags(cfg, p.buf)), [0],
          if cfg.HasWill() then WaitWillTopicReq else WaitConnack))
    case Lost => Some((SEARCHGW_BYTES, [], Searching))
    case _ => None
  }

  /** The statuses in which connect() has something to write. */
  predicate HasToWrite(s: Status) {
    s == SendWillMsg || s == SendWillTopic || s == Connecting || s == Disconnected || s == Lost
  }

  /** A will is asked for only while the application has one. */
  predicate Asking(cfg: Config, p: Proxy) {
    cfg.Ok()
    && (p.status == SendWillMsg || p.status == SendWillTopic ==> cfg.HasWill())
    && (p.status == WaitWillTopicReq || p.status == WaitWillMsgReq ==> cfg.HasWill())
  }

  /** The first half of a round of connect(): write what the status calls for. */
  function Write(cfg: Config, p: Proxy, now: nat): Proxy
    requires Asking(cfg, p)
  {
    var w := ToWrite(cfg, p);
    if w.None? then p
    else Proxy(w.value.2, MQTTSN_RETRY_COUNT, now, Over(w.value.0 + w.value.1, p.buf))
  }

  /** What readMsg finds: nothing, at a given time, or a message. */
  datatype Reply = Quiet(now: nat) | Got(kind: Byte, code: Byte)

  predicate TimedOut(p: Proxy, r: Reply) {
    r.Quiet? && p.sendUTC + MQTTSN_TIME_RETRY < r.now
  }

  predicate Resends(p: Proxy, r: Reply) {
    TimedOut(p, r) && p.retryCount - 1 > 0
  }

  /** getConnectResponce. */
  function Answer(p: Proxy, r: Reply): Proxy {
    if r.Quiet? then
      if !TimedOut(p, r) then p
      else if Resends(p, r) then p.(retryCount := p.retryCount - 1, sendUTC := r.now)
      else p.(retryCount := p.retryCount - 1, sendUTC := 0,
              status := if p.status == Lost || p.status == Searching then Lost else Connecting)
    else if r.kind == GWINFO && p.status == Searching then p.(status := Connecting)
    else if r.kind == WILLTOPICREQ && p.status == WaitWillTopicReq then p.(status := SendWillTopic)
    else if r.kind == WILLMSGREQ && p.status == WaitWillMsgReq then p.(status := SendWillMsg)
    else if r.kind == CONNACK && p.status == WaitConnack then
      p.(status := if r.code == 0 then Connected else Connecting)
    else p
  }

  // ----- runs of the loop

  /** One call of connect(), last round first: the time of a round and what is read in it. */
  datatype Run = Enter(proxy: Proxy) | Then(past: Run, now: nat, reply: Reply)

  /** connect() is never entered in the middle of a handshake. */
  predicate Idle(s: Status) {
    s == Lost || s == Connected || s == Disconnecting || s == Sleeping || s == Disconnected || s == Slept
  }

  predicate Feasible(cfg: Config, run: Run)
    decreases run, 0
  {
    match run
    case Enter(p) => cfg.Ok() && Idle(p.status)
    case Then(past, _, _) =>
      Feasible(cfg, past) && Asking(cfg, After(cfg, past)) && After(cfg, past).status != Connected
  }

  function After(cfg: Config, run: Run): Proxy
    requires Feasible(cfg, run)
    decreases run, 1
  {
    match run
    case Enter(p) => p
    case Then(past, now, reply) => Answer(Write(cfg, After(cfg, past), now), reply)
  }

  /** The state in the middle of the last round, when the answer is waited for. */
  function Middle(cfg: Config, run: Run): Proxy
    requires run.Then? && Feasible(cfg, run)
    decreases run
  {
    Write(cfg, After(cfg, run.past), run.now)
  }

  predicate Writes(cfg: Config, run: Run)
    requires run.Then? && Feasible(cfg, run)
  {
    ToWrite(cfg, After(cfg, run.past)).Some?
  }

  predicate Waiting(s: Status) {
    s == Searching || s == WaitWillTopicReq || s == WaitWillMsgReq || s == WaitConnack
  }

  /** A CONNECT of this application, whatever else is in its flags. */
  predicate IsConnect(cfg: Config, m: seq<Byte>) {
    exists flags: Byte :: m == ConnectBytes(cfg, flags) && (cfg.HasWill() ==> flags as int / 8 % 2 == 1)
                          && (cfg.clean ==> flags == if cfg.HasWill() then FLAG_CLEAN + FLAG_WILL else FLAG_CLEAN)
  }

  /** The message whose answer a status awaits. */
  predicate IsAwaited(cfg: Config, s: Status, m: seq<Byte>)
    requires cfg.Ok()
  {
    match s
    case Searching => m == SEARCHGW_BYTES
    case WaitWillTopicReq => cfg.HasWill() && IsConnect(cfg, m)
    case WaitWillMsgReq => cfg.HasWill() && m == WillTopicBytes(cfg)
    case WaitConnack => if cfg.HasWill() then m == WillMsgBytes(cfg) else IsConnect(cfg, m)
    case _ => true
  }

  lemma MessageWritten(m: seq<Byte>, end: seq<Byte>, buf: seq<Byte>)
    requires m != [] && m[0] == |m|
    ensures Message(Over(m + end, buf)) == m
  {
    Assoc(m, end, Skip(buf, |m + end|));
    TakeSkip(m, end + Skip(buf, |m + end|));
  }

  lemma WillFlagIsSet(f: Byte)
    ensures WithWillFlag(f) as int / 8 % 2 == 1
  {
    var q := f / 8;
    if q % 2 == 0 {
      assert q < 31 && f + 8 < 256;
      assert (f + 8) / 8 == q + 1;
    }
  }

  lemma FlagsAreRight(cfg: Config, buf: seq<Byte>)
    ensures cfg.HasWill() ==> ConnectFlags(cfg, buf) as int / 8 % 2 == 1
    ensures cfg.clean ==> ConnectFlags(cfg, buf) == if cfg.HasWill() then FLAG_CLEAN + FLAG_WILL else FLAG_CLEAN
  {
    WillFlagIsSet(if cfg.clean then FLAG_CLEAN else Take(buf, 3)[2]);
    assert WithWillFlag(FLAG_CLEAN) == FLAG_CLEAN + FLAG_WILL;
    hide Take, WithWillFlag;
  }

  lemma WrittenIsAwaited(cfg: Config, p: Proxy, now: nat)
    requires Asking(cfg, p) && ToWrite(cfg, p).Some?
    ensures var q := Write(cfg, p, now); Waiting(q.status) && IsAwaited(cfg, q.status, Message(q.buf))
  {
    var w := ToWrite(cfg, p).value;
    MessageWritten(w.0, w.1, p.buf);
    FlagsAreRight(cfg, p.buf);
    hide Message, Over, ConnectFlags;
    if p.status == Connecting || p.status == Disconnected {
      assert IsConnect(cfg, w.0);
    }
  }

  predicate HoldsAwaited(cfg: Config, p: Proxy) {
    Asking(cfg, p) && IsAwaited(cfg, p.status, Message(p.buf))
  }

  lemma WriteKeepsAwaited(cfg: Config, p: Proxy, now: nat)
    requires HoldsAwaited(cfg, p)
    ensures HoldsAwaited(cfg, Write(cfg, p, now))
  {
    if ToWrite(cfg, p).Some? {
      WrittenIsAwaited(cfg, p, now);
    }
    hide Message, IsAwaited, ConnectBytes, WillTopicBytes, WillMsgBytes, Over, ConnectFlags;
  }

  lemma AnswerKeepsAwaited(cfg: Config, p: Proxy, r: Reply)
    requires HoldsAwaited(cfg, p)
    ensures HoldsAwaited(cfg, Answer(p, r))
  {
    hide Message, IsConnect, WillTopicBytes, WillMsgBytes;
  }

  /** In every run, while an answer is awaited, the buffer holds the message that it
      answers; so what a time-out sends again is that message. */
  lemma {:induction false} BufferIsAwaited(cfg: Config, run: Run)
    requires Feasible(cfg, run)
    ensures HoldsAwaited(cfg, After(cfg, run)) && (run.Then? ==> HoldsAwaited(cfg, Middle(cfg, run)))
  {
    if run.Then? {
      BufferIsAwaited(cfg, run.past);
      WriteKeepsAwaited(cfg, After(cfg, run.past), run.now);
      AnswerKeepsAwaited(cfg, Middle(cfg, run), run.reply);
      hide Write, Answer, HoldsAwaited;
    }
  }

  // ----- what the messages say

  /** The first 23 characters of the client's name. */
  function IdSent(cfg: Config): Str {
    if |cfg.clientId| <= 23 then cfg.clientId else cfg.clientId[..23]
  }

  /** The message tells the gateway what the application has configured. */
  predicate SaysAsConfigured(cfg: Config, m: seq<Byte>) {
    match F.Read(m)
    case Some(Connect(clean, will, otherFlags, protocolId, duration, clientId)) =>
      protocolId == 1 && duration == cfg.keepAlive && clientId == IdSent(cfg)
      && (cfg.HasWill() ==> will) && (cfg.clean ==> clean && will == cfg.HasWill() && otherFlags == 0)
    case Some(WillTopic(qos, retain, topic)) =>
      cfg.willTopic == Some(topic) && qos == cfg.willFlags as int / 32 % 4
      && retain == (cfg.willFlags as int / 16 % 2 == 1)
    case Some(WillMsg(message)) => cfg.willMsg == Some(message)
    case Some(SearchGw(radius)) => radius == 0
    case _ => false
  }

  lemma ConnectIsRead(cfg: Config, flags: Byte)
    ensures F.Read(ConnectBytes(cfg, flags))
            == Some(F.Connect(flags as int / 4 % 2 == 1, flags as int / 8 % 2 == 1,
                              flags as int / 16 * 16 + flags % 4, 1, cfg.keepAlive, IdSent(cfg)))
  {
    var head, keepAlive := [6 + |cfg.Name()|, CONNECT, flags, 0x01], Put16(cfg.keepAlive);
    var m := ConnectBytes(cfg, flags);
    assert m == head + (keepAlive + cfg.Name());
    assert m[4] == keepAlive[0] && m[5] == keepAlive[1] && m[6..] == cfg.Name();
    assert keepAlive[0] as int * 256 + keepAlive[1] == cfg.keepAlive;
  }

  lemma WillIsRead(cfg: Config)
    requires cfg.HasWill() && cfg.Ok()
    ensures var flags := cfg.willFlags as int;
            F.Read(WillTopicBytes(cfg)) == Some(F.WillTopic(flags / 32 % 4, flags / 16 % 2 == 1, cfg.willTopic.value))
    ensures F.Read(WillMsgBytes(cfg)) == Some(F.WillMsg(cfg.willMsg.value))
  {
    assert WillTopicBytes(cfg)[3..] == cfg.willTopic.value && WillMsgBytes(cfg)[2..] == cfg.willMsg.value;
  }

  lemma AwaitedSays(cfg: Config, s: Status, m: seq<Byte>)
    requires cfg.Ok() && Waiting(s) && IsAwaited(cfg, s, m)
    ensures SaysAsConfigured(cfg, m)
    ensures F.Read(m).Some?
            && (s == Searching ==> F.Read(m).value.SearchGw?)
            && (s == WaitWillTopicReq ==> F.Read(m).value.Connect?)
            && (s == WaitWillMsgReq ==> F.Read(m).value.WillTopic?)
            && (s == WaitConnack ==> if cfg.HasWill() then F.Read(m).value.WillMsg? else F.Read(m).value.Connect?)
  {
    if s == WaitWillTopicReq || (s == WaitConnack && !cfg.HasWill()) {
      var flags: Byte :| m == ConnectBytes(cfg, flags) && (cfg.HasWill() ==> flags as int / 8 % 2 == 1)
            && (cfg.clean ==> flags == if cfg.HasWill() then FLAG_CLEAN + FLAG_WILL else FLAG_CLEAN);
      ConnectSays(cfg, flags);
      hide SaysAsConfigured, F.Read;
    } else if s != Searching {
      WillIsRead(cfg);
      hide F.Read;
    }
    hide ConnectBytes, WillTopicBytes, WillMsgBytes, IdSent;
  }

  lemma ConnectSays(cfg: Config, flags: Byte)
    requires cfg.HasWill() ==> flags as int / 8 % 2 == 1
    requires cfg.clean ==> flags == if cfg.HasWill() then FLAG_CLEAN + FLAG_WILL else FLAG_CLEAN
    ensures SaysAsConfigured(cfg, ConnectBytes(cfg, flags))
    ensures F.Read(ConnectBytes(cfg, flags)).Some? && F.Read(ConnectBytes(cfg, flags)).value.Connect?
  {
    ConnectIsRead(cfg, flags);
    hide ConnectBytes, IdSent, F.Read;
  }

  /** The status in which connect() was called. */
  function EnteredIn(run: Run): Status {
    match run
    case Enter(p) => p.status
    case Then(past, _, _) => EnteredIn(past)
  }

  /** Every message that connect() sends, in every run that begins Lost or Disconnected,
      tells a reader that follows the formats of MQTT-SN what the application has configured:
      the keep-alive and the first 23 characters of the client's name, the will's topic, flags
      and message. (In the other statuses connect() writes nothing until a time-out.) */
  lemma {:induction false} SentAsConfigured(cfg: Config, run: Run, i: nat)
    requires Feasible(cfg, run) && HasToWrite(EnteredIn(run)) && i < |AllSent(cfg, run)|
    ensures SaysAsConfigured(cfg, AllSent(cfg, run)[i])
    decreases run
  {
    if run.Then? {
      if i < |AllSent(cfg, run.past)| {
        SentAsConfigured(cfg, run.past, i);
      } else {
        WritesAtOnce(cfg, run);
        SentWhileWaiting(cfg, run);
        AwaitedSays(cfg, Middle(cfg, run).status, Message(Middle(cfg, run).buf));
      }
      hide Message, SaysAsConfigured, IsAwaited, Middle;
    }
  }

  lemma {:induction false} WritesAtOnce(cfg: Config, run: Run)
    requires run.Then? && Feasible(cfg, run) && HasToWrite(EnteredIn(run))
    ensures HasWritten(cfg, run)
  {
    if run.past.Then? {
      WritesAtOnce(cfg, run.past);
    }
    hide ConnectBytes, WillTopicBytes, WillMsgBytes, ConnectFlags;
  }

  /** What is sent once connect() has written is the message whose answer is awaited. */
  lemma SentWhileWaiting(cfg: Config, run: Run)
    requires run.Then? && Feasible(cfg, run) && HasWritten(cfg, run) && (Writes(cfg, run) || Resent(cfg, run) == 1)
    ensures Waiting(Middle(cfg, run).status)
    ensures IsAwaited(cfg, Middle(cfg, run).status, Message(Middle(cfg, run).buf))
  {
    BufferIsAwaited(cfg, run);
    if Writes(cfg, run) {
      WrittenIsAwaited(cfg, After(cfg, run.past), run.now);
    } else {
      AtMostThreeCopies(cfg, run.past);
    }
    hide IsAwaited, Message, ConnectBytes, WillTopicBytes, WillMsgBytes, ConnectFlags;
  }

  /** A DISCONNECT says for how long the client means to sleep. */
  lemma DisconnectIsRead(secs: U16)
    ensures F.Read(DisconnectBytes(secs)) == Some(F.Disconnect(if secs == 0 then None else Some(secs)))
  {
  }

  // ----- how often a message is sent

  function Resent(cfg: Config, run: Run): nat
    requires run.Then? && Feasible(cfg, run)
  {
    if Resends(Middle(cfg, run), run.reply) then 1 else 0
  }

  /** The copies of the message in the buffer since it was written. */
  function Copies(cfg: Config, run: Run): nat
    requires Feasible(cfg, run)
    decreases run
  {
    if run.Enter? then 0
    else (if Writes(cfg, run) then 1 else Copies(cfg, run.past)) + Resent(cfg, run)
  }

  /** connect() has written a message. */
  predicate HasWritten(cfg: Config, run: Run)
    requires Feasible(cfg, run)
    decreases run
  {
    run.Then? && (Writes(cfg, run) || HasWritten(cfg, run.past))
  }

  /** Each message that connect() writes goes out at most three times, and while its
      answer is awaited the retry count says how many times are left. */
  lemma {:induction false} AtMostThreeCopies(cfg: Config, run: Run)
    requires Feasible(cfg, run)
    ensures HasWritten(cfg, run) ==> 1 <= Copies(cfg, run) <= 3
    ensures Waiting(After(cfg, run).status) ==>
              HasWritten(cfg, run) && After(cfg, run).retryCount == 4 - Copies(cfg, run)
    ensures HasWritten(cfg, run) ==>
              var s := After(cfg, run).status; Waiting(s) || HasToWrite(s) || s == Connected
  {
    if run.Then? {
      AtMostThreeCopies(cfg, run.past);
      var p := After(cfg, run.past);
      hide Message, ConnectBytes, WillTopicBytes, WillMsgBytes, ConnectFlags, Over;
    }
  }

  /** When the message in the buffer was last sent, as the last answer is waited for. */
  function LastSent(cfg: Config, run: Run): nat
    requires run.Then? && Feasible(cfg, run)
    decreases run
  {
    if Writes(cfg, run) then run.now
    else if run.past.Enter? then run.past.proxy.sendUTC
    else if Resent(cfg, run.past) == 1 then run.past.reply.now
    else LastSent(cfg, run.past)
  }

  /** The copies that have gone out by then. */
  function CopiesOut(cfg: Config, run: Run): nat
    requires run.Then? && Feasible(cfg, run)
  {
    if Writes(cfg, run) then 1 else Copies(cfg, run.past)
  }

  lemma {:induction false} WaitsSince(cfg: Config, run: Run)
    requires run.Then? && Feasible(cfg, run) && Waiting(Middle(cfg, run).status)
    ensures Middle(cfg, run).sendUTC == LastSent(cfg, run)
    ensures Middle(cfg, run).retryCount == 4 - CopiesOut(cfg, run)
  {
    AtMostThreeCopies(cfg, run.past);
    if !Writes(cfg, run) {
      assert Middle(cfg, run) == After(cfg, run.past);
      assert run.past.Then?;
      WaitsBefore(cfg, run.past);
      if Resent(cfg, run.past) == 0 {
        WaitsSince(cfg, run.past);
      }
    }
    hide Message, ConnectBytes, WillTopicBytes, WillMsgBytes, ConnectFlags, Over, Copies;
  }

  /** A round that ends waiting has waited for the same. */
  lemma WaitsBefore(cfg: Config, run: Run)
    requires run.Then? && Feasible(cfg, run) && Waiting(After(cfg, run).status)
    ensures Middle(cfg, run).status == After(cfg, run).status
    ensures After(cfg, run).sendUTC == if Resent(cfg, run) == 1 then run.reply.now else Middle(cfg, run).sendUTC
  {
    hide Write;
  }

  /** While an answer is awaited: the right answer moves the dialogue on, any other does not;
      after more than ten seconds of silence the message is sent again if it has gone out
      fewer than three times, and else the dialogue starts over, or the search does. */
  lemma RoundIsExact(cfg: Config, run: Run)
    requires run.Then? && Feasible(cfg, run) && Waiting(Middle(cfg, run).status)
    ensures var s, r, next := Middle(cfg, run).status, run.reply, After(cfg, run).status;
            r.Got? ==>
              Resent(cfg, run) == 0
              && next == if s == Searching && r.kind == 0x02 then Connecting
                         else if s == WaitWillTopicReq && r.kind == 0x06 then SendWillTopic
                         else if s == WaitWillMsgReq && r.kind == 0x08 then SendWillMsg
                         else if s == WaitConnack && r.kind == 0x05 && r.code == 0 then Connected
                         else if s == WaitConnack && r.kind == 0x05 then Connecting
                         else s
    ensures var s, r, next := Middle(cfg, run).status, run.reply, After(cfg, run).status;
            r.Quiet? ==>
              var late := r.now > LastSent(cfg, run) + 10;
              (Resent(cfg, run) == 1 <==> late && CopiesOut(cfg, run) < 3)
              && next == if late && CopiesOut(cfg, run) >= 3 then if s == Searching then Lost else Connecting else s
  {
    WaitsSince(cfg, run);
    hide Write, LastSent, CopiesOut;
  }

  /** What connect() does with a status: it searches for a lost gateway, and asks for a
      connection with the message that comes next in the dialogue. */
  lemma WritesExactly(cfg: Config, run: Run)
    requires run.Then? && Feasible(cfg, run)
    ensures var s, next := After(cfg, run.past).status, Middle(cfg, run).status;
            (Writes(cfg, run) <==> s == Lost || s == Disconnected || s == Connecting || s == SendWillTopic
                                   || s == SendWillMsg)
            && next == if s == Lost then Searching
                       else if s == Disconnected || s == Connecting then
                         if cfg.HasWill() then WaitWillTopicReq else WaitConnack
                       else if s == SendWillTopic then WaitWillMsgReq
                       else if s == SendWillMsg then WaitConnack
                       else s
  {
    hide ConnectBytes, WillTopicBytes, WillMsgBytes, ConnectFlags, Over;
  }

  // ----- what has been sent when the client is connected

  function Kind(buf: seq<Byte>): Byte {
    Take(buf, 2)[1]
  }

  /** The types of the messages sent since connect() last wrote a CONNECT, in order. */
  function SinceConnect(cfg: Config, run: Run): seq<Byte>
    requires Feasible(cfg, run)
    decreases run, 1
  {
    if run.Enter? then []
    else if Resent(cfg, run) == 1 then Written(cfg, run) + [Kind(Middle(cfg, run).buf)]
    else Written(cfg, run)
  }

  /** Those that have been sent when the answer is waited for in the last round. */
  function Written(cfg: Config, run: Run): seq<Byte>
    requires run.Then? && Feasible(cfg, run)
    decreases run, 0
  {
    if !Writes(cfg, run) then SinceConnect(cfg, run.past)
    else if Kind(Middle(cfg, run).buf) == CONNECT then [CONNECT]
    else SinceConnect(cfg, run.past) + [Kind(Middle(cfg, run).buf)]
  }

  function Repeat(kind: Byte, n: nat): seq<Byte> {
    if n == 0 then [] else Repeat(kind, n - 1) + [kind]
  }

  /** First CONNECTs, then WILLTOPICs, then WILLMSGs. */
  function Dialogue(a: nat, b: nat, c: nat): seq<Byte> {
    Repeat(CONNECT, a) + Repeat(WILLTOPIC, b) + Repeat(WILLMSG, c)
  }

  lemma DialogueGrows(a: nat, b: nat, c: nat)
    ensures Dialogue(a, b, c) + [WILLMSG] == Dialogue(a, b, c + 1)
    ensures c == 0 ==> Dialogue(a, b, c) + [WILLTOPIC] == Dialogue(a, b + 1, c)
    ensures b == c == 0 ==> Dialogue(a, b, c) + [CONNECT] == Dialogue(a + 1, b, c)
    ensures [CONNECT] == Dialogue(1, 0, 0)
  {
  }

  /** How far the dialogue is in a status, `n` being the copies of the last message. */
  predicate Progress(cfg: Config, s: Status, n: nat, a: nat, b: nat, c: nat) {
    match s
    case WaitWillTopicReq => a == n && b == c == 0
    case SendWillTopic => 1 <= a <= 3 && b == c == 0
    case WaitWillMsgReq => 1 <= a <= 3 && b == n && c == 0
    case SendWillMsg => 1 <= a <= 3 && 1 <= b <= 3 && c == 0
    case WaitConnack => if cfg.HasWill() then 1 <= a <= 3 && 1 <= b <= 3 && c == n else a == n && b == c == 0
    case Connected => 1 <= a <= 3 && if cfg.HasWill() then 1 <= b <= 3 && 1 <= c <= 3 else b == c == 0
    case _ => true
  }

  /** The statuses of the dialogue. */
  predicate Dialoguing(s: Status) {
    s == WaitWillTopicReq || s == SendWillTopic || s == WaitWillMsgReq || s == SendWillMsg || s == WaitConnack
          || s == Connected
  }

  lemma KindWritten(cfg: Config, p: Proxy, now: nat)
    requires Asking(cfg, p) && ToWrite(cfg, p).Some?
    ensures Kind(Write(cfg, p, now).buf)
            == (if p.status == SendWillMsg then WILLMSG
                else if p.status == SendWillTopic then WILLTOPIC
                else if p.status == Lost then SEARCHGW
                else CONNECT)
  {
  }

  predicate KindFits(cfg: Config, p: Proxy) {
    match p.status
    case WaitWillTopicReq => Kind(p.buf) == CONNECT
    case WaitWillMsgReq => Kind(p.buf) == WILLTOPIC
    case WaitConnack => Kind(p.buf) == if cfg.HasWill() then WILLMSG else CONNECT
    case _ => true
  }

  lemma WriteKeepsKind(cfg: Config, p: Proxy, now: nat)
    requires Asking(cfg, p) && KindFits(cfg, p)
    ensures KindFits(cfg, Write(cfg, p, now))
  {
    if ToWrite(cfg, p).Some? {
      KindWritten(cfg, p, now);
    }
    hide Kind, ConnectBytes, WillTopicBytes, WillMsgBytes, ConnectFlags, Over;
  }

  lemma AnswerKeepsKind(cfg: Config, p: Proxy, r: Reply)
    requires KindFits(cfg, p)
    ensures KindFits(cfg, Answer(p, r))
  {
    hide Kind;
  }

  lemma {:induction false} KindAwaited(cfg: Config, run: Run)
    requires Feasible(cfg, run)
    ensures KindFits(cfg, After(cfg, run)) && (run.Then? ==> KindFits(cfg, Middle(cfg, run)))
  {
    if run.Then? {
      KindAwaited(cfg, run.past);
      WriteKeepsKind(cfg, After(cfg, run.past), run.now);
      AnswerKeepsKind(cfg, Middle(cfg, run), run.reply);
      hide Write, Answer, KindFits;
    }
  }

  /** In every run the messages sent since the last fresh CONNECT are the dialogue up
      to the present status. */
  lemma {:induction false} DialogueSoFar(cfg: Config, run: Run) returns (a: nat, b: nat, c: nat)
    requires Feasible(cfg, run)
    ensures run.Then? && Dialoguing(After(cfg, run).status) ==>
              SinceConnect(cfg, run) == Dialogue(a, b, c)
              && Progress(cfg, After(cfg, run).status, Copies(cfg, run), a, b, c)
  {
    a, b, c := 0, 0, 0;
    if run.Then? {
      a, b, c := DialogueSoFar(cfg, run.past);
      a, b, c := DialogueStep(cfg, run, a, b, c);
    }
  }

  /** The dialogue in the middle of a round, what is written included. */
  lemma DialogueWritten(cfg: Config, run: Run, a0: nat, b0: nat, c0: nat) returns (a: nat, b: nat, c: nat)
    requires run.Then? && Feasible(cfg, run)
    requires run.past.Then? && Dialoguing(After(cfg, run.past).status) ==>
               SinceConnect(cfg, run.past) == Dialogue(a0, b0, c0)
               && Progress(cfg, After(cfg, run.past).status, Copies(cfg, run.past), a0, b0, c0)
    ensures var s := Middle(cfg, run).status;
            Dialoguing(s) ==>
              Written(cfg, run) == Dialogue(a, b, c)
              && Progress(cfg, s, if Writes(cfg, run) then 1 else Copies(cfg, run.past), a, b, c)
  {
    var p := After(cfg, run.past);
    a, b, c := a0, b0, c0;
    if ToWrite(cfg, p).Some? {
      KindWritten(cfg, p, run.now);
      DialogueGrows(a0, b0, c0);
      if p.status == SendWillMsg {
        c := c0 + 1;
      } else if p.status == SendWillTopic {
        b := b0 + 1;
      } else {
        a, b, c := 1, 0, 0;
      }
    }
    hide Dialogue, Kind, ConnectBytes, WillTopicBytes, WillMsgBytes, ConnectFlags, Over;
  }

  lemma CopiesInMiddle(cfg: Config, run: Run)
    requires run.Then? && Feasible(cfg, run) && Waiting(Middle(cfg, run).status)
    ensures 1 <= (if Writes(cfg, run) then 1 else Copies(cfg, run.past)) <= 3
  {
    AtMostThreeCopies(cfg, run.past);
    hide Copies, HasWritten;
  }

  lemma DialogueStep(cfg: Config, run: Run, a0: nat, b0: nat, c0: nat) returns (a: nat, b: nat, c: nat)
    requires run.Then? && Feasible(cfg, run)
    requires run.past.Then? && Dialoguing(After(cfg, run.past).status) ==>
               SinceConnect(cfg, run.past) == Dialogue(a0, b0, c0)
               && Progress(cfg, After(cfg, run.past).status, Copies(cfg, run.past), a0, b0, c0)
    ensures Dialoguing(After(cfg, run).status) ==>
              SinceConnect(cfg, run) == Dialogue(a, b, c)
              && Progress(cfg, After(cfg, run).status, Copies(cfg, run), a, b, c)
  {
    a, b, c := DialogueWritten(cfg, run, a0, b0, c0);
    DialogueGrows(a, b, c);
    AtMostThreeCopies(cfg, run);
    if Waiting(Middle(cfg, run).status) {
      CopiesInMiddle(cfg, run);
    }
    KindAwaited(cfg, run);
    AnswerMoves(cfg, run);
    assert Copies(cfg, run) == (if Writes(cfg, run) then 1 else Copies(cfg, run.past)) + Resent(cfg, run);
    hide Dialogue, Kind, Middle, Writes, Written, Resent, After, HasWritten, Copies, Feasible;
    if Resent(cfg, run) == 1 {
      match Middle(cfg, run).status {
        case WaitWillTopicReq => a := a + 1;
        case WaitWillMsgReq => b := b + 1;
        case WaitConnack => if cfg.HasWill() { c := c + 1; } else { a := a + 1; }
        case _ =>
      }
    }
  }

  /** What reading does to the status. */
  lemma AnswerMoves(cfg: Config, run: Run)
    requires run.Then? && Feasible(cfg, run)
    ensures var m, s := Middle(cfg, run).status, After(cfg, run).status;
            (Resent(cfg, run) == 1 ==> s == m)
            && (Dialoguing(s) ==>
                  s == m
                  || (Resent(cfg, run) == 0
                      && ((m == WaitWillTopicReq && s == SendWillTopic)
                          || (m == WaitWillMsgReq && s == SendWillMsg)
                          || (m == WaitConnack && s == Connected && run.reply == Got(CONNACK, 0)))))
  {
    hide Write, ToWrite;
  }

  /** In every run the client becomes connected only by a CONNACK with return code 0,
      and what it has sent since it last wrote a CONNECT is then: one to three
      CONNECTs and, if it has a will, one to three WILLTOPICs and one to three
      WILLMSGs, in this order and nothing else. */
  lemma ConnectedAfterDialogue(cfg: Config, run: Run) returns (a: nat, b: nat, c: nat)
    requires run.Then? && Feasible(cfg, run) && After(cfg, run).status == Connected
    ensures run.reply == Got(CONNACK, 0) && Middle(cfg, run).status == WaitConnack
    ensures SinceConnect(cfg, run) == Dialogue(a, b, c)
    ensures 1 <= a <= 3 && if cfg.HasWill() then 1 <= b <= 3 && 1 <= c <= 3 else b == c == 0
  {
    a, b, c := DialogueSoFar(cfg, run);
    AnswerMoves(cfg, run);
    assert After(cfg, run.past).status != Connected;
    MiddleNotConnected(cfg, run);
    hide After, Middle, SinceConnect, Dialogue;
  }

  lemma MiddleNotConnected(cfg: Config, run: Run)
    requires run.Then? && Feasible(cfg, run)
    ensures Middle(cfg, run).status != Connected
  {
  }

  // ----- the flags of a CONNECT

  function Intended(cfg: Config): Byte {
    (if cfg.clean then FLAG_CLEAN else 0) + if cfg.HasWill() then FLAG_WILL else 0
  }

  /** A CONNECT has the flags the application configured exactly if it asks for a clean
      session, or the third byte of the buffer is 0, or is the will flag and there
      is a will. */
  lemma FlagsIntendedExactly(cfg: Config, buf: seq<Byte>)
    ensures var left := Take(buf, 3)[2];
            ConnectFlags(cfg, buf) == Intended(cfg) <==> cfg.clean || left == 0 || (left == FLAG_WILL && cfg.HasWill())
  {
    FlagBit(Take(buf, 3)[2]);
  }

  lemma FlagBit(f: Byte)
    ensures WithWillFlag(f) == FLAG_WILL <==> f == 0 || f == FLAG_WILL
  {
  }

  /** So the first CONNECT after a search for the gateway is right. */
  lemma RightAfterSearch(cfg: Config, buf: seq<Byte>)
    ensures ConnectFlags(cfg, Over(SEARCHGW_BYTES, buf)) == Intended(cfg)
  {
    assert Take(Over(SEARCHGW_BYTES, buf), 3) == SEARCHGW_BYTES by {
      TakeSkip(SEARCHGW_BYTES, Skip(buf, 3));
    }
    FlagsIntendedExactly(cfg, Over(SEARCHGW_BYTES, buf));
  }

  /** A third byte that a CONNECT can take over. */
  predicate Usable(cfg: Config, left: Byte) {
    left == 0 || (left == FLAG_WILL && cfg.HasWill())
  }

  /** The third byte of a WILLMSG. */
  function ThirdOfWillMsg(cfg: Config): Byte
    requires cfg.HasWill()
  {
    if cfg.willMsg.value == [] then 0 else cfg.willMsg.value[0]
  }

  /** The last message written leaves a usable third byte: a SEARCHGW does, a WILLTOPIC if
      its flags and a WILLMSG if its first character is usable; a CONNECT leaves what it
      took over, and before the first message it is what connect() was entered with. */
  predicate LeavesUsable(cfg: Config, run: Run)
    requires Feasible(cfg, run)
    decreases run
  {
    if run.Enter? then Usable(cfg, Take(run.proxy.buf, 3)[2])
    else if After(cfg, run.past).status == Lost then true
    else if After(cfg, run.past).status == SendWillTopic then Usable(cfg, cfg.willFlags)
    else if After(cfg, run.past).status == SendWillMsg then Usable(cfg, ThirdOfWillMsg(cfg))
    else LeavesUsable(cfg, run.past)
  }

  lemma ThirdWritten(cfg: Config, p: Proxy, now: nat)
    requires Asking(cfg, p)
    ensures var left, next := Take(p.buf, 3)[2], Take(Write(cfg, p, now).buf, 3)[2];
            next == match p.status
                    case Lost => 0
                    case SendWillTopic => cfg.willFlags
                    case SendWillMsg => ThirdOfWillMsg(cfg)
                    case Connecting => ConnectFlags(cfg, p.buf)
                    case Disconnected => ConnectFlags(cfg, p.buf)
                    case _ => left
  {
    var w := ToWrite(cfg, p);
    if w.Some? {
      var m := w.value.0 + w.value.1;
      ThirdOver(m, p.buf);
    }
    hide Over, ConnectFlags;
  }

  lemma ThirdOver(m: seq<Byte>, buf: seq<Byte>)
    requires |m| >= 3
    ensures Take(Over(m, buf), 3)[2] == m[2]
  {
    var first := m[..3];
    Assoc(first, m[3..], Skip(buf, |m|));
    TakeSkip(first, m[3..] + Skip(buf, |m|));
    assert m == first + m[3..];
  }

  /** A CONNECT that takes over a usable byte leaves one. */
  lemma UsableAgain(cfg: Config, buf: seq<Byte>)
    requires !cfg.clean
    ensures Usable(cfg, ConnectFlags(cfg, buf)) <==> Usable(cfg, Take(buf, 3)[2])
  {
    FlagBit(Take(buf, 3)[2]);
    WillFlagIsSet(Take(buf, 3)[2]);
  }

  lemma {:induction false} UsableExactly(cfg: Config, run: Run)
    requires Feasible(cfg, run) && !cfg.clean
    ensures Usable(cfg, Take(After(cfg, run).buf, 3)[2]) <==> LeavesUsable(cfg, run)
  {
    if run.Then? {
      var p := After(cfg, run.past);
      UsableExactly(cfg, run.past);
      ThirdWritten(cfg, p, run.now);
      UsableAgain(cfg, p.buf);
      assert After(cfg, run).buf == Write(cfg, p, run.now).buf;
      hide ConnectFlags, Write, Take;
    }
  }

  /** The next round of connect() sends a CONNECT, and it has the flags configured. */
  predicate ConnectsRightly(cfg: Config, run: Run, now: nat)
    requires Feasible(cfg, run) && Asking(cfg, After(cfg, run))
  {
    Message(Write(cfg, After(cfg, run), now).buf) == ConnectBytes(cfg, Intended(cfg))
  }

  /** In every run, a CONNECT goes out with the flags the application configured if and
      only if it asks for a clean session, or the message before it leaves a usable byte. */
  lemma ConnectFlagsExactly(cfg: Config, run: Run, now: nat)
    requires Feasible(cfg, run) && Asking(cfg, After(cfg, run))
    requires After(cfg, run).status == Connecting || After(cfg, run).status == Disconnected
    ensures ConnectsRightly(cfg, run, now) <==> cfg.clean || LeavesUsable(cfg, run)
  {
    var buf := After(cfg, run).buf;
    if !cfg.clean {
      UsableExactly(cfg, run);
    }
    FlagsIntendedExactly(cfg, buf);
    var m := ConnectBytes(cfg, ConnectFlags(cfg, buf));
    MessageWritten(m, [0], buf);
    ConnectBytesDiffer(cfg, ConnectFlags(cfg, buf), Intended(cfg));
    hide Message, Over, ConnectBytes, ConnectFlags, LeavesUsable, Take, Intended;
  }

  lemma ConnectBytesDiffer(cfg: Config, f: Byte, g: Byte)
    ensures ConnectBytes(cfg, f) == ConnectBytes(cfg, g) <==> f == g
  {
    assert ConnectBytes(cfg, f)[2] == f && ConnectBytes(cfg, g)[2] == g;
  }

  /** connect() was called while the gateway was lost. */
  predicate FromLost(run: Run) {
    match run
    case Enter(p) => p.status == Lost
    case Then(past, _, _) => FromLost(past)
  }

  ghost predicate RightFromLost(cfg: Config, run: Run) {
    FromLost(run) && Feasible(cfg, run) && Asking(cfg, After(cfg, run))
    && (After(cfg, run).status == Connecting || After(cfg, run).status == Disconnected) ==>
      ConnectsRightly(cfg, run, 0)
  }

  /** What the application has to configure for all its CONNECTs to be right: a clean
      session, or no will, or one whose flags and first character are 0 or the will flag. */
  predicate AlwaysUsable(cfg: Config) {
    cfg.clean || !cfg.HasWill() || (Usable(cfg, cfg.willFlags) && Usable(cfg, ThirdOfWillMsg(cfg)))
  }

  lemma {:induction false} StaysUsable(cfg: Config, run: Run)
    requires Feasible(cfg, run) && FromLost(run) && AlwaysUsable(cfg) && !cfg.clean
    ensures After(cfg, run).status == Lost || LeavesUsable(cfg, run)
  {
    if run.Then? {
      StaysUsable(cfg, run.past);
      hide ToWrite;
    }
  }

  /** The gateway takes the will and refuses the connection. */
  function Refused(): Run {
    Then(Then(WillTopicAsked(), 0, Got(WILLMSGREQ, 0)), 0, Got(CONNACK, 1))
  }

  /** The gateway falls silent after the WILLTOPIC. */
  function Unanswered(): Run {
    Then(Then(Then(WillTopicAsked(), 0, Quiet(11)), 11, Quiet(22)), 22, Quiet(33))
  }

  function WillTopicAsked(): Run {
    Then(Then(Enter(Proxy(Lost, 0, 0, [])), 0, Got(GWINFO, 0)), 0, Got(WILLTOPICREQ, 0))
  }

  lemma BothReconnect(cfg: Config)
    requires cfg.Ok() && cfg.HasWill()
    ensures FromLost(Refused()) && Feasible(cfg, Refused())
    ensures After(cfg, Refused()).status == Connecting && Asking(cfg, After(cfg, Refused()))
    ensures LeavesUsable(cfg, Refused()) <==> Usable(cfg, ThirdOfWillMsg(cfg))
    ensures FromLost(Unanswered()) && Feasible(cfg, Unanswered())
    ensures After(cfg, Unanswered()).status == Connecting && Asking(cfg, After(cfg, Unanswered()))
    ensures LeavesUsable(cfg, Unanswered()) <==> Usable(cfg, cfg.willFlags)
  {
    hide Over, WillTopicBytes, WillMsgBytes, ConnectBytes, ConnectFlags, Usable, ThirdOfWillMsg;
  }

  /** Whatever the gateway does, all CONNECTs of a client that had lost it are right if
      and only if the application has configured that. */
  lemma AlwaysRightExactly(cfg: Config)
    requires cfg.Ok()
    ensures (forall run: Run :: RightFromLost(cfg, run)) <==> AlwaysUsable(cfg)
  {
    if AlwaysUsable(cfg) {
      forall run: Run ensures RightFromLost(cfg, run) {
        RightIfUsable(cfg, run);
      }
    } else {
      BothReconnect(cfg);
      ConnectFlagsExactly(cfg, Refused(), 0);
      ConnectFlagsExactly(cfg, Unanswered(), 0);
      hide After, Feasible, Asking, ConnectsRightly, LeavesUsable, Refused, Unanswered, FromLost;
      assert !RightFromLost(cfg, Refused()) || !RightFromLost(cfg, Unanswered());
    }
  }

  const WILL_CONFIG: Config := Config([], Some([0x74]), Some([0x77, 0x69, 0x6C, 0x6C]), 0, false, 60)

  /** A will of the text "will" and a gateway that takes it and refuses the connection: the
      next CONNECT has flags 0x7F where 0x08 is meant. */
  lemma WrongFlagsSent()
    ensures Feasible(WILL_CONFIG, Refused()) && Asking(WILL_CONFIG, After(WILL_CONFIG, Refused()))
    ensures var p := After(WILL_CONFIG, Refused());
            ToWrite(WILL_CONFIG, p) == Some((ConnectBytes(WILL_CONFIG, 0x7F), [0], WaitWillTopicReq))
    ensures Intended(WILL_CONFIG) == 0x08
  {
    hide Over, Take, ConnectBytes, WillMsgBytes, WillTopicBytes, LeavesUsable, After, Feasible, Refused;
    BothReconnect(WILL_CONFIG);
    RefusedLeaves(WILL_CONFIG);
  }

  lemma RefusedLeaves(cfg: Config)
    requires cfg.Ok() && cfg.HasWill()
    ensures Feasible(cfg, Refused()) && Take(After(cfg, Refused()).buf, 3)[2] == ThirdOfWillMsg(cfg)
  {
    BothReconnect(cfg);
    hide Over, Take, ConnectBytes, WillMsgBytes, WillTopicBytes, ThirdOfWillMsg, ConnectFlags;
    ThirdWritten(cfg, After(cfg, Refused().past), 0);
  }

  lemma RightIfUsable(cfg: Config, run: Run)
    requires cfg.Ok() && AlwaysUsable(cfg)
    ensures RightFromLost(cfg, run)
  {
    if FromLost(run) && Feasible(cfg, run) && Asking(cfg, After(cfg, run))
       && (After(cfg, run).status == Connecting || After(cfg, run).status == Disconnected) {
      ConnectFlagsExactly(cfg, run, 0);
      if !cfg.clean {
        StaysUsable(cfg, run);
      }
    }
    hide ConnectsRightly, After, LeavesUsable;
  }

  // ----- disconnecting

  /** getDisconnectResponce, which says Lost when the retries are used up. */
  function DisconnectAnswer(p: Proxy, sleep: bool, r: Reply): Proxy {
    if r.Quiet? then
      if !TimedOut(p, r) then p
      else if p.retryCount - 1 >= 0 then p.(retryCount := p.retryCount - 1, sendUTC := r.now)
      else p.(retryCount := p.retryCount - 1, status := Lost)
    else if r.kind == DISCONNECT then p.(status := if sleep then Sleeping else Disconnected)
    else p
  }

  /** The loop of disconnect(), for as long as there is something to read. */
  function DisconnectLoop(p: Proxy, sleep: bool, replies: seq<Reply>): Proxy
    decreases |replies|
  {
    if p.status == Disconnected || p.status == Slept || p.status == Lost || replies == [] then p
    else DisconnectLoop(DisconnectAnswer(p, sleep, replies[0]), sleep, replies[1..])
  }

  /** How often the loop sends its DISCONNECT again. */
  function DisconnectsResent(p: Proxy, sleep: bool, replies: seq<Reply>): nat
    decreases |replies|
  {
    if p.status == Disconnected || p.status == Slept || p.status == Lost || replies == [] then 0
    else
      (if ResendsDisconnect(p, replies[0]) then 1 else 0)
      + DisconnectsResent(DisconnectAnswer(p, sleep, replies[0]), sleep, replies[1..])
  }

  predicate ResendsDisconnect(p: Proxy, r: Reply) {
    TimedOut(p, r) && p.retryCount - 1 >= 0
  }

  /** The retry count bounds the copies. */
  lemma {:induction false} DisconnectsBounded(p: Proxy, sleep: bool, replies: seq<Reply>)
    requires p.retryCount >= 0
    ensures DisconnectsResent(p, sleep, replies) <= p.retryCount
    decreases |replies|
  {
    if replies != [] {
      var q := DisconnectAnswer(p, sleep, replies[0]);
      if q.retryCount >= 0 {
        DisconnectsBounded(q, sleep, replies[1..]);
      }
    }
  }

  /** A DISCONNECT answers; after more than ten seconds of silence it is asked for again, as
      often as the retry count says, and then the gateway is given up. */
  lemma DisconnectIsExact(p: Proxy, sleep: bool, r: Reply)
    requires p.retryCount >= 0
    ensures var late := r.Quiet? && r.now > p.sendUTC + 10;
            var q := DisconnectAnswer(p, sleep, r);
            (ResendsDisconnect(p, r) <==> late && p.retryCount > 0)
            && q.status == (if r.Got? && r.kind == 0x18 then if sleep then Sleeping else Disconnected
                            else if late && p.retryCount == 0 then Lost
                            else p.status)
            && (ResendsDisconnect(p, r) ==> q.retryCount == p.retryCount - 1 && q.sendUTC == r.now)
  {
  }

  predicate HasDisconnect(replies: seq<Reply>) {
    exists i :: 0 <= i < |replies| && replies[i].Got? && replies[i].kind == DISCONNECT
  }

  /** disconnect() without a duration ends Disconnected only when the gateway answers.
      With a duration it never ends asleep: the gateway's answer only makes it wait
      on, until its retries are used up and it gives the gateway up as lost. */
  lemma {:induction false} DisconnectEnds(p: Proxy, sleep: bool, replies: seq<Reply>)
    requires p.status == Disconnecting || (sleep && p.status == Sleeping)
    ensures var s := DisconnectLoop(p, sleep, replies).status;
            if sleep then s == Disconnecting || s == Sleeping || s == Lost
            else s == Disconnecting || s == Lost || (s == Disconnected && HasDisconnect(replies))
    decreases |replies|
  {
    if replies != [] {
      var q := DisconnectAnswer(p, sleep, replies[0]);
      if q.status == Disconnecting || (sleep && q.status == Sleeping) {
        DisconnectEnds(q, sleep, replies[1..]);
        if HasDisconnect(replies[1..]) {
          var i :| 0 <= i < |replies[1..]| && replies[1..][i].Got? && replies[1..][i].kind == DISCONNECT;
          assert replies[i + 1].kind == DISCONNECT;
        }
      }
    }
  }

  // ----- the loop

  class GwProxy {
    const config: Config
    var status: Status
    var retryCount: int
    var sendUTC: nat
    var msg: seq<Byte>
    /** Everything written to the network, message by message. */
    var sent: seq<seq<Byte>>

    constructor (config: Config)
      ensures this.config == config && Now() == Proxy(Lost, 0, 0, []) && sent == []
    {
      this.config := config;
      status, retryCount, sendUTC, msg, sent := Lost, 0, 0, [], [];
    }

    ghost function Now(): Proxy
      reads this
    {
      Proxy(status, retryCount, sendUTC, msg)
    }

    method WriteGwMsg(m: seq<Byte>, now: nat)
      requires m != []
      modifies this`msg, this`retryCount, this`sendUTC, this`sent
      ensures msg == Over(m, old(msg)) && retryCount == MQTTSN_RETRY_COUNT && sendUTC == now
      ensures sent == old(sent) + [Message(msg)]
    {
      msg := Over(m, msg);
      retryCount := MQTTSN_RETRY_COUNT;
      sent := sent + [Message(msg)];
      sendUTC := now;
    }

    method WriteNext(now: nat)
      requires Asking(config, Now())
      modifies this
      ensures Now() == Write(config, old(Now()), now)
      ensures sent == old(sent) + if ToWrite(config, old(Now())).Some? then [Message(msg)] else []
    {
      if status == SendWillMsg {
        status := WaitConnack;
        WriteGwMsg([2 + |config.willMsg.value|, WILLMSG] + config.willMsg.value + [0], now);
      } else if status == SendWillTopic {
        status := WaitWillMsgReq;
        WriteGwMsg([3 + |config.willTopic.value|, WILLTOPIC, config.willFlags] + config.willTopic.value + [0], now);
      } else if status == Connecting || status == Disconnected {
        var m := ConnectBytes(config, ConnectFlags(config, msg)) + [0];
        status := if config.willMsg.Some? && config.willTopic.Some? then WaitWillTopicReq else WaitConnack;
        WriteGwMsg(m, now);
      } else if status == Lost {
        status := Searching;
        WithNothing(SEARCHGW_BYTES);
        WriteGwMsg(SEARCHGW_BYTES, now);
      }
    }

    method GetConnectResponce(r: Reply)
      modifies this
      ensures Now() == Answer(old(Now()), r)
      ensures sent == old(sent) + if Resends(old(Now()), r) then [Message(msg)] else []
    {
      if r.Quiet? {
        if sendUTC + MQTTSN_TIME_RETRY < r.now {
          retryCount := retryCount - 1;
          if retryCount > 0 {
            sent := sent + [Message(msg)];
            sendUTC := r.now;
          } else {
            sendUTC := 0;
            status := if status != Lost && status != Searching then Connecting else Lost;
          }
        }
      } else if r.kind == GWINFO && status == Searching {
        status := Connecting;
      } else if r.kind == WILLTOPICREQ && status == WaitWillTopicReq {
        status := SendWillTopic;
      } else if r.kind == WILLMSGREQ && status == WaitWillMsgReq {
        status := SendWillMsg;
      } else if r.kind == CONNACK && status == WaitConnack {
        status := if r.code == 0 then Connected else Connecting;
      }
    }

    /** connect(), for as long as the given rounds last. */
    method Connect(rounds: seq<(nat, Reply)>) returns (ghost run: Run, n: nat)
      requires config.Ok() && Idle(status)
      modifies this
      ensures Feasible(config, run) && Now() == After(config, run)
      ensures n <= |rounds| && (n < |rounds| ==> status == Connected)
      ensures sent == old(sent) + AllSent(config, run)
    {
      run, n := Enter(Now()), 0;
      WithNothing(sent);
      while status != Connected && n < |rounds|
        invariant n <= |rounds| && Feasible(config, run) && Now() == After(config, run)
        invariant sent == old(sent) + AllSent(config, run)
      {
        BufferIsAwaited(config, run);
        ghost var before := sent;
        WriteNext(rounds[n].0);
        ghost var middle := sent;
        GetConnectResponce(rounds[n].1);
        run := Then(run, rounds[n].0, rounds[n].1);
        n := n + 1;
        SentInRound(config, run, old(sent), before, middle, sent);
      }
    }

    method GetDisconnectResponce(sleep: bool, r: Reply) returns (rc: int)
      modifies this
      ensures Now() == DisconnectAnswer(old(Now()), sleep, r)
      ensures rc < 0 <==> TimedOut(old(Now()), r) && old(retryCount) <= 0
      ensures sent == old(sent) + if ResendsDisconnect(old(Now()), r) then [Message(msg)] else []
    {
      rc := 0;
      if r.Quiet? {
        if sendUTC + MQTTSN_TIME_RETRY < r.now {
          retryCount := retryCount - 1;
          if retryCount >= 0 {
            sent := sent + [Message(msg)];
            sendUTC := r.now;
          } else {
            status := Lost;
            rc := -1;
          }
        }
      } else if r.kind == DISCONNECT {
        status := if sleep then Sleeping else Disconnected;
      }
    }

    /** disconnect(), for as long as the given replies last. It sends nothing but its
        DISCONNECT, at most four times. */
    method Disconnect(secs: U16, now: nat, replies: seq<Reply>)
      modifies this
      ensures var m := DisconnectBytes(secs);
              var p := Proxy(Disconnecting, MQTTSN_RETRY_COUNT, now, Over(m, old(msg)));
              Now() == DisconnectLoop(p, secs != 0, replies)
              && sent == old(sent) + CopiesOf(m, 1 + DisconnectsResent(p, secs != 0, replies))
              && 1 + DisconnectsResent(p, secs != 0, replies) <= 4
    {
      var m: seq<Byte> := [2, DISCONNECT];
      if secs != 0 {
        m := [4, DISCONNECT] + Put16(secs);
      }
      WithNothing(m);
      MessageWritten(m, [], msg);
      ghost var p := Proxy(Disconnecting, MQTTSN_RETRY_COUNT, now, Over(m, msg));
      DisconnectsBounded(p, secs != 0, replies);
      CopiesAfterOne(sent, m, DisconnectsResent(p, secs != 0, replies));
      status := Disconnecting;
      WriteGwMsg(m, now);
      AwaitDisconnect(secs != 0, replies);
    }

    /** The loop of disconnect(). */
    method AwaitDisconnect(sleep: bool, replies: seq<Reply>)
      requires status != Lost
      modifies this
      ensures Now() == DisconnectLoop(old(Now()), sleep, replies)
      ensures sent == old(sent) + CopiesOf(Message(old(msg)), DisconnectsResent(old(Now()), sleep, replies))
    {
      ghost var start := Now();
      ghost var k := 0;
      var n := 0;
      WithNothing(sent);
      while status != Disconnected && status != Slept && n < |replies|
        invariant n <= |replies| && status != Lost && msg == old(msg)
        invariant DisconnectLoop(Now(), sleep, replies[n..]) == DisconnectLoop(start, sleep, replies)
        invariant sent == old(sent) + CopiesOf(Message(msg), k)
        invariant k + DisconnectsResent(Now(), sleep, replies[n..]) == DisconnectsResent(start, sleep, replies)
      {
        assert replies[n..][1..] == replies[n + 1..];
        if ResendsDisconnect(Now(), replies[n]) {
          k := k + 1;
        }
        var rc := GetDisconnectResponce(sleep, replies[n]);
        n := n + 1;
        if rc < 0 {
          status := Lost;
          return;
        }
      }
    }
  }

  lemma {:induction false} CopiesAfterOne(sent: seq<seq<Byte>>, m: seq<Byte>, n: nat)
    ensures sent + [m] + CopiesOf(m, n) == sent + CopiesOf(m, 1 + n)
  {
    if n > 0 {
      CopiesAfterOne(sent, m, n - 1);
      Assoc(sent + [m], CopiesOf(m, n - 1), [m]);
      Assoc(sent, CopiesOf(m, n), [m]);
    }
  }

  function DisconnectBytes(secs: U16): seq<Byte> {
    if secs != 0 then [4, DISCONNECT] + Put16(secs) else [2, DISCONNECT]
  }

  function CopiesOf(m: seq<Byte>, n: nat): seq<seq<Byte>> {
    if n == 0 then [] else CopiesOf(m, n - 1) + [m]
  }

  /** The messages a run sends. */
  ghost function AllSent(cfg: Config, run: Run): seq<seq<Byte>>
    requires Feasible(cfg, run)
    decreases run
  {
    if run.Enter? then []
    else
      AllSent(cfg, run.past)
      + ((if Writes(cfg, run) then [Message(Middle(cfg, run).buf)] else [])
         + if Resent(cfg, run) == 1 then [Message(Middle(cfg, run).buf)] else [])
  }

  lemma SentInRound(cfg: Config, run: Run, start: seq<seq<Byte>>, before: seq<seq<Byte>>, middle: seq<seq<Byte>>,
        after: seq<seq<Byte>>)
    requires run.Then? && Feasible(cfg, run) && before == start + AllSent(cfg, run.past)
    requires middle == before + if Writes(cfg, run) then [Message(Middle(cfg, run).buf)] else []
    requires after == middle + if Resent(cfg, run) == 1 then [Message(Middle(cfg, run).buf)] else []
    ensures after == start + AllSent(cfg, run)
  {
  }
}
