/** The CONNECTs that the gateway sends for a client, over every run. */
module ConnectRuns {
  import opened Bytes
  import opened ClientNode
  import opened GatewayControl
  import opened GatewayMessages
  import opened GatewayRuns
  import opened Wrappers
  import MC = MqttConnect

  // ----- the CONNECT put together

  /** A CONNECT of the client that can be sent on, and what the control task adds. */
  datatype Request = Request(protocol: Byte, id: Str, clean: bool, will: bool, duration: U16)

  function RequestOf(cfg: Config, s: State, m: SnMessage): Option<Request> {
    if m.SnConnect? && s.node.ConnectSendable()
    then Some(Request(s.protocol, if cfg.authorized then s.node.nodeId else m.clientId, m.clean, m.will, m.duration))
    else None
  }

  /** The last such CONNECT of a run. */
  function LastRequest(cfg: Config, run: Run): Option<Request> {
    match run
    case Start(_, _) => None
    case Then(past, step) =>
      if step.Handled? && RequestOf(cfg, After(cfg, past), step.sn).Some? then RequestOf(cfg, After(cfg, past), step.sn)
      else LastRequest(cfg, past)
  }

  /** What a WILLTOPIC asks for. */
  datatype WillTopic = WillTopic(flags: bv8, topic: Str)

  /** The last WILLTOPIC since then. */
  function TopicSince(cfg: Config, run: Run): Option<WillTopic> {
    match run
    case Start(_, _) => None
    case Then(past, step) =>
      if step.Handled? && RequestOf(cfg, After(cfg, past), step.sn).Some? then None
      else if step.Handled? && step.sn.SnWillTopic? then Some(WillTopic(step.sn.willFlags, step.sn.topic))
      else TopicSince(cfg, past)
  }

  function Draft(cfg: Config, r: Request, will: Option<WillTopic>): MC.Connect {
    var c := NewConnect(cfg, r.protocol, r.id, r.clean, r.duration);
    if will.Some? then WithWillTopic(c, will.value.flags, will.value.topic) else c
  }

  lemma NoWillQos(flags: bv8)
    ensures WillQos(flags) == 0
  {
  }

  /** A second WILLTOPIC replaces the first. */
  lemma TopicReplaced(c: MC.Connect, first: WillTopic, second: WillTopic)
    ensures WithWillTopic(WithWillTopic(c, first.flags, first.topic), second.flags, second.topic)
            == WithWillTopic(c, second.flags, second.topic)
  {
    NoWillQos(first.flags);
    NoWillQos(second.flags);
    hide WillQos;
    TopicBits(c.flags);
  }

  lemma TopicBits(f: bv8)
    ensures var g := (((f & 0xFA) | 0x04) & 0xE6) | (0 << 3); (((g & 0xFA) | 0x04) & 0xE6) | (0 << 3) == g
  {
  }

  lemma DraftAgain(cfg: Config, r: Request, will: Option<WillTopic>, next: WillTopic)
    ensures WithWillTopic(Draft(cfg, r, will), next.flags, next.topic) == Draft(cfg, r, Some(next))
  {
    if will.Some? {
      TopicReplaced(NewConnect(cfg, r.protocol, r.id, r.clean, r.duration), will.value, next);
    }
  }

  /** What one step does to the pending CONNECT, and which CONNECT it pushes. */
  lemma StepOnPending(cfg: Config, s: State, step: Step)
    requires s.node.status == TryConnecting ==> s.node.mqttConnect.None?
    ensures var o := Effect(cfg, s, step);
            var request := if step.Handled? then RequestOf(cfg, s, step.sn) else None;
            if request.Some? then
              if request.value.will
              then o.node.mqttConnect == Some(Draft(cfg, request.value, None)) && NoConnect(o.toBroker)
                    && o.node.status != TryConnecting
              else o.node.mqttConnect == None && o.toBroker == [Connect(Draft(cfg, request.value, None))]
            else if step.Handled? && step.sn.SnWillTopic? && s.node.mqttConnect.Some? then
              o.node.mqttConnect == Some(WithWillTopic(s.node.mqttConnect.value, step.sn.willFlags, step.sn.topic))
              && NoConnect(o.toBroker) && o.node.status == s.node.status
            else if step.Handled? && step.sn.SnWillMsg? && s.node.mqttConnect.Some? && s.node.ConnectSendable() then
              o.node.mqttConnect == None
                    && o.toBroker == [Connect(s.node.mqttConnect.value.SetWillMessage(step.sn.message))]
            else
              o.node.mqttConnect == s.node.mqttConnect && NoConnect(o.toBroker)
              && (o.node.status == TryConnecting ==> s.node.status == TryConnecting)
  {
    if step.Handled? {
      PendingHandled(cfg, s, step.sn);
    } else if step.FromBroker? && !step.mq.BrokerConnAck? {
      PlainDownstream(s.node, step.mq);
      hide HandleBroker;
    }
    hide HandleClient, Draft, WithWillTopic;
  }

  lemma PendingHandled(cfg: Config, s: State, m: SnMessage)
    ensures var o := HandleClient(cfg, s.protocol, s.node, m, s.now);
            var request := RequestOf(cfg, s, m);
            if request.Some? then
              if request.value.will
              then o.node.mqttConnect == Some(Draft(cfg, request.value, None)) && NoConnect(o.toBroker)
                    && o.node.status != TryConnecting
              else o.node.mqttConnect == None && o.toBroker == [Connect(Draft(cfg, request.value, None))]
            else if m.SnWillTopic? && s.node.mqttConnect.Some? then
              o.node.mqttConnect == Some(WithWillTopic(s.node.mqttConnect.value, m.willFlags, m.topic))
              && NoConnect(o.toBroker) && o.node.status == s.node.status
            else if m.SnWillMsg? && s.node.mqttConnect.Some? && s.node.ConnectSendable() then
              o.node.mqttConnect == None && o.toBroker == [Connect(s.node.mqttConnect.value.SetWillMessage(m.message))]
            else
              o.node.mqttConnect == s.node.mqttConnect && NoConnect(o.toBroker)
              && (o.node.status == TryConnecting ==> s.node.status == TryConnecting)
  {
    hide NewConnect;
    if Plain(m) {
      PlainUpstream(cfg, s.protocol, s.node.UpdateStatus(m, s.now), m, s.now);
      hide Handle;
    } else {
      UpdateOfRest(s.node, m, s.now);
    }
  }

  /** While a CONNECT waits to be sent none is pending, so connectSended() never
      throws one away; and a pending CONNECT is the draft for the last request,
      which asked for a will, with the last WILLTOPIC since. */
  ghost predicate PendingIsDraft(cfg: Config, run: Run) {
    var n := After(cfg, run).node;
    n.mqttConnect.Some? ==>
      && n.status != TryConnecting
      && LastRequest(cfg, run).Some?
      && LastRequest(cfg, run).value.will
      && n.mqttConnect.value == Draft(cfg, LastRequest(cfg, run).value, TopicSince(cfg, run))
  }

  lemma {:induction false} PendingInvariant(cfg: Config, run: Run)
    ensures PendingIsDraft(cfg, run)
  {
    match run
    case Start(_, _) =>
    case Then(past, step) =>
      var s := After(cfg, past);
      PendingInvariant(cfg, past);
      StepOnPending(cfg, s, step);
      if step.Handled? && step.sn.SnWillTopic? && s.node.mqttConnect.Some? {
        DraftAgain(cfg, LastRequest(cfg, past).value, TopicSince(cfg, past),
              WillTopic(step.sn.willFlags, step.sn.topic));
      }
      hide Effect, Draft, WithWillTopic;
  }

  lemma ConnectSentFreesNothing(cfg: Config, run: Run)
    ensures After(cfg, Then(run, ConnectSent)).node.mqttConnect == After(cfg, run).node.mqttConnect
  {
    PendingInvariant(cfg, run);
  }

  /** Where a CONNECT for the broker comes from: without a will it answers a CONNECT
      of the client at once; with a will it is pushed by a WILLMSG, and carries that
      message, the last WILLTOPIC since the request, and the request itself. */
  lemma WhereConnectsComeFrom(cfg: Config, run: Run, c: MC.Connect)
    requires run.Then? && Connect(c) in Last(cfg, run).toBroker
    ensures run.step.Handled? && (run.step.sn.SnConnect? || run.step.sn.SnWillMsg?)
    ensures run.step.sn.SnConnect? ==>
              var r := RequestOf(cfg, After(cfg, run.past), run.step.sn);
              r.Some? && !r.value.will && c == Draft(cfg, r.value, None)
    ensures run.step.sn.SnWillMsg? ==>
              var r := LastRequest(cfg, run.past);
              r.Some? && r.value.will
              && c == Draft(cfg, r.value, TopicSince(cfg, run.past)).SetWillMessage(run.step.sn.message)
  {
    PendingInvariant(cfg, run.past);
    StepOnPending(cfg, After(cfg, run.past), run.step);
    hide Effect, Draft;
  }

  // ----- what the broker reads

  /** The request in the broker's terms, without a will. */
  function ViewOfRequest(cfg: Config, r: Request): MC.View {
    var login := cfg.loginId != [] && cfg.password != [];
    MC.View(if r.protocol == 4 then [0x4D, 0x51, 0x54, 0x54] else [0x4D, 0x51, 0x49, 0x73, 0x64, 0x70],
            r.protocol, r.clean, r.duration, r.id, None,
            if login then Some(cfg.loginId) else None, if login then Some(cfg.password) else None)
  }

  lemma ViewOfNew(cfg: Config, r: Request)
    ensures var c := NewConnect(cfg, r.protocol, r.id, r.clean, r.duration);
            c.FlagsConsistent() && MC.ViewOf(c) == ViewOfRequest(cfg, r) && MC.Bits(c.flags).willQos == 0
                  && !MC.Bits(c.flags).willRetain
            && c.willTopic == [] && c.willMessage == []
  {
  }

  lemma SetWill(c: MC.Connect, flags: bv8, topic: Str, message: Str)
    requires c.FlagsConsistent() && !MC.Bits(c.flags).willRetain
    ensures var d := WithWillTopic(c, flags, topic);
            d.FlagsConsistent() && MC.ViewOf(d) == MC.ViewOf(c).(will := Some(MC.Will(topic, c.willMessage, 0, false)))
            && !MC.Bits(d.flags).willRetain && MC.Bits(d.flags).willQos == 0 && d.willTopic == topic
    ensures var d := c.SetWillMessage(message);
            var will := MC.Will(c.willTopic, message, MC.Bits(c.flags).willQos, false);
            d.FlagsConsistent() && MC.ViewOf(d) == MC.ViewOf(c).(will := Some(will))
  {
    NoWillQos(flags);
    hide WillQos;
    WillFlags(c.flags);
  }

  lemma WillFlags(f: bv8)
    requires f & 0x01 == 0 && f & 0x20 == 0
    ensures var g := (((f & 0xFA) | 0x04) & 0xE6) | (0 << 3);
            g & 0x01 == 0 && g & 0x04 != 0 && g & 0x38 == 0 && (g >> 3) & 0x03 == 0 && g & 0xC2 == f & 0xC2
    ensures var g := (f & 0xFA) | 0x04;
            g & 0x01 == 0 && g & 0x04 != 0 && g & 0x20 == 0 && g & 0xFA == f & 0xFA
            && (g >> 3) & 0x03 == (f >> 3) & 0x03
  {
  }

  function TopicOf(will: Option<WillTopic>): Str {
    if will.Some? then will.value.topic else []
  }

  lemma ViewOfDraft(cfg: Config, r: Request, will: Option<WillTopic>)
    ensures var c := Draft(cfg, r, will);
            c.FlagsConsistent() && !MC.Bits(c.flags).willRetain && MC.Bits(c.flags).willQos == 0
            && c.willTopic == TopicOf(will)
            && MC.ViewOf(c).(will := None) == ViewOfRequest(cfg, r)
            && (will.None? ==> MC.ViewOf(c).will.None?)
  {
    ViewOfNew(cfg, r);
    if will.Some? {
      SetWill(NewConnect(cfg, r.protocol, r.id, r.clean, r.duration), will.value.flags, will.value.topic, []);
    }
    hide NewConnect, MC.ViewOf, MC.Bits, WithWillTopic;
  }

  /** The will that a WILLMSG completes, as the broker gets it. */
  function WillRead(cfg: Config, run: Run): MC.Will
    requires run.Then? && run.step.Handled? && run.step.sn.SnWillMsg?
  {
    MC.Will(TopicOf(TopicSince(cfg, run.past)), run.step.sn.message, 0, false)
  }

  /** The bytes of any CONNECT that is pushed, if under 65536, tell a broker that
      follows the standard the client's request, and the will that the client gave
      in its last WILLTOPIC since then and its WILLMSG; always with quality of
      service 0 and not retained. */
  lemma BrokerReadsRequest(cfg: Config, run: Run, c: MC.Connect, after: seq<Byte>)
    requires run.Then? && Connect(c) in Last(cfg, run).toBroker && c.Length() < 0x1_0000
    ensures run.step.Handled? && (run.step.sn.SnConnect? || run.step.sn.SnWillMsg?)
    ensures run.step.sn.SnConnect? ==>
              var r := RequestOf(cfg, After(cfg, run.past), run.step.sn);
              r.Some? && !r.value.will
              && MC.Parse(MC.Serialize(c) + after) == Some((ViewOfRequest(cfg, r.value), |MC.Serialize(c)|, after))
    ensures run.step.sn.SnWillMsg? ==>
              var r, will := LastRequest(cfg, run.past), WillRead(cfg, run);
              r.Some? && r.value.will
              && MC.Parse(MC.Serialize(c) + after)
                 == Some((ViewOfRequest(cfg, r.value).(will := Some(will)), |MC.Serialize(c)|, after))
  {
    WhereConnectsComeFrom(cfg, run, c);
    if run.step.sn.SnConnect? {
      ViewOfDraft(cfg, RequestOf(cfg, After(cfg, run.past), run.step.sn).value, None);
    } else {
      var r, asked := LastRequest(cfg, run.past).value, TopicSince(cfg, run.past);
      ViewOfDraft(cfg, r, asked);
      SetWill(Draft(cfg, r, asked), 0, [], run.step.sn.message);
    }
    hide *;
    MC.ConnectIsRead(c, after);
  }

  /** The quality of service and the RETAIN that a WILLTOPIC asks for. */
  function QosAsked(flags: bv8): nat {
    ((flags >> 5) & 0x03) as nat
  }

  predicate RetainAsked(flags: bv8) {
    flags & 0x10 != 0
  }

  /** In every run, the broker reads the will's quality of service as the client's last
      WILLTOPIC asked for it if and only if that was 0, and its RETAIN if and only if
      that was not set. */
  lemma WillReadExactly(cfg: Config, run: Run, c: MC.Connect, after: seq<Byte>)
    requires run.Then? && run.step.Handled? && run.step.sn.SnWillMsg? && TopicSince(cfg, run.past).Some?
    requires Connect(c) in Last(cfg, run).toBroker && c.Length() < 0x1_0000
    ensures var read, flags := MC.Parse(MC.Serialize(c) + after), TopicSince(cfg, run.past).value.flags;
            read.Some? && read.value.0.will.Some?
            && (read.value.0.will.value.qos == QosAsked(flags) <==> flags & 0x60 == 0)
            && (read.value.0.will.value.retain == RetainAsked(flags) <==> flags & 0x10 == 0)
  {
    BrokerReadsRequest(cfg, run, c, after);
    QosBits(TopicSince(cfg, run.past).value.flags);
    hide MC.Parse, MC.Serialize, Last, TopicSince, LastRequest, ViewOfRequest, QosAsked;
  }

  lemma QosBits(flags: bv8)
    ensures QosAsked(flags) == 0 <==> flags & 0x60 == 0
  {
    assert (flags >> 5) & 0x03 == 0 <==> flags & 0x60 == 0;
  }

  const PLAIN_CONFIG: Config := Config([], [], false, true, false, 10)

  /** A client connects with a will that it wants retained and delivered with quality
      of service 1. */
  const WILL_DIALOGUE: Run :=
    Then(Then(Then(Start(0, []), Handled(SnConnect(true, true, 60, []))), Handled(SnWillTopic(0x30, [0x74]))),
         Handled(SnWillMsg([0x6D])))

  const WILL_ASKED: WillTopic := WillTopic(0x30, [0x74])

  function WillConnect(): MC.Connect {
    Draft(PLAIN_CONFIG, Request(MC.MQTT_PROTOCOL_VER4, [], true, true, 60), Some(WILL_ASKED)).SetWillMessage([0x6D])
  }

  lemma WillDialoguePushes()
    ensures TopicSince(PLAIN_CONFIG, WILL_DIALOGUE.past) == Some(WILL_ASKED)
    ensures Last(PLAIN_CONFIG, WILL_DIALOGUE).toBroker == [Connect(WillConnect())] && WillConnect().Length() == 18
  {
  }

  /** The broker is told of neither. */
  lemma WillQosIsLost()
    ensures TopicSince(PLAIN_CONFIG, WILL_DIALOGUE.past) == Some(WILL_ASKED)
    ensures QosAsked(WILL_ASKED.flags) == 1 && RetainAsked(WILL_ASKED.flags)
    ensures Last(PLAIN_CONFIG, WILL_DIALOGUE).toBroker == [Connect(WillConnect())]
    ensures var read := MC.Parse(MC.Serialize(WillConnect()));
            read.Some? && read.value.0.will == Some(MC.Will([0x74], [0x6D], 0, false))
  {
    WillDialoguePushes();
    hide Last, WillConnect, TopicSince, LastRequest, ViewOfRequest, MC.Parse, MC.Serialize;
    BrokerReadsRequest(PLAIN_CONFIG, WILL_DIALOGUE, WillConnect(), []);
    assert MC.Serialize(WillConnect()) + [] == MC.Serialize(WillConnect());
  }

  // ----- counting CONNECTs

  function Connects(msgs: seq<ToBroker>): nat {
    if msgs == [] then 0 else (if msgs[0].Connect? then 1 else 0) + Connects(msgs[1..])
  }

  lemma {:induction false} NoneCounted(msgs: seq<ToBroker>)
    requires NoConnect(msgs)
    ensures Connects(msgs) == 0
  {
    if msgs == [] {
    } else {
      assert !msgs[0].Connect?;
      assert forall i :: 0 <= i < |msgs[1..]| ==> msgs[1..][i] == msgs[i + 1];
      NoneCounted(msgs[1..]);
    }
  }

  function ConnectsPushed(cfg: Config, run: Run): nat {
    if run.Start? then 0 else ConnectsPushed(cfg, run.past) + Connects(Last(cfg, run).toBroker)
  }

  function ConnectsHandled(run: Run): nat {
    if run.Start? then 0
    else ConnectsHandled(run.past) + if run.step.Handled? && run.step.sn.SnConnect? then 1 else 0
  }

  function Pending(n: Node): nat {
    if n.mqttConnect.Some? then 1 else 0
  }

  /** In every run the broker gets no more CONNECTs, a pending one included, than
      the client sent. */
  lemma {:induction false} ConnectsAreBounded(cfg: Config, run: Run)
    ensures ConnectsPushed(cfg, run) + Pending(After(cfg, run).node) <= ConnectsHandled(run)
  {
    if run.Start? {
    } else {
      var s := After(cfg, run.past);
      ConnectsAreBounded(cfg, run.past);
      PendingInvariant(cfg, run.past);
      StepOnPending(cfg, s, run.step);
      CountStep(s.node, run.step, Last(cfg, run));
      hide Effect, Draft;
    }
  }

  lemma CountStep(n: Node, step: Step, o: Outcome)
    requires NoConnect(o.toBroker) || (|o.toBroker| == 1 && o.toBroker[0].Connect?)
    requires NoConnect(o.toBroker) || (step.Handled? && (step.sn.SnConnect? || n.mqttConnect.Some?))
    ensures NoConnect(o.toBroker) ==> Connects(o.toBroker) == 0
    ensures !NoConnect(o.toBroker) ==> Connects(o.toBroker) == 1
  {
    if NoConnect(o.toBroker) {
      NoneCounted(o.toBroker);
    } else {
      assert o.toBroker[1..] == [];
    }
  }
}
