/** What holds of the gateway's state of a client over every run, however the steps
    of the tasks that touch it interleave. */
module GatewayRuns {
  import opened Bytes
  import opened ClientNode
  import opened GatewayControl
  import opened GatewayMessages
  import opened Wrappers
  import MC = MqttConnect
  import T = Topics
  import M = TopicIdMap

  /** ClientRecvTask takes a message in, the control task handles a message of the
      client or of the broker, BrokerSendTask has sent a CONNECT, the connection is
      dropped (a failed send or receive, ill-formed text, a SEARCHGW), the control
      task looks at the keep-alive timer, the refused CONNECT of another client has it
      change the protocol that all clients share, or time passes. */
  datatype Step =
    | Arrived(sn: SnMessage)
    | Handled(sn: SnMessage)
    | FromBroker(mq: FromBroker)
    | ConnectSent
    | ConnectionDropped
    | CheckTimer
    | ProtocolFlipped
    | Wait(msec: nat)

  /** A run, last step first. */
  datatype Run = Start(clock: int, nodeId: Str) | Then(past: Run, step: Step)

  datatype State = State(node: Node, protocol: Byte, now: int)

  function Effect(cfg: Config, s: State, step: Step): Outcome {
    match step
    case Arrived(m) => Quiet(s.node.UpdateStatus(m, s.now))
    case Handled(m) => HandleClient(cfg, s.protocol, s.node, m, s.now)
    case FromBroker(b) => HandleBroker(s.node, b)
    case ConnectSent => Quiet(s.node.ConnectSended())
    case ConnectionDropped => Quiet(s.node.Dropped())
    case CheckTimer => Quiet(s.node.CheckTimeover(s.now))
    case ProtocolFlipped => Quiet(s.node)
    case Wait(_) => Quiet(s.node)
  }

  function Next(cfg: Config, s: State, step: Step): State {
    State(Effect(cfg, s, step).node,
          if step.FromBroker? then ProtocolAfter(s.protocol, step.mq)
          else if step.ProtocolFlipped? then OtherProtocol(s.protocol)
          else s.protocol,
          if step.Wait? then s.now + step.msec else s.now)
  }

  function After(cfg: Config, run: Run): State {
    match run
    case Start(clock, id) => State(NEW_NODE.(nodeId := id), MC.MQTT_PROTOCOL_VER4, clock)
    case Then(past, step) => Next(cfg, After(cfg, past), step)
  }

  /** What the last step of a run pushed. */
  function Last(cfg: Config, run: Run): Outcome
    requires run.Then?
  {
    Effect(cfg, After(cfg, run.past), run.step)
  }

  // ----- messages that have no part in connecting

  predicate Plain(m: SnMessage) {
    !m.SnConnect? && !m.SnWillTopic? && !m.SnWillMsg?
  }

  /** The same node but for topics and message ids. */
  predicate SameSession(n: Node, n': Node) {
    n' == n.(pubIds := n'.pubIds, subIds := n'.subIds, topics := n'.topics, snMsgId := n'.snMsgId)
  }

  predicate NoConnect(msgs: seq<ToBroker>) {
    forall i :: 0 <= i < |msgs| ==> !msgs[i].Connect?
  }

  predicate NoConnAck(msgs: seq<ToClient>) {
    forall i :: 0 <= i < |msgs| ==> !msgs[i].ConnAck?
  }

  predicate OutsideSession(n: Node, o: Outcome) {
    SameSession(n, o.node) && NoConnect(o.toBroker) && NoConnAck(o.toClient)
  }

  lemma PlainUpstream(cfg: Config, protocol: Byte, n: Node, m: SnMessage, now: int)
    requires Plain(m)
    ensures OutsideSession(n, Handle(cfg, protocol, n, m, now))
  {
    hide M.Add, T.Register, T.ById, T.IdOf, Translate, Put32;
  }

  lemma PlainDownstream(n: Node, b: FromBroker)
    requires !b.BrokerConnAck?
    ensures OutsideSession(n, HandleBroker(n, b))
  {
    hide M.Erase, M.Lookup, T.Register, T.IdOf, SnFlags;
  }

  /** updateStatus looks past the messages of the will dialogue, and a CONNECT wakes
      a sleeper and sets the keep-alive. */
  lemma UpdateOfRest(n: Node, m: SnMessage, now: int)
    requires !Plain(m)
    ensures var n' := n.UpdateStatus(m, now);
            if Rearms(n, m)
            then
              var status := if n.status == Asleep || n.status == Awake then Connecting else n.status;
              n' == n.SetKeepAlive(m.duration, now).(status := status)
            else n' == n
  {
  }

  /** A CONNECT moves a disconnected client on if it needs no will, and none else. */
  lemma ConnectKeeps(cfg: Config, protocol: Byte, n: Node, clean: bool, will: bool, duration: U16, id: Str)
    ensures var o := HandleSnConnect(cfg, protocol, n, clean, will, duration, id);
            o.node.status == (if !will && n.status == Disconnected then TryConnecting else n.status)
            && o.node.startTime == n.startTime && o.node.millis == n.millis && o.node.keepAliveMsec == n.keepAliveMsec
            && NoConnAck(o.toClient)
  {
    hide NewConnect;
  }

  // ----- the status

  /** The messages that start the keep-alive timer again. */
  predicate Rearms(n: Node, m: SnMessage) {
    if m.SnConnect? then n.status != Active && n.status != TryConnecting && n.status != Connecting
    else n.status == Active && (m.SnPingReq? || m.SnPublish? || m.SnSubscribe? || m.SnUnsubscribe? || m.SnAck?)
  }

  /** Handling one message of the client, as far as the status and the timer go. */
  lemma SplitHandled(cfg: Config, s: State, m: SnMessage)
    ensures var o := HandleClient(cfg, s.protocol, s.node, m, s.now);
            match m
            case SnWillMsg(message) => o == HandleSnWillMsg(cfg, s.node, message)
            case SnWillTopic(flags, topic) => o == HandleSnWillTopic(s.node, flags, topic)
            case SnConnect(_, will, duration, _) =>
              var n := if Rearms(s.node, m) then s.node.SetKeepAlive(duration, s.now) else s.node;
              o.node.startTime == n.startTime && o.node.millis == n.millis && NoConnAck(o.toClient)
              && o.node.status == (if n.status == Asleep || n.status == Awake then Connecting
                                   else if !will && n.status == Disconnected then TryConnecting else n.status)
            case _ => OutsideSession(s.node.UpdateStatus(m, s.now), o)
  {
    if Plain(m) {
      PlainUpstream(cfg, s.protocol, s.node.UpdateStatus(m, s.now), m, s.now);
      hide Handle;
    } else {
      UpdateOfRest(s.node, m, s.now);
      if m.SnConnect? {
        ConnectKeeps(cfg, s.protocol, s.node.UpdateStatus(m, s.now), m.clean, m.will, m.duration, m.clientId);
        hide HandleSnConnect;
      }
    }
  }

  /** A client becomes Active only from Connecting, and only with an accepted
      CONNACK that goes out to it: one just received, or one that was held back. */
  lemma ActiveOnlyByConnack(cfg: Config, s: State, step: Step)
    requires s.node.status != Active && Effect(cfg, s, step).node.status == Active
    ensures s.node.status == Connecting
    ensures exists c :: Effect(cfg, s, step).toClient == [ConnAck(c)] && c.returnCode == MQTTSN_RC_ACCEPTED
              && (if step.FromBroker?
                  then step.mq.BrokerConnAck? && step.mq.returnCd == 0 && c.origin == Some(step.mq.tag)
                  else step.Handled? && step.sn.SnWillMsg? && s.node.HoldsConnAck() && s.node.connAck == Some(c))
  {
    if step.Handled? {
      SplitHandled(cfg, s, step.sn);
    } else if step.FromBroker? && !step.mq.BrokerConnAck? {
      PlainDownstream(s.node, step.mq);
      hide HandleBroker;
    }
    hide HandleClient;
    var o := Effect(cfg, s, step);
    assert o.toClient != [] && o.toClient[0].ConnAck?;
    var c := o.toClient[0].connack;
    assert o.toClient == [ConnAck(c)];
  }

  /** A client is Lost only from Active, by a look at a timer that is up. */
  lemma LostOnlyByTimer(cfg: Config, s: State, step: Step)
    requires s.node.status != Lost && Effect(cfg, s, step).node.status == Lost
    ensures s.node.status == Active && step.CheckTimer? && s.node.TimeUp(s.now)
  {
    if step.Handled? {
      SplitHandled(cfg, s, step.sn);
    } else if step.FromBroker? && !step.mq.BrokerConnAck? {
      PlainDownstream(s.node, step.mq);
      hide HandleBroker;
    }
  }

  /** The only way out of Lost is disconnected(): a dropped connection, or a WILLMSG
      on a network that is stable and not secure. */
  lemma LostLeftByDisconnected(cfg: Config, s: State, step: Step)
    requires s.node.status == Lost && Effect(cfg, s, step).node.status != Lost
    ensures Effect(cfg, s, step).node == s.node.Dropped()
    ensures step.ConnectionDropped? || (step.Handled? && step.sn.SnWillMsg? && !cfg.secure && cfg.stableNetwork)
  {
    if step.Handled? {
      SplitHandled(cfg, s, step.sn);
    } else if step.FromBroker? && !step.mq.BrokerConnAck? {
      PlainDownstream(s.node, step.mq);
      hide HandleBroker;
    }
  }

  /** The time of the last arming in a run, and the keep-alive then in force. */
  function LastArming(cfg: Config, run: Run): Option<(int, nat)> {
    match run
    case Start(_, _) => None
    case Then(past, step) =>
      var s := After(cfg, past);
      if (step.Arrived? || step.Handled?) && Rearms(s.node, step.sn)
      then Some((s.now, if step.sn.SnConnect? then step.sn.duration as int * 1000 else s.node.keepAliveMsec))
      else LastArming(cfg, past)
  }

  lemma StepArms(cfg: Config, s: State, step: Step)
    ensures var n := Effect(cfg, s, step).node;
            if (step.Arrived? || step.Handled?) && Rearms(s.node, step.sn)
            then
              var keepAlive := if step.sn.SnConnect? then step.sn.duration as int * 1000 else s.node.keepAliveMsec;
              n.startTime == Some(s.now) && n.millis == keepAlive * 3 / 2
            else n.startTime == s.node.startTime && n.millis == s.node.millis
  {
    if step.Handled? {
      SplitHandled(cfg, s, step.sn);
    } else if step.FromBroker? && !step.mq.BrokerConnAck? {
      PlainDownstream(s.node, step.mq);
      hide HandleBroker;
    }
  }

  lemma {:induction false} TimerIsLastArming(cfg: Config, run: Run)
    ensures var n := After(cfg, run).node;
            match LastArming(cfg, run)
            case None => n.startTime == None
            case Some(a) => n.startTime == Some(a.0) && n.millis == a.1 * 3 / 2
  {
    match run
    case Start(_, _) =>
    case Then(past, step) =>
      TimerIsLastArming(cfg, past);
      StepArms(cfg, After(cfg, past), step);
      hide Effect;
  }

  /** In every run, when a client is given up as Lost, it was Active, and more than
      one and a half keep-alive periods have gone by since its timer was last armed. */
  lemma LostIsLate(cfg: Config, run: Run)
    requires run.Then? && After(cfg, run.past).node.status != Lost && After(cfg, run).node.status == Lost
    ensures After(cfg, run.past).node.status == Active
    ensures var a := LastArming(cfg, run.past); a.Some? && After(cfg, run).now - a.value.0 > a.value.1 * 3 / 2
  {
    LostOnlyByTimer(cfg, After(cfg, run.past), run.step);
    TimerIsLastArming(cfg, run.past);
    hide Effect;
  }

  // ----- every change of status

  predicate FromClient(step: Step) {
    step.Arrived? || step.Handled?
  }

  /** A WILLMSG that does not complete a CONNECT. */
  predicate WillMsgAlone(s: State, step: Step) {
    step.Handled? && step.sn.SnWillMsg?
    && (s.node.mqttConnect.None? || s.node.status == Lost || s.node.status == TryConnecting)
  }

  /** The CONNACK that a step hands to a client which awaits one. */
  function ConnackIn(cfg: Config, s: State, step: Step): Option<SnConnack> {
    var flag := s.node.connAckSaveFlg || s.node.waitWillMsgFlg;
    if step.FromBroker? && step.mq.BrokerConnAck? && !flag
    then Some(SnConnack(ReturnCode(step.mq.returnCd), Some(step.mq.tag)))
    else if WillMsgAlone(s, step) && (cfg.secure || !cfg.stableNetwork) && flag then s.node.connAck
    else None
  }

  /** Which steps lead into which status. */
  predicate Moves(cfg: Config, s: State, step: Step, after: Status) {
    var before, c := s.node.status, ConnackIn(cfg, s, step);
    && (after == Asleep && before != Asleep <==>
          FromClient(step) && ((before == Active && step.sn.SnDisconnect? && step.sn.duration > 0)
                               || (before == Awake && step.sn.SnPingResp?)))
    && (after == Awake && before != Awake <==> FromClient(step) && before == Asleep && step.sn.SnPingReq?)
    && (after == Connecting && before != Connecting <==>
          (step.ConnectSent? && before == TryConnecting)
          || (FromClient(step) && step.sn.SnConnect? && (before == Asleep || before == Awake)))
    && (after == TryConnecting && before != TryConnecting <==>
          step.Handled? && before == Disconnected
          && ((step.sn.SnConnect? && !step.sn.will) || (step.sn.SnWillMsg? && s.node.mqttConnect.Some?)))
    && (after == Active && before != Active <==> before == Connecting && c.Some? && c.value.returnCode == 0)
    && (after == Lost && before != Lost <==>
          step.CheckTimer? && before == Active
          && s.node.startTime.Some? && s.now - s.node.startTime.value > s.node.millis)
    && (after == Disconnected && before != Disconnected <==>
          before != Disconnected
          && (step.ConnectionDropped?
              || (FromClient(step) && step.sn.SnDisconnect?
                  && (before == Awake || (before == Active && step.sn.duration == 0)))
              || (WillMsgAlone(s, step) && !cfg.secure && cfg.stableNetwork)
              || (before == Connecting && c.Some? && c.value.returnCode != 0)))
  }

  /** The seven statuses change exactly so. */
  lemma StatusExactly(cfg: Config, s: State, step: Step)
    ensures Moves(cfg, s, step, Effect(cfg, s, step).node.status)
  {
    if step.Handled? {
      StatusHandled(cfg, s, step.sn);
    } else if step.FromBroker? && !step.mq.BrokerConnAck? {
      PlainDownstream(s.node, step.mq);
      hide HandleBroker;
    }
    hide HandleClient;
  }

  lemma StatusHandled(cfg: Config, s: State, m: SnMessage)
    ensures Moves(cfg, s, Handled(m), HandleClient(cfg, s.protocol, s.node, m, s.now).node.status)
  {
    if Plain(m) {
      PlainUpstream(cfg, s.protocol, s.node.UpdateStatus(m, s.now), m, s.now);
      hide Handle;
    } else {
      SplitHandled(cfg, s, m);
      if m.SnWillMsg? {
        StatusOfWillMsg(cfg, s, m.message);
        hide HandleSnWillMsg, Moves;
      }
      hide HandleClient;
    }
  }

  lemma StatusOfWillMsg(cfg: Config, s: State, message: Str)
    ensures Moves(cfg, s, Handled(SnWillMsg(message)), HandleSnWillMsg(cfg, s.node, message).node.status)
  {
  }

  /** The keep-alive in force, in milliseconds: that of the last CONNECT which started the
      timer, or the time for which the client has gone to sleep since. */
  function KeepAlive(cfg: Config, run: Run): nat {
    match run
    case Start(_, _) => 0
    case Then(past, step) =>
      var s := After(cfg, past);
      if FromClient(step) && step.sn.SnConnect? && Rearms(s.node, step.sn) then step.sn.duration as int * 1000
      else if FromClient(step) && step.sn.SnDisconnect? && s.node.status == Active && step.sn.duration > 0
      then step.sn.duration as int * 1000
      else KeepAlive(cfg, past)
  }

  lemma {:induction false} KeepAliveExactly(cfg: Config, run: Run)
    ensures After(cfg, run).node.keepAliveMsec == KeepAlive(cfg, run)
  {
    if run.Then? {
      KeepAliveExactly(cfg, run.past);
      KeepAliveStep(cfg, After(cfg, run.past), run.step);
      hide Effect, Rearms;
    }
  }

  lemma KeepAliveStep(cfg: Config, s: State, step: Step)
    ensures Effect(cfg, s, step).node.keepAliveMsec
            == if FromClient(step) && step.sn.SnConnect? && Rearms(s.node, step.sn) then step.sn.duration as int * 1000
               else if FromClient(step) && step.sn.SnDisconnect? && s.node.status == Active && step.sn.duration > 0
               then step.sn.duration as int * 1000
               else s.node.keepAliveMsec
  {
    if step.Handled? {
      if Plain(step.sn) {
        PlainUpstream(cfg, s.protocol, s.node.UpdateStatus(step.sn, s.now), step.sn, s.now);
        hide Handle;
      } else if step.sn.SnConnect? {
        ConnectKeeps(cfg, s.protocol, s.node.UpdateStatus(step.sn, s.now), step.sn.clean, step.sn.will,
                     step.sn.duration, step.sn.clientId);
        hide HandleSnConnect;
      }
    } else if step.FromBroker? && !step.mq.BrokerConnAck? {
      PlainDownstream(s.node, step.mq);
      hide HandleBroker;
    }
  }
}
