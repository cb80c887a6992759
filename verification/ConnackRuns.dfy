/** The CONNACKs that reach a client, over every run. */
module ConnackRuns {
  import opened Bytes
  import opened ClientNode
  import opened GatewayControl
  import opened GatewayMessages
  import opened GatewayRuns
  import opened Wrappers

  // ----- conservation of CONNACKs

  /** The CONNACKs `c` that went to the client. */
  function Sent(cfg: Config, run: Run, c: SnConnack): nat {
    if run.Start? then 0 else Sent(cfg, run.past, c) + (if ConnAck(c) in Last(cfg, run).toClient then 1 else 0)
  }

  /** The broker's CONNACKs that translate to `c`. */
  function Received(run: Run, c: SnConnack): nat {
    if run.Start? then 0
    else Received(run.past, c) + if run.step.FromBroker? && Translates(run.step.mq, c) then 1 else 0
  }

  predicate Translates(b: FromBroker, c: SnConnack) {
    b.BrokerConnAck? && c == SnConnack(ReturnCode(b.returnCd), Some(b.tag))
  }

  /** `c` is held back and can still be released. */
  function Held(n: Node, c: SnConnack): nat {
    if n.HoldsConnAck() && n.connAck == Some(c) then 1 else 0
  }

  predicate OneConnAck(o: Outcome) {
    NoConnAck(o.toClient) || |o.toClient| == 1
  }

  lemma StepOnConnAck(cfg: Config, s: State, step: Step, c: SnConnack)
    requires c.origin.Some?
    ensures var o := Effect(cfg, s, step);
            OneConnAck(o)
            && (if ConnAck(c) in o.toClient then 1 else 0) + Held(o.node, c)
               <= Held(s.node, c) + if step.FromBroker? && Translates(step.mq, c) then 1 else 0
  {
    if step.Handled? {
      ConnAckHandled(cfg, s, step.sn, c);
      hide HandleClient;
    } else if step.FromBroker? && !step.mq.BrokerConnAck? {
      PlainDownstream(s.node, step.mq);
      hide HandleBroker;
    }
  }

  lemma UpdateHoldsNoMore(n: Node, m: SnMessage, now: int, c: SnConnack)
    ensures Held(n.UpdateStatus(m, now), c) <= Held(n, c)
  {
  }

  lemma ConnAckHandled(cfg: Config, s: State, m: SnMessage, c: SnConnack)
    requires c.origin.Some?
    ensures var o := HandleClient(cfg, s.protocol, s.node, m, s.now);
            OneConnAck(o) && (if ConnAck(c) in o.toClient then 1 else 0) + Held(o.node, c) <= Held(s.node, c)
  {
    var n := s.node.UpdateStatus(m, s.now);
    UpdateHoldsNoMore(s.node, m, s.now, c);
    hide Node.UpdateStatus;
    if Plain(m) {
      PlainUpstream(cfg, s.protocol, n, m, s.now);
      hide Handle;
    } else {
      hide NewConnect;
    }
  }

  /** Each of the broker's CONNACKs reaches the client at most once, while it is
      held it has not been sent, and none is made up: for every CONNACK value with
      an origin, those sent and the one held never outnumber those received. */
  lemma {:induction false} ConnAcksConserved(cfg: Config, run: Run, c: SnConnack)
    requires c.origin.Some?
    ensures Sent(cfg, run, c) + Held(After(cfg, run).node, c) <= Received(run, c)
  {
    if run.Start? {
    } else {
      ConnAcksConserved(cfg, run.past, c);
      StepOnConnAck(cfg, After(cfg, run.past), run.step, c);
      hide Effect;
    }
  }

  /** A CONNACK of the broker that comes while the will is being fetched goes to the
      client only when its WILLMSG comes: whatever else happens, none is sent while
      one of the flags is set. */
  lemma HeldUntilWillMsg(cfg: Config, s: State, step: Step, c: SnConnack)
    requires s.node.HoldsConnAck() && ConnAck(c) in Effect(cfg, s, step).toClient
    ensures step.Handled? && step.sn.SnWillMsg?
  {
    if step.Handled? {
      SplitHandled(cfg, s, step.sn);
      hide HandleClient;
    } else if step.FromBroker? && !step.mq.BrokerConnAck? {
      PlainDownstream(s.node, step.mq);
      hide HandleBroker;
    }
  }

  /** The CONNACKs that the gateway makes itself are rejections. */
  lemma OwnConnAcksReject(cfg: Config, run: Run, c: SnConnack)
    requires run.Then? && ConnAck(c) in Last(cfg, run).toClient
    ensures c.origin.Some? || c.returnCode == MQTTSN_RC_REJECTED_CONGESTION
  {
    HeldHaveOrigin(cfg, run.past);
    OwnConnAcksRejectStep(cfg, After(cfg, run.past), run.step, c);
    hide Effect;
  }

  lemma OwnConnAcksRejectStep(cfg: Config, s: State, step: Step, c: SnConnack)
    requires s.node.connAck.Some? ==> s.node.connAck.value.origin.Some?
    ensures var o := Effect(cfg, s, step);
            o.node.connAck.Some? ==> o.node.connAck.value.origin.Some?
    ensures ConnAck(c) in Effect(cfg, s, step).toClient ==>
              c.origin.Some? || c.returnCode == MQTTSN_RC_REJECTED_CONGESTION
  {
    if step.Handled? {
      OwnConnAckHandled(cfg, s, step.sn, c);
      hide HandleClient;
    } else if step.FromBroker? && !step.mq.BrokerConnAck? {
      PlainDownstream(s.node, step.mq);
      hide HandleBroker;
    }
  }

  lemma OwnConnAckHandled(cfg: Config, s: State, m: SnMessage, c: SnConnack)
    requires s.node.connAck.Some? ==> s.node.connAck.value.origin.Some?
    ensures var o := HandleClient(cfg, s.protocol, s.node, m, s.now);
            (o.node.connAck.Some? ==> o.node.connAck.value.origin.Some?)
            && (ConnAck(c) in o.toClient ==> c.origin.Some? || c.returnCode == MQTTSN_RC_REJECTED_CONGESTION)
  {
    var n := s.node.UpdateStatus(m, s.now);
    assert n.connAck == s.node.connAck;
    hide Node.UpdateStatus;
    if Plain(m) {
      PlainUpstream(cfg, s.protocol, n, m, s.now);
      hide Handle;
    } else if m.SnWillMsg? {
      WillMsgConnAck(cfg, n, m.message, c);
      hide HandleSnWillMsg;
    } else {
      hide NewConnect;
    }
  }

  lemma WillMsgConnAck(cfg: Config, n: Node, message: Str, c: SnConnack)
    requires n.connAck.Some? ==> n.connAck.value.origin.Some?
    ensures var o := HandleSnWillMsg(cfg, n, message);
            (o.node.connAck.Some? ==> o.node.connAck.value.origin.Some?)
            && (ConnAck(c) in o.toClient ==> c.origin.Some? || c.returnCode == MQTTSN_RC_REJECTED_CONGESTION)
  {
  }

  lemma {:induction false} HeldHaveOrigin(cfg: Config, run: Run)
    ensures After(cfg, run).node.connAck.Some? ==> After(cfg, run).node.connAck.value.origin.Some?
  {
    if run.Start? {
    } else {
      HeldHaveOrigin(cfg, run.past);
      OwnConnAcksRejectStep(cfg, After(cfg, run.past), run.step, SnConnack(0, None));
      hide Effect;
    }
  }

  /** The broker has accepted, with this tag. */
  predicate BrokerAccepted(run: Run, tag: nat) {
    run.Then? && (BrokerAccepted(run.past, tag)
                  || (run.step.FromBroker? && run.step.mq.BrokerConnAck?
                      && run.step.mq.returnCd == 0 && run.step.mq.tag == tag))
  }

  lemma {:induction false} ReceivedIsThere(run: Run, c: SnConnack)
    requires c.origin.Some? && c.returnCode == MQTTSN_RC_ACCEPTED && Received(run, c) > 0
    ensures BrokerAccepted(run, c.origin.value)
  {
    if !(run.step.FromBroker? && Translates(run.step.mq, c)) {
      ReceivedIsThere(run.past, c);
    }
  }

  /** The client is told that it is connected only on the word of the broker. */
  lemma AcceptedByBroker(cfg: Config, run: Run, c: SnConnack)
    requires run.Then? && ConnAck(c) in Last(cfg, run).toClient && c.returnCode == MQTTSN_RC_ACCEPTED
    ensures c.origin.Some? && BrokerAccepted(run, c.origin.value)
  {
    OwnConnAcksReject(cfg, run, c);
    ConnAcksConserved(cfg, run, c);
    hide Effect;
    ReceivedIsThere(run, c);
  }
}
