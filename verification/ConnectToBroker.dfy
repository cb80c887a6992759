/** From the client's connect dialogue to the broker's CONNECT: the bytes the client writes,
    what the gateway makes of them, and what a broker that follows section 3.1 of MQTT
    3.1.1 reads. */
module ConnectToBroker {
  import opened Bytes
  import opened ConnectRuns
  import opened GatewayControl
  import opened GatewayMessages
  import opened GatewayRuns
  import opened Wrappers
  import P = GwProxy
  import MC = MqttConnect

  /** absorb() of a CONNECT, a WILLTOPIC and a WILLMSG. */
  function Absorb(m: seq<Byte>): Option<SnMessage> {
    if |m| < 2 || m[0] != |m| then None
    else if m[1] == 0x04 && |m| >= 6 then
      Some(SnConnect(m[2] as int / 4 % 2 == 1, m[2] as int / 8 % 2 == 1, Get16(m[4..]), m[6..]))
    else if m[1] == 0x07 && |m| >= 3 then Some(SnWillTopic(m[2] as bv8, m[3..]))
    else if m[1] == 0x09 then Some(SnWillMsg(m[2..]))
    else None
  }

  lemma ConnectAbsorbed(cfg: P.Config, flags: Byte)
    ensures Absorb(P.ConnectBytes(cfg, flags))
            == Some(SnConnect(flags as int / 4 % 2 == 1, flags as int / 8 % 2 == 1, cfg.keepAlive, P.IdSent(cfg)))
  {
    var m, keepAlive := P.ConnectBytes(cfg, flags), Put16(cfg.keepAlive);
    assert m[4..] == keepAlive + cfg.Name() && m[6..] == cfg.Name();
    Get16Put16(cfg.keepAlive, cfg.Name());
  }

  lemma WillAbsorbed(cfg: P.Config)
    requires cfg.HasWill() && cfg.Ok()
    ensures Absorb(P.WillTopicBytes(cfg)) == Some(SnWillTopic(cfg.willFlags as bv8, cfg.willTopic.value))
    ensures Absorb(P.WillMsgBytes(cfg)) == Some(SnWillMsg(cfg.willMsg.value))
  {
    assert P.WillTopicBytes(cfg)[3..] == cfg.willTopic.value && P.WillMsgBytes(cfg)[2..] == cfg.willMsg.value;
  }

  /** What the broker is to read of a CONNECT, but for the will. */
  predicate ReadAs(m: SnMessage, gateway: Config, nodeId: Str, protocol: Byte, read: MC.View)
    requires m.SnConnect?
  {
    && read.level == protocol && read.clean == m.clean && read.keepAlive == m.duration
    && read.clientId == (if gateway.authorized then nodeId else m.clientId)
    && (gateway.loginId != [] && gateway.password != [] ==>
          read.userName == Some(gateway.loginId) && read.password == Some(gateway.password))
  }

  /** A client without a will: whatever the gateway has done for it before, its CONNECT, if
      one can be sent on, becomes the broker's, with its keep-alive and its name. */
  lemma ConnectReachesBroker(cfg: P.Config, flags: Byte, gateway: Config, run: Run, after: seq<Byte>)
    requires flags as int / 8 % 2 == 0 && After(gateway, run).node.ConnectSendable()
    ensures var m := Absorb(P.ConnectBytes(cfg, flags));
            var sent := SnConnect(flags as int / 4 % 2 == 1, false, cfg.keepAlive, P.IdSent(cfg));
            m.Some? && var s, o := After(gateway, run), Last(gateway, Then(run, Handled(m.value)));
            o.toClient == [] && |o.toBroker| == 1 && o.toBroker[0].Connect?
            && var c := o.toBroker[0].connect;
            c.Length() < 0x1_0000 ==>
              var read := MC.Parse(MC.Serialize(c) + after);
              read.Some? && read.value.2 == after && read.value.0.will == None
              && ReadAs(sent, gateway, s.node.nodeId, s.protocol, read.value.0)
  {
    ConnectAbsorbed(cfg, flags);
    var m := Absorb(P.ConnectBytes(cfg, flags)).value;
    var next := Then(run, Handled(m));
    hide P.ConnectBytes, Absorb, MC.Parse, MC.Serialize, P.IdSent, Effect, LastRequest, TopicSince;
    ConnectPushes(gateway, run, m);
    var c := Last(gateway, next).toBroker[0].connect;
    if c.Length() < 0x1_0000 {
      BrokerReadsRequest(gateway, next, c, after);
    }
  }

  lemma ConnectPushes(gateway: Config, run: Run, m: SnMessage)
    requires m.SnConnect? && !m.will && After(gateway, run).node.ConnectSendable()
    ensures var o := Last(gateway, Then(run, Handled(m)));
            o.toClient == [] && |o.toBroker| == 1 && o.toBroker[0].Connect?
  {
    hide Draft, Effect;
    PendingInvariant(gateway, run);
    StepOnPending(gateway, After(gateway, run), Handled(m));
    ConnectStep(gateway, After(gateway, run), m);
  }

  /** What a CONNECT that can be sent on sends the client, and its status. */
  lemma ConnectStep(gateway: Config, s: State, m: SnMessage)
    requires m.SnConnect?
    ensures var o := Effect(gateway, s, Handled(m));
            o.toClient == (if m.will then [WillTopicReq] else [])
            && (m.will && s.node.ConnectSendable() ==> o.node.ConnectSendable())
  {
    SplitHandled(gateway, s, m);
    hide NewConnect, StartConnect;
  }

  /** A client with a will: its CONNECT, WILLTOPIC and WILLMSG, handled one after the other,
      become the broker's CONNECT with its keep-alive and name, and the topic and message of
      its will. */
  lemma WillReachesBroker(cfg: P.Config, flags: Byte, gateway: Config, run: Run, after: seq<Byte>)
    requires cfg.Ok() && cfg.HasWill() && flags as int / 8 % 2 == 1 && After(gateway, run).node.ConnectSendable()
    ensures var m1, m2, m3 := Absorb(P.ConnectBytes(cfg, flags)), Absorb(P.WillTopicBytes(cfg)),
              Absorb(P.WillMsgBytes(cfg));
            var sent := SnConnect(flags as int / 4 % 2 == 1, true, cfg.keepAlive, P.IdSent(cfg));
            m1.Some? && m2.Some? && m3.Some?
            && var s, asked := After(gateway, run), Then(Then(run, Handled(m1.value)), Handled(m2.value));
            var o := Last(gateway, Then(asked, Handled(m3.value)));
            |o.toBroker| == 1 && o.toBroker[0].Connect?
            && var c := o.toBroker[0].connect;
            c.Length() < 0x1_0000 ==>
              var read := MC.Parse(MC.Serialize(c) + after);
              read.Some? && read.value.2 == after
              && read.value.0.will == Some(MC.Will(cfg.willTopic.value, cfg.willMsg.value, 0, false))
              && ReadAs(sent, gateway, s.node.nodeId, s.protocol, read.value.0)
  {
    ConnectAbsorbed(cfg, flags);
    WillAbsorbed(cfg);
    var m1, m2, m3 := Absorb(P.ConnectBytes(cfg, flags)).value, Absorb(P.WillTopicBytes(cfg)).value,
      Absorb(P.WillMsgBytes(cfg)).value;
    hide P.ConnectBytes, P.WillTopicBytes, P.WillMsgBytes, Absorb, MC.Parse, MC.Serialize, P.IdSent, Effect,
         LastRequest, TopicSince, After, Last, MC.Connect.Length;
    DialogueIsRead(gateway, run, m1, m2, m3, after);
  }

  lemma DialogueIsRead(gateway: Config, run: Run, m1: SnMessage, m2: SnMessage, m3: SnMessage, after: seq<Byte>)
    requires m1.SnConnect? && m1.will && m2.SnWillTopic? && m3.SnWillMsg?
    requires After(gateway, run).node.ConnectSendable()
    ensures var s, asked := After(gateway, run), Then(Then(run, Handled(m1)), Handled(m2));
            var o := Last(gateway, Then(asked, Handled(m3)));
            |o.toBroker| == 1 && o.toBroker[0].Connect?
            && var c := o.toBroker[0].connect;
            c.Length() < 0x1_0000 ==>
              var read := MC.Parse(MC.Serialize(c) + after);
              read.Some? && read.value.2 == after
              && read.value.0.will == Some(MC.Will(m2.topic, m3.message, 0, false))
              && ReadAs(m1, gateway, s.node.nodeId, s.protocol, read.value.0)
  {
    DialoguePushes(gateway, run, m1, m2, m3);
    hide After, Last, LastRequest, TopicSince, MC.Parse, MC.Serialize, MC.Connect.Length;
    var next := Then(Then(Then(run, Handled(m1)), Handled(m2)), Handled(m3));
    var c := Last(gateway, next).toBroker[0].connect;
    if c.Length() < 0x1_0000 {
      BrokerReadsRequest(gateway, next, c, after);
    }
  }

  /** The three messages in turn push one CONNECT, for the request and with the will. */
  lemma DialoguePushes(gateway: Config, run: Run, m1: SnMessage, m2: SnMessage, m3: SnMessage)
    requires m1.SnConnect? && m1.will && m2.SnWillTopic? && m3.SnWillMsg?
    requires After(gateway, run).node.ConnectSendable()
    ensures var asked := Then(Then(run, Handled(m1)), Handled(m2));
            LastRequest(gateway, asked) == RequestOf(gateway, After(gateway, run), m1)
            && TopicSince(gateway, asked) == Some(WillTopic(m2.willFlags, m2.topic))
            && (var o := Last(gateway, Then(asked, Handled(m3))); |o.toBroker| == 1 && o.toBroker[0].Connect?)
  {
    var first := Then(run, Handled(m1));
    var asked := Then(first, Handled(m2));
    hide Draft, Effect, WithWillTopic;
    PendingInvariant(gateway, run);
    StepOnPending(gateway, After(gateway, run), Handled(m1));
    ConnectStep(gateway, After(gateway, run), m1);
    assert After(gateway, first).node.mqttConnect.Some? && After(gateway, first).node.ConnectSendable();
    PendingInvariant(gateway, first);
    StepOnPending(gateway, After(gateway, first), Handled(m2));
    assert After(gateway, asked).node.mqttConnect.Some? && After(gateway, asked).node.ConnectSendable();
    PendingInvariant(gateway, asked);
    StepOnPending(gateway, After(gateway, asked), Handled(m3));
  }
}
