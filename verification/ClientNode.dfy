/** The gateway's state of one client: its status, the CONNECT being put together,
    the CONNACK being held back, topics, and ids awaiting an acknowledgement. */
module ClientNode {
  import opened Bytes
  import opened GatewayMessages
  import opened Wrappers
  import MC = MqttConnect
  import T = Topics
  import M = TopicIdMap

  datatype Status = Disconnected | TryConnecting | Connecting | Active | Asleep | Awake | Lost

  /** The fields of a ClientNode that its methods and the handlers look at. The
      keep-alive timer is its start time, if started, and its period. */
  datatype Node = Node(status: Status, keepAliveMsec: nat, startTime: Option<int>, millis: nat,
                       mqttConnect: Option<MC.Connect>, connAckSaveFlg: bool, waitWillMsgFlg: bool,
                       connAck: Option<SnConnack>, pubIds: seq<M.Entry>, subIds: seq<M.Entry>,
                       topics: T.Registry, nodeId: Str, snMsgId: Byte) {
    /** isConnectSendable. */
    predicate ConnectSendable() {
      status != Lost && status != TryConnecting
    }

    function StartTimer(now: int): Node {
      this.(startTime := Some(now), millis := keepAliveMsec * 3 / 2)
    }

    predicate TimeUp(now: int) {
      startTime.Some? && now - startTime.value > millis
    }

    function SetKeepAlive(sec: U16, now: int): Node {
      this.(keepAliveMsec := sec * 1000).StartTimer(now)
    }

    function Dropped(): Node {
      this.(status := Disconnected, connAckSaveFlg := false, waitWillMsgFlg := false)
    }

    function UpdateStatus(m: SnMessage, now: int): Node {
      match status
      case Disconnected => if m.SnConnect? then SetKeepAlive(m.duration, now) else this
      case Lost => if m.SnConnect? then SetKeepAlive(m.duration, now) else this
      case Active =>
        if m.SnPingReq? || m.SnPublish? || m.SnSubscribe? || m.SnUnsubscribe? || m.SnAck? then StartTimer(now)
        else if m.SnDisconnect? then
          if m.duration != 0 then this.(status := Asleep, keepAliveMsec := m.duration as int * 1000) else Dropped()
        else this
      case Asleep =>
        if m.SnConnect? then SetKeepAlive(m.duration, now).(status := Connecting)
        else if m.SnPingReq? then this.(status := Awake)
        else this
      case Awake =>
        if m.SnConnect? then this.(status := Connecting).SetKeepAlive(m.duration, now)
        else if m.SnDisconnect? then Dropped()
        else if m.SnPingResp? then this.(status := Asleep)
        else this
      case TryConnecting => this
      case Connecting => this
    }

    function CheckTimeover(now: int): Node {
      if status == Active && TimeUp(now) then this.(status := Lost) else this
    }

    function ConnectQued(): Node {
      if status == Disconnected || status == Lost then this.(status := TryConnecting) else this
    }

    function ConnectSended(): Node {
      if status == TryConnecting then this.(status := Connecting, mqttConnect := None) else this
    }

    function ConnackSended(rc: Byte): Node {
      if status != Connecting then this
      else if rc == MQTTSN_RC_ACCEPTED then this.(status := Active)
      else Dropped()
    }

    /** checkConnAck holds a CONNACK back while one of the flags is set. */
    predicate HoldsConnAck() {
      connAckSaveFlg || waitWillMsgFlg
    }

    function CheckConnAck(c: SnConnack): Node {
      if HoldsConnAck() then this.(connAck := Some(c)) else this
    }

    /** What checkGetConnAck returns. */
    function Released(): Option<SnConnack> {
      if HoldsConnAck() then connAck else None
    }

    function CheckGetConnAck(): Node {
      if connAck.None? then this.(waitWillMsgFlg := true)
      else if HoldsConnAck() then this.(connAckSaveFlg := false, waitWillMsgFlg := false, connAck := None)
      else this
    }

    function SetConnAckSaveFlg(): Node {
      this.(connAckSaveFlg := true, connAck := None)
    }

    function NextSnMsgId(): Byte {
      if snMsgId == 255 then 1 else snMsgId + 1
    }
  }

  const NEW_NODE: Node :=
    Node(Disconnected, 0, None, 0, None, false, false, None, [], [], T.NO_TOPICS, [], 0)

  /** ClientRecvTask applies updateStatus to a message when it arrives and the
      control task once more when it handles it: if nothing comes between, the
      second time changes nothing but the start of the timer. */
  lemma TwiceIsOnce(n: Node, m: SnMessage, t: int, u: int)
    ensures var once := n.UpdateStatus(m, t);
            once.UpdateStatus(m, u).status == once.status && once.UpdateStatus(m, t) == once
  {
  }

  /** The message ids that the gateway makes up go round from 1 to 255. */
  lemma SnMsgIdsCycle(n: Node)
    ensures n.NextSnMsgId() == n.snMsgId % 255 + 1
  {
  }

  class ClientNode {
    var status: Status
    var keepAliveMsec: nat
    var startTime: Option<int>
    var millis: nat
    var mqttConnect: Option<MC.Connect>
    var connAckSaveFlg: bool
    var waitWillMsgFlg: bool
    var connAck: Option<SnConnack>
    var waitedPubTopicIds: seq<M.Entry>
    var waitedSubTopicIds: seq<M.Entry>
    var topics: T.Registry
    var nodeId: Str
    var snMsgId: Byte
    var brokerSendQue: seq<ToBroker>
    var clientSendQue: seq<ToClient>

    constructor ()
      ensures View() == NEW_NODE && brokerSendQue == [] && clientSendQue == []
    {
      status, keepAliveMsec, startTime, millis := Disconnected, 0, None, 0;
      mqttConnect, connAckSaveFlg, waitWillMsgFlg, connAck := None, false, false, None;
      waitedPubTopicIds, waitedSubTopicIds, topics, nodeId, snMsgId := [], [], T.NO_TOPICS, [], 0;
      brokerSendQue, clientSendQue := [], [];
    }

    ghost function View(): Node
      reads this
    {
      Node(status, keepAliveMsec, startTime, millis, mqttConnect, connAckSaveFlg, waitWillMsgFlg,
           connAck, waitedPubTopicIds, waitedSubTopicIds, topics, nodeId, snMsgId)
    }

    ghost function Queues(): (seq<ToBroker>, seq<ToClient>)
      reads this
    {
      (brokerSendQue, clientSendQue)
    }

    method SetBrokerSendMessage(msg: ToBroker)
      modifies `brokerSendQue
      ensures brokerSendQue == old(brokerSendQue) + [msg]
    {
      brokerSendQue := brokerSendQue + [msg];
    }

    method SetClientSendMessage(msg: ToClient)
      modifies `clientSendQue
      ensures clientSendQue == old(clientSendQue) + [msg]
    {
      clientSendQue := clientSendQue + [msg];
    }

    method IsConnectSendable() returns (b: bool)
      ensures b == View().ConnectSendable()
    {
      b := !(status == Lost || status == TryConnecting);
    }

    method StartKeepAliveTimer(now: int)
      modifies `startTime, `millis
      ensures View() == old(View()).StartTimer(now)
    {
      startTime, millis := Some(now), keepAliveMsec * 3 / 2;
    }

    method SetKeepAlive(sec: U16, now: int)
      modifies `startTime, `millis, `keepAliveMsec
      ensures View() == old(View()).SetKeepAlive(sec, now)
    {
      keepAliveMsec := sec * 1000;
      StartKeepAliveTimer(now);
    }

    method SetDisconnected()
      modifies `status, `connAckSaveFlg, `waitWillMsgFlg
      ensures View() == old(View()).Dropped()
    {
      status := Disconnected;
      connAckSaveFlg := false;
      waitWillMsgFlg := false;
    }

    method UpdateStatus(m: SnMessage, now: int)
      modifies this
      ensures View() == old(View()).UpdateStatus(m, now) && Queues() == old(Queues())
    {
      if (status == Disconnected || status == Lost) && m.SnConnect? {
        SetKeepAlive(m.duration, now);
      } else if status == Active {
        match m {
          case SnDisconnect(duration) =>
            if duration != 0 {
              status := Asleep;
              keepAliveMsec := duration as int * 1000;
            } else {
              SetDisconnected();
            }
          case SnPingReq => StartKeepAliveTimer(now);
          case SnPublish(_, _, _, _) => StartKeepAliveTimer(now);
          case SnSubscribe(_, _, _, _) => StartKeepAliveTimer(now);
          case SnUnsubscribe(_, _, _, _) => StartKeepAliveTimer(now);
          case SnAck(_, _) => StartKeepAliveTimer(now);
          case _ =>
        }
      } else if status == Asleep {
        if m.SnConnect? {
          SetKeepAlive(m.duration, now);
          status := Connecting;
        } else if m.SnPingReq? {
          status := Awake;
        }
      } else if status == Awake {
        match m {
          case SnConnect(_, _, duration, _) =>
            status := Connecting;
            SetKeepAlive(duration, now);
          case SnDisconnect(_) => SetDisconnected();
          case SnPingResp => status := Asleep;
          case _ =>
        }
      }
    }

    /** `disconnects`: the connection to the broker is closed. */
    method CheckTimeover(now: int) returns (disconnects: bool)
      modifies `status
      ensures View() == old(View()).CheckTimeover(now)
      ensures disconnects <==> status == Lost && old(status) != Lost
    {
      disconnects := status == Active && startTime.Some? && now - startTime.value > millis;
      if disconnects {
        status := Lost;
      }
    }

    method ConnectQued()
      modifies `status
      ensures View() == old(View()).ConnectQued()
    {
      if status == Disconnected || status == Lost {
        status := TryConnecting;
      }
    }

    method ConnectSended()
      modifies `status, `mqttConnect
      ensures View() == old(View()).ConnectSended()
    {
      if status == TryConnecting {
        status := Connecting;
        mqttConnect := None;
      }
    }

    method ConnackSended(rc: Byte)
      modifies `status, `connAckSaveFlg, `waitWillMsgFlg
      ensures View() == old(View()).ConnackSended(rc)
    {
      if status == Connecting {
        if rc == MQTTSN_RC_ACCEPTED {
          status := Active;
        } else {
          SetDisconnected();
        }
      }
    }

    method CheckConnAck(msg: SnConnack) returns (held: bool)
      modifies `connAck
      ensures View() == old(View()).CheckConnAck(msg) && held == old(View()).HoldsConnAck()
    {
      held := connAckSaveFlg || waitWillMsgFlg;
      if held {
        connAck := Some(msg);
      }
    }

    method CheckGetConnAck() returns (c: Option<SnConnack>)
      modifies `connAck, `connAckSaveFlg, `waitWillMsgFlg
      ensures View() == old(View()).CheckGetConnAck() && c == old(View()).Released()
    {
      if connAck.None? {
        waitWillMsgFlg := true;
      } else if connAckSaveFlg || waitWillMsgFlg {
        connAckSaveFlg := false;
        waitWillMsgFlg := false;
        c := connAck;
        connAck := None;
        return;
      }
      c := None;
    }

    method SetConnAckSaveFlg()
      modifies `connAck, `connAckSaveFlg
      ensures View() == old(View()).SetConnAckSaveFlg()
    {
      connAckSaveFlg := true;
      connAck := None;
    }

    method GetNextSnMsgId() returns (id: Byte)
      modifies `snMsgId
      ensures id == snMsgId == old(View()).NextSnMsgId()
    {
      snMsgId := (snMsgId + 1) % 256;
      if snMsgId == 0 {
        snMsgId := snMsgId + 1;
      }
      id := snMsgId;
    }
  }
}
