/** The gateway's tasks exchange bare events through three queues; the messages
    wait in separate queues of each client. Both are kept in step here, task by
    task, under every interleaving. */
module EventPairing {
  import opened Sequences
  import opened Wrappers

  datatype Kind = BrokerSend | BrokerRecv | ClientSend | ClientRecv

  datatype Channel = GatewayQue | BrokerSendQue | ClientSendQue

  /** An event that stands for a message of `node`, or a broadcast or timeout. */
  datatype Event = Message(kind: Kind, node: nat) | Other

  function ChannelOf(k: Kind): Channel {
    match k
    case ClientRecv => GatewayQue
    case BrokerRecv => GatewayQue
    case BrokerSend => BrokerSendQue
    case ClientSend => ClientSendQue
  }

  /** The message queues of one kind, and the node whose message its only
      producer has pushed without posting the event yet. */
  datatype Lane<M> = Lane(boxes: map<nat, seq<M>>, pending: Option<nat>) {
    function Box(node: nat): seq<M> {
      if node in boxes then boxes[node] else []
    }
  }

  /** What a consumer works on: the event and the message it read, if any. */
  datatype Hand<M> = Hand(event: Event, message: Option<M>)

  datatype Line<M> = Line(que: seq<Event>, hand: Option<Hand<M>>)

  datatype State<M> = State(lanes: map<Kind, Lane<M>>, lines: map<Channel, Line<M>>) {
    ghost predicate Shaped() {
      (forall k: Kind :: k in lanes) && (forall c: Channel :: c in lines)
    }
  }

  /** The steps of the tasks. Push and Post are the two halves of handing a message
      on, Take reads the front message, Finish deletes the event, which pops. */
  datatype Step<M> =
    | Push(kind: Kind, node: nat, message: M)
    | Post(kind: Kind)
    | PostOther(channel: Channel)
    | Take(channel: Channel)
    | Finish(channel: Channel)

  ghost function Empty<M>(): (s: State<M>)
    ensures s.Shaped()
    ensures forall k: Kind :: s.lanes[k] == Lane(map[], None)
    ensures forall c: Channel :: s.lines[c] == Line([], None)
  {
    var lane: Lane<M> := Lane(map[], None);
    var line: Line<M> := Line([], None);
    AllThere(lane, line);
    State(Lanes(lane), Lines(line))
  }

  function Lanes<M>(lane: Lane<M>): map<Kind, Lane<M>> {
    map[BrokerSend := lane, BrokerRecv := lane, ClientSend := lane, ClientRecv := lane]
  }

  function Lines<M>(line: Line<M>): map<Channel, Line<M>> {
    map[GatewayQue := line, BrokerSendQue := line, ClientSendQue := line]
  }

  lemma AllThere<M>(lane: Lane<M>, line: Line<M>)
    ensures forall k: Kind :: k in Lanes(lane) && Lanes(lane)[k] == lane
    ensures forall c: Channel :: c in Lines(line) && Lines(line)[c] == line
  {
    forall k: Kind ensures k in Lanes(lane) && Lanes(lane)[k] == lane {
      match k case BrokerSend => case BrokerRecv => case ClientSend => case ClientRecv =>
    }
    forall c: Channel ensures c in Lines(line) && Lines(line)[c] == line {
      match c case GatewayQue => case BrokerSendQue => case ClientSendQue =>
    }
  }

  ghost predicate Enabled<M>(s: State<M>, step: Step<M>)
    requires s.Shaped()
  {
    match step
    case Push(k, _, _) => s.lanes[k].pending.None?
    case Post(k) => s.lanes[k].pending.Some?
    case PostOther(_) => true
    case Take(c) => s.lines[c].hand.None? && s.lines[c].que != []
    case Finish(c) => s.lines[c].hand.Some?
  }

  function Front<M>(s: seq<M>): Option<M> {
    if s == [] then None else Some(s[0])
  }

  /** pop() of an empty queue does nothing. */
  function Rest<M>(s: seq<M>): seq<M> {
    if s == [] then [] else s[1..]
  }

  ghost function FrontFor<M>(s: State<M>, e: Event): Option<M>
    requires s.Shaped()
  {
    if e.Other? then None else Front(s.lanes[e.kind].Box(e.node))
  }

  ghost function Next<M>(s: State<M>, step: Step<M>): (t: State<M>)
    requires s.Shaped() && Enabled(s, step)
    ensures t.Shaped()
  {
    match step
    case Push(k, n, m) =>
      s.(lanes := s.lanes[k := Grown(s.lanes[k], n, m).(pending := Some(n))])
    case Post(k) =>
      var c := ChannelOf(k);
      State(s.lanes[k := s.lanes[k].(pending := None)],
            s.lines[c := s.lines[c].(que := s.lines[c].que + [Message(k, s.lanes[k].pending.value)])])
    case PostOther(c) =>
      s.(lines := s.lines[c := s.lines[c].(que := s.lines[c].que + [Other])])
    case Take(c) =>
      var e := s.lines[c].que[0];
      s.(lines := s.lines[c := Line(s.lines[c].que[1..], Some(Hand(e, FrontFor(s, e))))])
    case Finish(c) =>
      var e := s.lines[c].hand.value.event;
      var t := s.(lines := s.lines[c := s.lines[c].(hand := None)]);
      if e.Other? then t
      else t.(lanes := t.lanes[e.kind := Popped(t.lanes[e.kind], e.node)])
  }

  function Popped<M>(lane: Lane<M>, n: nat): Lane<M> {
    lane.(boxes := lane.boxes[n := Rest(lane.Box(n))])
  }

  function Grown<M>(lane: Lane<M>, n: nat, m: M): Lane<M> {
    lane.(boxes := lane.boxes[n := lane.Box(n) + [m]])
  }

  // ----- the events outstanding for one kind, oldest first

  function Nodes(k: Kind, events: seq<Event>): seq<nat> {
    if events == [] then []
    else Node(k, events[0]) + Nodes(k, events[1..])
  }

  function Node(k: Kind, e: Event): seq<nat> {
    if e.Message? && e.kind == k then [e.node] else []
  }

  function InHand<M>(k: Kind, hand: Option<Hand<M>>): seq<nat> {
    if hand.Some? then Nodes(k, [hand.value.event]) else []
  }

  function Pending(p: Option<nat>): seq<nat> {
    if p.Some? then [p.value] else []
  }

  /** In hand, queued, and pushed without being posted. */
  ghost function Outstanding<M>(s: State<M>, k: Kind): seq<nat>
    requires s.Shaped()
  {
    Out(k, s.lines[ChannelOf(k)], s.lanes[k].pending)
  }

  function Out<M>(k: Kind, line: Line<M>, pending: Option<nat>): seq<nat> {
    InHand(k, line.hand) + Nodes(k, line.que) + Pending(pending)
  }

  lemma NodesOne(k: Kind, e: Event)
    ensures Nodes(k, [e]) == if e.Message? && e.kind == k then [e.node] else []
  {
    assert [e][1..] == [];
  }

  /** One event outstanding for each message waiting. */
  ghost predicate Paired<M>(lane: Lane<M>, nodes: seq<nat>) {
    forall n: nat :: multiset(nodes)[n] == |lane.Box(n)|
  }

  /** The message read at Take is still at the front, since only this consumer pops. */
  ghost predicate HandFresh<M>(s: State<M>, c: Channel)
    requires s.Shaped()
  {
    var hand := s.lines[c].hand;
    hand.Some? ==> hand.value.message == FrontFor(s, hand.value.event)
                   && (hand.value.event.Message? ==> ChannelOf(hand.value.event.kind) == c)
  }

  predicate QueFits(que: seq<Event>, c: Channel) {
    forall i :: 0 <= i < |que| ==> que[i].Message? ==> ChannelOf(que[i].kind) == c
  }

  ghost predicate Invariant<M>(s: State<M>) {
    && s.Shaped()
    && (forall k: Kind :: Paired(s.lanes[k], Outstanding(s, k)))
    && (forall c: Channel :: HandFresh(s, c) && QueFits(s.lines[c].que, c))
  }

  /** The abstract queue of one kind: the messages zipped with the nodes of
      the events outstanding. */
  function Zip<M>(nodes: seq<nat>, lane: Lane<M>): seq<(nat, Option<M>)> {
    if nodes == [] then []
    else [(nodes[0], Front(lane.Box(nodes[0])))] + Zip(nodes[1..], Popped(lane, nodes[0]))
  }

  ghost function Abs<M>(s: State<M>, k: Kind): seq<(nat, Option<M>)>
    requires s.Shaped()
  {
    Zip(Outstanding(s, k), s.lanes[k])
  }

  lemma {:induction false} NodesConcat(k: Kind, a: seq<Event>, b: seq<Event>)
    ensures Nodes(k, a + b) == Nodes(k, a) + Nodes(k, b)
  {
    if a == [] {
      assert a + b == b;
    } else {
      TailOfConcat(a, b);
      NodesConcat(k, a[1..], b);
      Assoc(Node(k, a[0]), Nodes(k, a[1..]), Nodes(k, b));
    }
  }

  /** A pushed message goes to the end of the abstract queue. */
  lemma {:induction false} ZipPush<M>(nodes: seq<nat>, lane: Lane<M>, n: nat, m: M)
    requires Paired(lane, nodes)
    ensures Zip(nodes + [n], Grown(lane, n, m)) == Zip(nodes, lane) + [(n, Some(m))]
    decreases |nodes|
  {
    var lane' := Grown(lane, n, m);
    assert multiset(nodes + [n]) == multiset(nodes) + multiset([n]);
    if nodes == [] {
      assert multiset(nodes)[n] == 0 && lane.Box(n) == [];
      assert [n][1..] == [];
    } else {
      var h := nodes[0];
      PairedTail(nodes, lane);
      ZipPush(nodes[1..], Popped(lane, h), n, m);
      TailOfConcat(nodes, [n]);
      SameBoxes(lane, h, n, m);
      hide Popped, Paired, Grown;
      ZipSameBoxes(nodes[1..] + [n], Grown(Popped(lane, h), n, m), Popped(lane', h));
      Assoc([(h, Front(lane.Box(h)))], Zip(nodes[1..], Popped(lane, h)), [(n, Some(m))]);
    }
  }

  lemma PairedPush<M>(nodes: seq<nat>, lane: Lane<M>, n: nat, m: M)
    requires Paired(lane, nodes)
    ensures Paired(Grown(lane, n, m), nodes + [n])
  {
    assert multiset(nodes + [n]) == multiset(nodes) + multiset{n};
  }

  lemma SameBoxes<M>(lane: Lane<M>, h: nat, n: nat, m: M)
    requires |lane.Box(h)| > 0
    ensures forall i: nat :: Popped(Grown(lane, n, m), h).Box(i) == Grown(Popped(lane, h), n, m).Box(i)
    ensures Front(Grown(lane, n, m).Box(h)) == Front(lane.Box(h))
  {
  }

  lemma {:induction false} ZipSameBoxes<M>(nodes: seq<nat>, a: Lane<M>, b: Lane<M>)
    requires forall i: nat :: a.Box(i) == b.Box(i)
    ensures Zip(nodes, a) == Zip(nodes, b)
    decreases |nodes|
  {
    if nodes == [] {
    } else {
      var h := nodes[0];
      assert a.Box(h) == b.Box(h);
      forall i: nat ensures Popped(a, h).Box(i) == Popped(b, h).Box(i) {
        assert a.Box(i) == b.Box(i);
      }
      ZipSameBoxes(nodes[1..], Popped(a, nodes[0]), Popped(b, nodes[0]));
    }
  }

  lemma PairedTail<M>(nodes: seq<nat>, lane: Lane<M>)
    requires nodes != [] && Paired(lane, nodes)
    ensures |lane.Box(nodes[0])| > 0 && Paired(Popped(lane, nodes[0]), nodes[1..])
  {
    var h := nodes[0];
    assert nodes == [h] + nodes[1..];
    assert multiset(nodes) == multiset{h} + multiset(nodes[1..]);
    assert multiset(nodes)[h] > 0;
    forall n: nat ensures multiset(nodes[1..])[n] == |Popped(lane, h).Box(n)| {
      assert multiset(nodes)[n] == |lane.Box(n)|;
    }
  }

  // ----- one step

  /** What a step adds to the abstract queue of `k`. */
  function Pushes<M>(step: Step<M>, k: Kind): seq<(nat, Option<M>)> {
    if step.Push? && step.kind == k then [(step.node, Some(step.message))] else []
  }

  /** The node and the message that a consumer has finished with. */
  ghost function Handles<M>(s: State<M>, step: Step<M>, k: Kind): seq<(nat, Option<M>)>
    requires s.Shaped() && Enabled(s, step)
  {
    if step.Finish? && s.lines[step.channel].hand.value.event.Message?
          && s.lines[step.channel].hand.value.event.kind == k
    then [(s.lines[step.channel].hand.value.event.node, s.lines[step.channel].hand.value.message)]
    else []
  }

  /** Posting moves a node from the pending ones into the queue. */
  lemma PostOut<M>(k: Kind, line: Line<M>, pending: Option<nat>, p: Kind, node: nat)
    requires p == k ==> pending == Some(node)
    ensures Out(k, line.(que := line.que + [Message(p, node)]), if p == k then None
          else pending) == Out(k, line, pending)
  {
    NodesConcat(k, line.que, [Message(p, node)]);
    NodesOne(k, Message(p, node));
    hide Nodes, InHand;
    if p == k {
      Assoc(InHand(k, line.hand), Nodes(k, line.que), [node]);
    }
  }

  lemma PostKeepsOutstanding<M>(s: State<M>, p: Kind, k: Kind)
    requires s.Shaped() && Enabled(s, Post(p))
    ensures Outstanding(Next(s, Post(p)), k) == Outstanding(s, k)
  {
    PostOut(k, s.lines[ChannelOf(k)], s.lanes[k].pending, p, s.lanes[p].pending.value);
    hide Out;
  }

  lemma PostOtherKeepsOutstanding<M>(s: State<M>, c: Channel, k: Kind)
    requires s.Shaped()
    ensures Outstanding(Next(s, PostOther(c)), k) == Outstanding(s, k)
  {
    NodesConcat(k, s.lines[c].que, [Other]);
    NodesOne(k, Other);
    hide Nodes;
  }

  lemma TakeKeepsOutstanding<M>(s: State<M>, c: Channel, k: Kind)
    requires s.Shaped() && Enabled(s, Take(c))
    ensures Outstanding(Next(s, Take(c)), k) == Outstanding(s, k)
  {
    var que := s.lines[c].que;
    assert [que[0]] + que[1..] == que;
    NodesConcat(k, [que[0]], que[1..]);
    hide Nodes;
  }

  /** What is in hand comes first. */
  lemma FinishOut<M>(k: Kind, line: Line<M>, pending: Option<nat>)
    requires line.hand.Some?
    ensures Out(k, line, pending) == Node(k, line.hand.value.event) + Out(k, line.(hand := None), pending)
  {
    var e := line.hand.value.event;
    NodesOne(k, e);
    WithNothing(Nodes(k, line.que));
    hide Nodes;
    Assoc(Node(k, e), Nodes(k, line.que), Pending(pending));
  }

  lemma FinishPopsOutstanding<M>(s: State<M>, c: Channel, k: Kind)
    requires s.Shaped() && Enabled(s, Finish(c)) && HandFresh(s, c)
    ensures var e := s.lines[c].hand.value.event;
            var t := Next(s, Finish(c));
            if e.Message? && e.kind == k
            then Outstanding(s, k) == [e.node] + Outstanding(t, k) && t.lanes[k] == Popped(s.lanes[k], e.node)
            else Outstanding(t, k) == Outstanding(s, k) && t.lanes[k] == s.lanes[k]
  {
    if ChannelOf(k) == c {
      FinishOut(k, s.lines[c], s.lanes[k].pending);
      WithNothing(Out(k, s.lines[c].(hand := None), s.lanes[k].pending));
    }
    hide Out, Popped;
  }

  /** Every step keeps the events of `k` paired with its messages; the abstract
      queue gets what is pushed at its end and loses what is handled at its front. */
  lemma StepRefines<M>(s: State<M>, step: Step<M>, k: Kind)
    requires Invariant(s) && Enabled(s, step)
    ensures Paired(Next(s, step).lanes[k], Outstanding(Next(s, step), k))
    ensures Abs(s, k) + Pushes(step, k) == Handles(s, step, k) + Abs(Next(s, step), k)
  {
    assert Paired(s.lanes[k], Outstanding(s, k)) && (step.Finish? ==> HandFresh(s, step.channel));
    match step {
      case Push(p, n, m) => PushRefines(s, p, n, m, k);
      case Finish(c) => FinishRefines(s, c, k);
      case _ => QuietRefines(s, step, k);
    }
    hide *;
  }

  /** The steps that neither push nor pop a message. */
  lemma QuietRefines<M>(s: State<M>, step: Step<M>, k: Kind)
    requires s.Shaped() && Enabled(s, step) && !step.Push? && !step.Finish? && Paired(s.lanes[k], Outstanding(s, k))
    ensures Paired(Next(s, step).lanes[k], Outstanding(Next(s, step), k))
    ensures Abs(s, k) + Pushes(step, k) == Handles(s, step, k) + Abs(Next(s, step), k)
  {
    hide Paired, Outstanding, Zip;
    match step {
      case Post(p) => PostRefines(s, p, k);
      case PostOther(c) => PostOtherKeepsOutstanding(s, c, k);
      case Take(c) => TakeKeepsOutstanding(s, c, k);
    }
  }

  lemma PostRefines<M>(s: State<M>, p: Kind, k: Kind)
    requires s.Shaped() && Enabled(s, Post(p)) && Paired(s.lanes[k], Outstanding(s, k))
    ensures Paired(Next(s, Post(p)).lanes[k], Outstanding(s, k))
    ensures Outstanding(Next(s, Post(p)), k) == Outstanding(s, k)
    ensures Abs(Next(s, Post(p)), k) == Abs(s, k)
  {
    PostKeepsOutstanding(s, p, k);
    assert Next(s, Post(p)).lanes[k].boxes == s.lanes[k].boxes;
    hide Next, Outstanding, Paired, Zip;
    SameLane(Outstanding(s, k), s.lanes[k], Next(s, Post(p)).lanes[k]);
  }

  lemma PushRefines<M>(s: State<M>, p: Kind, n: nat, m: M, k: Kind)
    requires s.Shaped() && Enabled(s, Push(p, n, m)) && Paired(s.lanes[k], Outstanding(s, k))
    ensures Paired(Next(s, Push(p, n, m)).lanes[k], Outstanding(Next(s, Push(p, n, m)), k))
    ensures Abs(s, k) + Pushes(Push(p, n, m), k) == Handles(s, Push(p, n, m), k) + Abs(Next(s, Push(p, n, m)), k)
  {
    if p == k {
      var t := Next(s, Push(p, n, m));
      var grown := Grown(s.lanes[k], n, m);
      PushGrows(s, n, m, k);
      hide Next, Outstanding, Paired;
      ZipPush(Outstanding(s, k), s.lanes[k], n, m);
      PairedPush(Outstanding(s, k), s.lanes[k], n, m);
      SameLane(Outstanding(t, k), grown, t.lanes[k]);
    }
  }

  lemma PushGrows<M>(s: State<M>, n: nat, m: M, k: Kind)
    requires s.Shaped() && Enabled(s, Push(k, n, m))
    ensures var t := Next(s, Push(k, n, m));
            t.lanes[k].boxes == Grown(s.lanes[k], n, m).boxes && Outstanding(t, k) == Outstanding(s, k) + [n]
  {
    hide Nodes;
  }

  lemma SameLane<M>(nodes: seq<nat>, a: Lane<M>, b: Lane<M>)
    requires a.boxes == b.boxes && Paired(a, nodes)
    ensures Paired(b, nodes) && Zip(nodes, a) == Zip(nodes, b)
  {
    forall n: nat ensures a.Box(n) == b.Box(n) {
    }
    ZipSameBoxes(nodes, a, b);
  }

  lemma FinishRefines<M>(s: State<M>, c: Channel, k: Kind)
    requires s.Shaped() && Enabled(s, Finish(c)) && HandFresh(s, c) && Paired(s.lanes[k], Outstanding(s, k))
    ensures Paired(Next(s, Finish(c)).lanes[k], Outstanding(Next(s, Finish(c)), k))
    ensures Abs(s, k) + Pushes(Finish(c), k) == Handles(s, Finish(c), k) + Abs(Next(s, Finish(c)), k)
  {
    var e := s.lines[c].hand.value.event;
    var t := Next(s, Finish(c));
    hide *;
    FinishPopsOutstanding(s, c, k);
    FinishHandles(s, c, k);
    AbsIsZip(s, k);
    AbsIsZip(t, k);
    WithNothing(Abs(s, k));
    WithNothing(Abs(t, k));
    if e.Message? && e.kind == k {
      PopRefines(Outstanding(s, k), Outstanding(t, k), s.lanes[k], e.node);
    }
  }

  lemma AbsIsZip<M>(s: State<M>, k: Kind)
    requires s.Shaped()
    ensures Abs(s, k) == Zip(Outstanding(s, k), s.lanes[k])
  {
  }

  lemma FinishHandles<M>(s: State<M>, c: Channel, k: Kind)
    requires s.Shaped() && Enabled(s, Finish(c)) && HandFresh(s, c)
    ensures var e := s.lines[c].hand.value.event;
            Handles(s, Finish(c), k) == if e.Message? && e.kind == k then [(e.node,
                  Front(s.lanes[k].Box(e.node)))] else []
    ensures var none: seq<(nat, Option<M>)> := Pushes(Finish(c), k); none == []
  {
    HandReads(s, c);
  }

  lemma HandReads<M>(s: State<M>, c: Channel)
    requires s.Shaped() && s.lines[c].hand.Some? && HandFresh(s, c)
    ensures var hand := s.lines[c].hand.value;
            hand.event.Message? ==> hand.message == Front(s.lanes[hand.event.kind].Box(hand.event.node))
  {
  }

  lemma PopRefines<M>(nodes: seq<nat>, nodes': seq<nat>, lane: Lane<M>, n: nat)
    requires nodes == [n] + nodes' && Paired(lane, nodes)
    ensures Paired(Popped(lane, n), nodes')
    ensures Zip(nodes, lane) == [(n, Front(lane.Box(n)))] + Zip(nodes', Popped(lane, n))
  {
    PairedTail(nodes, lane);
    assert nodes[1..] == nodes';
  }

  /** The message at the front of a box with an event in hand outlives every step
      but the one that finishes the event. */
  lemma StepKeepsHands<M>(s: State<M>, step: Step<M>, c: Channel)
    requires s.Shaped() && Enabled(s, step) && HandFresh(s, c)
    requires step.Take? ==> QueFits(s.lines[step.channel].que, step.channel)
    requires step.Finish? ==> HandFresh(s, step.channel)
    requires s.lines[c].hand.Some? ==> s.lines[c].hand.value.event.Other? || s.lines[c].hand.value.message.Some?
    ensures HandFresh(Next(s, step), c)
  {
    hide Paired, Zip, Nodes;
    var hand := s.lines[c].hand;
    var t := Next(s, step);
    match step {
      case Push(p, n, m) =>
        assert t.lines == s.lines;
        if hand.Some? && hand.value.event.Message? {
          assert Front(s.lanes[p].Box(n) + [m]) == Front(s.lanes[p].Box(n)) || s.lanes[p].Box(n) == [];
        }
      case Post(p) =>
        assert t.lines[c].hand == hand;
      case PostOther(_) =>
        assert t.lines[c].hand == hand;
      case Take(d) =>
        if c != d {
          assert t.lines[c].hand == hand;
        }
      case Finish(d) =>
        if c != d {
          assert t.lines[c].hand == hand;
        }
    }
  }

  /** The message in hand is there. */
  lemma HandNonempty<M>(s: State<M>, c: Channel)
    requires Invariant(s) && s.lines[c].hand.Some? && s.lines[c].hand.value.event.Message?
    ensures s.lines[c].hand.value.message.Some?
  {
    var e := s.lines[c].hand.value.event;
    assert HandFresh(s, c);
    assert Paired(s.lanes[e.kind], Outstanding(s, e.kind));
    hide Invariant;
    NodesOne(e.kind, e);
    assert Outstanding(s, e.kind)[0] == e.node;
    PairedTail(Outstanding(s, e.kind), s.lanes[e.kind]);
  }

  lemma StepKeepsQue<M>(s: State<M>, step: Step<M>, c: Channel)
    requires s.Shaped() && Enabled(s, step) && QueFits(s.lines[c].que, c)
    ensures QueFits(Next(s, step).lines[c].que, c)
  {
  }

  lemma StepKeepsInvariant<M>(s: State<M>, step: Step<M>)
    requires Invariant(s) && Enabled(s, step)
    ensures Invariant(Next(s, step))
  {
    var t := Next(s, step);
    forall k: Kind ensures Paired(t.lanes[k], Outstanding(t, k)) {
      StepRefines(s, step, k);
    }
    forall c: Channel ensures HandFresh(t, c) && QueFits(t.lines[c].que, c) {
      assert HandFresh(s, c) && QueFits(s.lines[c].que, c);
      if s.lines[c].hand.Some? && s.lines[c].hand.value.event.Message? {
        HandNonempty(s, c);
      }
      hide Paired, Next, HandFresh, QueFits;
      StepKeepsHands(s, step, c);
      StepKeepsQue(s, step, c);
    }
    hide Paired, Next, HandFresh, QueFits;
  }

  // ----- whole runs

  ghost predicate Possible<M>(s: State<M>, run: seq<Step<M>>)
    requires s.Shaped()
    decreases |run|
  {
    run == [] || (Enabled(s, run[0]) && Possible(Next(s, run[0]), run[1..]))
  }

  ghost function Final<M>(s: State<M>, run: seq<Step<M>>): (t: State<M>)
    requires s.Shaped() && Possible(s, run)
    ensures t.Shaped()
    decreases |run|
  {
    if run == [] then s else Final(Next(s, run[0]), run[1..])
  }

  /** The messages of kind `k` handed on in a run, with their nodes. */
  function Pushed<M>(run: seq<Step<M>>, k: Kind): seq<(nat, Option<M>)> {
    if run == [] then [] else Pushes(run[0], k) + Pushed(run[1..], k)
  }

  /** The messages of kind `k` that consumers worked on. */
  ghost function Handled<M>(s: State<M>, run: seq<Step<M>>, k: Kind): seq<(nat, Option<M>)>
    requires s.Shaped() && Possible(s, run)
    decreases |run|
  {
    if run == [] then [] else Handles(s, run[0], k) + Handled(Next(s, run[0]), run[1..], k)
  }

  lemma {:induction false} RunRefines<M>(s: State<M>, run: seq<Step<M>>, k: Kind)
    requires Invariant(s) && Possible(s, run)
    ensures Invariant(Final(s, run))
    ensures Abs(s, k) + Pushed(run, k) == Handled(s, run, k) + Abs(Final(s, run), k)
    decreases |run|
  {
    if run == [] {
    } else {
      StepKeepsInvariant(s, run[0]);
      StepRefines(s, run[0], k);
      RunRefines(Next(s, run[0]), run[1..], k);
      InOut(Abs(s, k), Pushes(run[0], k), Handles(s, run[0], k), Abs(Next(s, run[0]), k), Pushed(run[1..], k),
            Handled(Next(s, run[0]), run[1..], k), Abs(Final(s, run), k));
    }
  }

  lemma EmptyIsPaired<M>(k: Kind)
    ensures Invariant(Empty<M>()) && Abs(Empty<M>(), k) == []
  {
    var s: State<M> := Empty();
    hide Empty;
    forall k: Kind ensures Outstanding(s, k) == [] && Paired(s.lanes[k], []) {
    }
    forall c: Channel ensures HandFresh(s, c) && QueFits(s.lines[c].que, c) {
    }
    hide Paired, HandFresh, QueFits, Outstanding;
  }

  lemma {:induction false} PushedAreThere<M>(run: seq<Step<M>>, k: Kind)
    ensures forall i :: 0 <= i < |Pushed(run, k)| ==> Pushed(run, k)[i].1.Some?
  {
    if run == [] {
    } else {
      PushedAreThere(run[1..], k);
    }
  }

  /** In every run from the start and for each kind of message, the consumers
      handle the (client, message) pairs in the order in which they were handed
      on, each once; the rest is still outstanding, and no consumer ever sees a
      null front. */
  lemma OneFifoOfPairs<M>(run: seq<Step<M>>, k: Kind)
    requires Possible(Empty(), run)
    ensures Pushed(run, k) == Handled(Empty(), run, k) + Abs(Final(Empty(), run), k)
    ensures forall i :: 0 <= i < |Handled(Empty(), run, k)| ==> Handled(Empty(), run, k)[i].1.Some?
  {
    EmptyIsPaired<M>(k);
    RunRefines(Empty<M>(), run, k);
    PushedAreThere(run, k);
    WithNothing(Pushed(run, k));
    hide *;
    FirstAreThere(Pushed(run, k), Handled(Empty(), run, k), Abs(Final(Empty(), run), k));
  }

  lemma FirstAreThere<M>(pushed: seq<(nat, Option<M>)>, handled: seq<(nat, Option<M>)>, rest: seq<(nat, Option<M>)>)
    requires pushed == handled + rest && forall i :: 0 <= i < |pushed| ==> pushed[i].1.Some?
    ensures forall i :: 0 <= i < |handled| ==> handled[i].1.Some?
  {
    assert forall i :: 0 <= i < |handled| ==> handled[i] == pushed[i];
  }

  /** The messages of one client. */
  function Of<M>(node: nat, s: seq<(nat, Option<M>)>): seq<Option<M>> {
    if s == [] then [] else One(node, s[0]) + Of(node, s[1..])
  }

  function One<M>(node: nat, p: (nat, Option<M>)): seq<Option<M>> {
    if p.0 == node then [p.1] else []
  }

  lemma {:induction false} OfConcat<M>(node: nat, a: seq<(nat, Option<M>)>, b: seq<(nat, Option<M>)>)
    ensures Of(node, a + b) == Of(node, a) + Of(node, b)
  {
    if a == [] {
      assert a + b == b;
    } else {
      TailOfConcat(a, b);
      OfConcat(node, a[1..], b);
      Assoc(One(node, a[0]), Of(node, a[1..]), Of(node, b));
    }
  }

  function Wrap<M>(s: seq<M>): seq<Option<M>> {
    if s == [] then [] else [Some(s[0])] + Wrap(s[1..])
  }

  lemma {:induction false} AbsOfNode<M>(nodes: seq<nat>, lane: Lane<M>, n: nat)
    requires Paired(lane, nodes)
    ensures Of(n, Zip(nodes, lane)) == Wrap(lane.Box(n))
    decreases |nodes|
  {
    if nodes == [] {
      assert multiset(nodes)[n] == 0;
    } else {
      PairedTail(nodes, lane);
      AbsOfNode(nodes[1..], Popped(lane, nodes[0]), n);
    }
  }

  /** Client by client: what has not been handled is what waits in the client's
      own message queue. */
  lemma NothingLostPerClient<M>(run: seq<Step<M>>, k: Kind, n: nat)
    requires Possible(Empty(), run)
    ensures Of(n, Pushed(run, k)) == Of(n, Handled(Empty(), run, k)) + Wrap(Final(Empty(), run).lanes[k].Box(n))
  {
    var t := Final(Empty<M>(), run);
    OneFifoOfPairs(run, k);
    RunRefines(Empty<M>(), run, k);
    assert Paired(t.lanes[k], Outstanding(t, k));
    AbsOfNode(Outstanding(t, k), t.lanes[k], n);
    OfConcat(n, Handled(Empty(), run, k), Abs(t, k));
  }

  /** The message queue of a client. */
  class MessageQue<M(0)> {
    var que: seq<M>

    constructor ()
      ensures que == []
    {
      que := [];
    }

    method GetMessage() returns (msg: Option<M>)
      ensures msg == Front(que)
    {
      if que != [] {
        msg := Some(que[0]);
      } else {
        msg := None;
      }
    }

    method Push(msg: M)
      modifies this
      ensures que == old(que) + [msg]
    {
      que := que + [msg];
    }

    method Pop()
      modifies this
      ensures que == Rest(old(que))
    {
      if que != [] {
        que := que[1..];
      }
    }

    method Clear()
      modifies this
      ensures que == []
    {
      while que != []
        decreases |que|
      {
        que := que[1..];
      }
    }
  }
}
