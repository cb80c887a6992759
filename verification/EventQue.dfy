/** The event queue: a locked FIFO, and a semaphore that post() raises only when
    it reads 0. The steps of any number of tasks interleave freely. */
module EventQue {
  import opened Sequences
  import opened Wrappers

  /** post() behind its push: before sem_getvalue, or with the value it read. */
  datatype Posting = Pushed | Saw(value: nat)

  /** `posting` holds the tasks inside post(), `holding` those that came out of
      sem_wait and have not popped yet. */
  datatype State<T> = State(que: seq<T>, sem: nat, posting: map<nat, Posting>, holding: set<nat>)

  datatype Step<T> =
    | Push(task: nat, event: T)
    | GetValue(task: nat)
    | Post(task: nat)
    | Token(task: nat)
    | Pop(task: nat)
    | TimedPop(task: nat)

  function Empty<T>(): State<T> {
    State([], 0, map[], {})
  }

  /** When a task can take a step. A front that is not there is not a guard:
      wait() does not test for it. */
  predicate Enabled<T>(s: State<T>, step: Step<T>) {
    match step
    case Push(p, _) => p !in s.posting
    case GetValue(p) => p in s.posting && s.posting[p].Pushed?
    case Post(p) => p in s.posting && s.posting[p].Saw?
    case Token(c) => c !in s.holding && s.sem > 0
    case Pop(c) => c in s.holding
    case TimedPop(_) => true
  }

  function Next<T>(s: State<T>, step: Step<T>): State<T>
    requires Enabled(s, step)
  {
    match step
    case Push(p, e) => s.(que := s.que + [e], posting := s.posting[p := Pushed])
    case GetValue(p) => s.(posting := s.posting[p := Saw(s.sem)])
    case Post(p) => s.(sem := if s.posting[p].value <= 0 then s.sem + 1 else s.sem, posting := s.posting - {p})
    case Token(c) => s.(sem := s.sem - 1, holding := s.holding + {c})
    case Pop(c) => s.(que := if s.que == [] then [] else s.que[1..], holding := s.holding - {c})
    case TimedPop(c) => s.(que := if s.que == [] then [] else s.que[1..], holding := s.holding - {c})
  }

  predicate Possible<T>(s: State<T>, run: seq<Step<T>>)
    decreases |run|
  {
    run == [] || (Enabled(s, run[0]) && Possible(Next(s, run[0]), run[1..]))
  }

  function Final<T>(s: State<T>, run: seq<Step<T>>): State<T>
    requires Possible(s, run)
    decreases |run|
  {
    if run == [] then s else Final(Next(s, run[0]), run[1..])
  }

  /** The events that post() was called with, in the order of the pushes. */
  function PushedBy<T>(run: seq<Step<T>>): seq<T> {
    if run == [] then []
    else Put(run[0]) + PushedBy(run[1..])
  }

  function Put<T>(step: Step<T>): seq<T> {
    if step.Push? then [step.event] else []
  }

  /** What the consumers got: an event, or None where the queue was empty. */
  function Popped<T>(s: State<T>, run: seq<Step<T>>): seq<Option<T>>
    requires Possible(s, run)
    decreases |run|
  {
    if run == [] then []
    else
      Taken(s, run[0]) + Popped(Next(s, run[0]), run[1..])
  }

  function Taken<T>(s: State<T>, step: Step<T>): seq<Option<T>> {
    if !step.Pop? && !step.TimedPop? then [] else if s.que == [] then [None] else [Some(s.que[0])]
  }

  /** Without the Nones: the timeouts of timedwait(). */
  function Events<T>(s: seq<Option<T>>): seq<T> {
    if s == [] then [] else Event(s[0]) + Events(s[1..])
  }

  function Event<T>(got: Option<T>): seq<T> {
    if got.Some? then [got.value] else []
  }

  /** The calls of post() that left the semaphore alone. */
  function Skipped<T>(s: State<T>, run: seq<Step<T>>): nat
    requires Possible(s, run)
    decreases |run|
  {
    if run == [] then 0
    else
      (if run[0].Post? && s.posting[run[0].task].value > 0 then 1 else 0) + Skipped(Next(s, run[0]), run[1..])
  }

  lemma {:induction false} EventsConcat<T>(a: seq<Option<T>>, b: seq<Option<T>>)
    ensures Events(a + b) == Events(a) + Events(b)
  {
    if a == [] {
      assert a + b == b;
    } else {
      TailOfConcat(a, b);
      EventsConcat(a[1..], b);
      Assoc(Event(a[0]), Events(a[1..]), Events(b));
    }
  }

  /** In every run, whatever mixture of wait() and timedwait() consumes it, the
      events leave in the order of the pushes, none lost and none twice. */
  lemma {:induction false} LeaveInPushOrder<T>(s: State<T>, run: seq<Step<T>>)
    requires Possible(s, run)
    ensures s.que + PushedBy(run) == Events(Popped(s, run)) + Final(s, run).que
    decreases |run|
  {
    if run == [] {
    } else {
      var t := Next(s, run[0]);
      LeaveInPushOrder(t, run[1..]);
      StepMovesOne(s, run[0]);
      EventsConcat(Taken(s, run[0]), Popped(t, run[1..]));
      InOut(s.que, Put(run[0]), Events(Taken(s, run[0])), t.que, PushedBy(run[1..]), Events(Popped(t, run[1..])),
            Final(t, run[1..]).que);
    }
  }

  lemma StepMovesOne<T>(s: State<T>, step: Step<T>)
    requires Enabled(s, step)
    ensures s.que + Put(step) == Events(Taken(s, step)) + Next(s, step).que
  {
    if step.Pop? || step.TimedPop? {
      assert Taken(s, step)[1..] == [];
    }
  }

  /** What the semaphore, the consumers that hold a token, and the producers
      inside post() account for. */
  function Accounted<T>(s: State<T>): nat {
    s.sem + |s.holding| + |s.posting|
  }

  lemma RemoveKey(m: map<nat, Posting>, p: nat)
    requires p in m
    ensures |m - {p}| == |m| - 1
  {
    assert (m - {p}).Keys == m.Keys - {p};
    assert |m.Keys| == |m|;
    assert |(m - {p}).Keys| == |m - {p}|;
  }

  lemma AddKey(m: map<nat, Posting>, p: nat, v: Posting)
    ensures |m[p := v]| == if p in m then |m| else |m| + 1
  {
    assert m[p := v].Keys == m.Keys + {p};
    assert |m.Keys| == |m|;
    assert |m[p := v].Keys| == |m[p := v]|;
  }

  /** One step under wait(), `skipped` tokens short. */
  lemma StepKeepsAccount<T>(s: State<T>, step: Step<T>, skipped: nat)
    requires Enabled(s, step) && !step.TimedPop? && |s.que| == Accounted(s) + skipped
    ensures var more := if step.Post? && s.posting[step.task].value > 0 then 1 else 0;
            |Next(s, step).que| == Accounted(Next(s, step)) + skipped + more
  {
    match step {
      case Push(p, _) => AddKey(s.posting, p, Pushed);
      case GetValue(p) => AddKey(s.posting, p, Saw(s.sem));
      case Post(p) => RemoveKey(s.posting, p);
      case Token(c) =>
      case Pop(c) => assert |s.holding - {c}| == |s.holding| - 1;
    }
  }

  predicate OnlyWait<T>(run: seq<Step<T>>) {
    forall i :: 0 <= i < |run| ==> !run[i].TimedPop?
  }

  /** In every run of producers and wait() consumers, the queue holds exactly one
      event for each token, taken token and unfinished post(), and one more for
      each post() that skipped the semaphore. */
  lemma {:induction false} QueueIsAccounted<T>(s: State<T>, run: seq<Step<T>>, skipped: nat)
    requires Possible(s, run) && OnlyWait(run) && |s.que| == Accounted(s) + skipped
    ensures |Final(s, run).que| == Accounted(Final(s, run)) + skipped + Skipped(s, run)
    decreases |run|
  {
    if run == [] {
    } else {
      var more := if run[0].Post? && s.posting[run[0].task].value > 0 then 1 else 0;
      StepKeepsAccount(s, run[0], skipped);
      QueueIsAccounted(Next(s, run[0]), run[1..], skipped + more);
    }
  }

  /** So wait() never reads the front of an empty queue: every consumer that
      holds a token finds an event. */
  lemma WaitFindsAnEvent<T>(run: seq<Step<T>>, c: nat)
    requires Possible(Empty(), run) && OnlyWait(run) && c in Final(Empty(), run).holding
    ensures Final(Empty(), run).que != []
  {
    QueueIsAccounted(Empty(), run, 0);
    assert |Final(Empty(), run).holding| > 0;
  }

  /** wait() sleeps on a queue that is not empty, with nobody left to wake it. */
  predicate Stranded<T>(s: State<T>) {
    s.que != [] && s.sem == 0 && s.holding == {} && s.posting == map[]
  }

  /** A run that is over, all calls of post() complete and no token taken, leaves
      events stranded exactly if the semaphore reads 0 and some post() skipped it. */
  lemma StrandedExactly<T>(run: seq<Step<T>>)
    requires Possible(Empty(), run) && OnlyWait(run)
    requires Final(Empty(), run).posting == map[] && Final(Empty(), run).holding == {}
    ensures Stranded(Final(Empty(), run)) <==> Final(Empty(), run).sem == 0 && Skipped(Empty(), run) > 0
  {
    QueueIsAccounted(Empty(), run, 0);
  }

  /** Three steps of one task, without another in between. */
  function PostAlone<T>(p: nat, e: T): seq<Step<T>> {
    [Push(p, e), GetValue(p), Post(p)]
  }

  lemma PostAloneDoes<T>(s: State<T>, p: nat, e: T)
    requires p !in s.posting
    ensures Possible(s, PostAlone(p, e))
    ensures Final(s, PostAlone(p, e)) == s.(que := s.que + [e], sem := if s.sem == 0 then 1 else s.sem)
  {
    var s1 := Next(s, Push(p, e));
    var s2 := Next(s1, GetValue(p));
    assert s2.posting - {p} == s.posting;
    Alone(s2, Post(p));
    Alone(s1, GetValue(p));
    FinalConcat(s1, [GetValue(p)], [Post(p)]);
    Alone(s, Push(p, e));
    FinalConcat(s, [Push(p, e)], [GetValue(p)] + [Post(p)]);
    assert PostAlone(p, e) == [Push(p, e)] + ([GetValue(p)] + [Post(p)]);
  }

  lemma Alone<T>(s: State<T>, step: Step<T>)
    requires Enabled(s, step)
    ensures Possible(s, [step]) && Final(s, [step]) == Next(s, step)
  {
    assert [step][1..] == [];
  }

  /** timedwait() without another task in between takes a token if there is one, and the
      oldest event with or without it. */
  lemma TimedwaitAloneDoes<T>(s: State<T>, c: nat)
    requires c !in s.holding
    ensures var alone := if s.sem > 0 then [Token(c), TimedPop(c)] else [TimedPop(c)];
            Possible(s, alone)
            && Final(s, alone) == s.(que := if s.que == [] then [] else s.que[1..],
                                     sem := if s.sem > 0 then s.sem - 1 else 0)
  {
    if s.sem > 0 {
      var s1 := Next(s, Token(c));
      assert s1.holding - {c} == s.holding;
      Alone(s1, TimedPop(c));
      Alone(s, Token(c));
      FinalConcat(s, [Token(c)], [TimedPop(c)]);
      var token: Step<T>, pop: Step<T> := Token(c), TimedPop(c);
      assert [token] + [pop] == [token, pop];
    } else {
      assert s.holding - {c} == s.holding;
      Alone(s, TimedPop(c));
    }
  }

  /** Two posts before the consumer looks, and one event stays behind. */
  lemma TwoPostsOneToken()
    ensures exists run: seq<Step<int>> :: Possible(Empty(), run) && OnlyWait(run) && Stranded(Final(Empty(), run))
  {
    var s0: State<int> := Empty();
    PostAloneDoes(s0, 1, 10);
    var s1 := Final(s0, PostAlone(1, 10));
    PostAloneDoes(s1, 2, 20);
    var s2 := Final(s1, PostAlone(2, 20));
    var rest: seq<Step<int>> := [Token(0), Pop(0)];
    assert rest[1..] == [Pop(0)];
    assert Final(s2, rest) == State([20], 0, map[], {});
    FinalConcat(s1, PostAlone(2, 20), rest);
    FinalConcat(s0, PostAlone(1, 10), PostAlone(2, 20) + rest);
    assert Stranded(Final(s0, PostAlone(1, 10) + (PostAlone(2, 20) + rest)));
  }

  lemma {:induction false} FinalConcat<T>(s: State<T>, a: seq<Step<T>>, b: seq<Step<T>>)
    requires Possible(s, a) && Possible(Final(s, a), b)
    ensures Possible(s, a + b) && Final(s, a + b) == Final(Final(s, a), b)
    decreases |a|
  {
    if a == [] {
      assert a + b == b;
    } else {
      assert (a + b)[1..] == a[1..] + b;
      FinalConcat(Next(s, a[0]), a[1..], b);
    }
  }

  /** A stranded event does not stay for ever: the next post() raises the semaphore. */
  lemma NextPostWakes<T>(s: State<T>, p: nat, e: T)
    requires Stranded(s)
    ensures Possible(s, PostAlone(p, e)) && Enabled(Final(s, PostAlone(p, e)), Token(p))
    ensures s.que <= Final(s, PostAlone(p, e)).que
  {
    PostAloneDoes(s, p, e);
  }

  /** The queue as one task sees it when nobody interrupts its call. */
  class EventQue<T(0)> {
    var que: seq<T>
    var sem: nat

    constructor ()
      ensures Now() == Empty()
    {
      que, sem := [], 0;
    }

    ghost function Now(): State<T>
      reads this
    {
      State(que, sem, map[], {})
    }

    method Post(ev: T)
      modifies this
      ensures Possible(old(Now()), PostAlone(0, ev)) && Now() == Final(old(Now()), PostAlone(0, ev))
    {
      PostAloneDoes(Now(), 0, ev);
      que := que + [ev];
      var val := sem;
      if val <= 0 {
        sem := sem + 1;
      }
    }

    /** Returns once the semaphore can be taken. */
    method Wait() returns (ev: T)
      requires sem > 0 && que != []
      modifies this
      ensures Possible(old(Now()), [Token(0), Pop(0)]) && Now() == Final(old(Now()), [Token(0), Pop(0)])
      ensures Popped(old(Now()), [Token(0), Pop(0)]) == [Some(ev)]
    {
      ghost var run: seq<Step<T>> := [Token(0), Pop(0)];
      assert run[1..] == [Pop(0)];
      sem := sem - 1;
      ev := que[0];
      que := que[1..];
    }

    /** `None` is the timeout event. `up` says whether the time ran out before the
        semaphore could be taken. */
    method Timedwait(up: bool) returns (ev: Option<T>)
      requires up || sem > 0
      modifies this
      ensures sem == old(sem) - (if up then 0 else 1)
      ensures ev.None? <==> old(que) == []
      ensures old(que) == (if ev.Some? then [ev.value] else []) + que
    {
      if !up {
        sem := sem - 1;
      }
      if que == [] {
        ev := None;
      } else {
        ev := Some(que[0]);
        que := que[1..];
      }
    }

    method Size() returns (n: nat)
      ensures n == |que|
    {
      n := |que|;
    }
  }
}
