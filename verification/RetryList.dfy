/** The list of requests that await an answer: the client's SUBSCRIBEs and
    UNSUBSCRIBEs in one list, its REGISTERs in another, both with one retry policy. */
module RetryList {
  import opened Bytes
  import opened Sequences
  import opened Wrappers

  const MQTTSN_RETRY_COUNT := 3
  const MQTTSN_TIME_RETRY := 10

  datatype Request =
    | Subscribe(topicName: Str, topicId: U16, topicType: Byte, qos: Byte)
    | Unsubscribe(topicName: Str, topicId: U16, topicType: Byte)
    | Register(topicName: Str)

  datatype Element = Element(msgId: U16, request: Request, sendUTC: nat, retryCount: int)

  /** A request that goes out, with its DUP flag. */
  datatype Out = Out(msgId: U16, request: Request, dup: bool)

  function Fresh(msgId: U16, request: Request): Element {
    Element(msgId, request, 0, MQTTSN_RETRY_COUNT)
  }

  /** Only a SUBSCRIBE is marked as a duplicate. */
  function Sending(e: Element): Out {
    Out(e.msgId, e.request, e.retryCount < MQTTSN_RETRY_COUNT && e.request.Subscribe?)
  }

  function SentAt(e: Element, now: nat): Element {
    e.(sendUTC := now, retryCount := e.retryCount - 1)
  }

  predicate Expired(e: Element, now: nat) {
    e.sendUTC + MQTTSN_TIME_RETRY < now
  }

  /** The walk of checkTimeout from element `i` on: an expired element is sent again,
      or removed if its retries are used up. Removing the first or the last
      element ends the walk. */
  function Walk(list: seq<Element>, i: nat, now: nat): seq<Element>
    decreases |list| - i
  {
    if i >= |list| then list
    else if !Expired(list[i], now) then Walk(list, i + 1, now)
    else if list[i].retryCount >= 0 then Walk(list[i := SentAt(list[i], now)], i + 1, now)
    else if i == |list| - 1 || i == 0 then Without(list, i)
    else Walk(Without(list, i), i, now)
  }

  function WalkOut(list: seq<Element>, i: nat, now: nat): seq<Out>
    decreases |list| - i
  {
    if i >= |list| then []
    else if !Expired(list[i], now) then WalkOut(list, i + 1, now)
    else if list[i].retryCount >= 0 then [Sending(list[i])] + WalkOut(list[i := SentAt(list[i], now)], i + 1, now)
    else if i == |list| - 1 || i == 0 then []
    else WalkOut(Without(list, i), i, now)
  }

  function ById(list: seq<Element>, msgId: U16): Option<nat> {
    if list == [] then None
    else if list[0].msgId == msgId then Some(0)
    else var r := ById(list[1..], msgId); if r.Some? then Some(r.value + 1) else None
  }

  lemma {:induction false} ByIdFinds(list: seq<Element>, msgId: U16)
    ensures var r := ById(list, msgId);
            if r.Some? then r.value < |list| && list[r.value].msgId == msgId
            else forall k :: 0 <= k < |list| ==> list[k].msgId != msgId
  {
    if list == [] || list[0].msgId == msgId {
    } else {
      ByIdFinds(list[1..], msgId);
      assert forall k :: 1 <= k < |list| ==> list[k] == list[1..][k - 1];
    }
  }

  // ----- a time-out pass always makes progress

  predicate Sane(list: seq<Element>) {
    forall k :: 0 <= k < |list| ==> -1 <= list[k].retryCount <= MQTTSN_RETRY_COUNT
  }

  function Budget(list: seq<Element>): int {
    if list == [] then 0 else list[0].retryCount + 2 + Budget(list[1..])
  }

  lemma {:induction false} BudgetConcat(a: seq<Element>, b: seq<Element>)
    ensures Budget(a + b) == Budget(a) + Budget(b)
  {
    if a == [] {
      assert a + b == b;
    } else {
      assert (a + b)[1..] == a[1..] + b;
      BudgetConcat(a[1..], b);
    }
  }

  lemma BudgetAt(list: seq<Element>, i: nat, e: Element)
    requires i < |list|
    ensures Budget(list[i := e]) == Budget(list) + e.retryCount - list[i].retryCount
    ensures Budget(Without(list, i)) == Budget(list) - list[i].retryCount - 2
  {
    assert list == list[..i] + ([list[i]] + list[i + 1..]);
    assert list[i := e] == list[..i] + ([e] + list[i + 1..]);
    BudgetConcat(list[..i], [list[i]] + list[i + 1..]);
    BudgetConcat(list[..i], [e] + list[i + 1..]);
    BudgetConcat([list[i]], list[i + 1..]);
    BudgetConcat([e], list[i + 1..]);
    BudgetConcat(list[..i], list[i + 1..]);
    assert [e][1..] == [] && [list[i]][1..] == [];
  }

  lemma SaneAfter(list: seq<Element>, i: nat, now: nat)
    requires Sane(list) && i < |list|
    ensures Sane(Without(list, i))
    ensures list[i].retryCount >= 0 ==> Sane(list[i := SentAt(list[i], now)])
  {
    forall k | 0 <= k < |list| - 1 ensures -1 <= Without(list, i)[k].retryCount <= MQTTSN_RETRY_COUNT {
      assert Without(list, i)[k] == if k < i then list[k] else list[k + 1];
    }
  }

  predicate SomeExpired(list: seq<Element>, i: nat, now: nat) {
    exists k :: i <= k < |list| && Expired(list[k], now)
  }

  /** A pass that meets an expired element strictly lowers the sum of retryCount + 2,
      and a pass that meets none changes nothing. */
  lemma {:induction false} WalkProgress(list: seq<Element>, i: nat, now: nat)
    requires Sane(list)
    ensures Sane(Walk(list, i, now)) && Budget(Walk(list, i, now)) <= Budget(list)
    ensures SomeExpired(list, i, now) ==> Budget(Walk(list, i, now)) < Budget(list)
    ensures !SomeExpired(list, i, now) ==> Walk(list, i, now) == list
    decreases |list| - i
  {
    if i < |list| {
      var e := list[i];
      BudgetAt(list, i, SentAt(e, now));
      SaneAfter(list, i, now);
      if !Expired(e, now) {
        WalkProgress(list, i + 1, now);
        assert SomeExpired(list, i, now) <==> SomeExpired(list, i + 1, now);
      } else if e.retryCount >= 0 {
        WalkProgress(list[i := SentAt(e, now)], i + 1, now);
        assert SomeExpired(list, i, now);
      } else {
        assert SomeExpired(list, i, now);
        if i != |list| - 1 && i != 0 {
          WalkProgress(Without(list, i), i, now);
        }
      }
    }
  }

  /** Passes at the given times, one after the other. */
  function Passes(list: seq<Element>, times: seq<nat>): seq<Element>
    decreases |times|
  {
    if times == [] then list else Passes(Walk(list, 0, times[0]), times[1..])
  }

  /** Each time is more than ten seconds after the one before. */
  predicate Spaced(last: nat, times: seq<nat>)
    decreases |times|
  {
    times == [] || (times[0] > last + MQTTSN_TIME_RETRY && Spaced(times[0], times[1..]))
  }

  predicate AllBefore(list: seq<Element>, time: nat) {
    forall k :: 0 <= k < |list| ==> list[k].sendUTC <= time
  }

  lemma {:induction false} WalkTimes(list: seq<Element>, i: nat, now: nat)
    requires AllBefore(list, now)
    ensures AllBefore(Walk(list, i, now), now)
    decreases |list| - i
  {
    if i < |list| {
      if !Expired(list[i], now) {
        WalkTimes(list, i + 1, now);
      } else if list[i].retryCount >= 0 {
        WalkTimes(list[i := SentAt(list[i], now)], i + 1, now);
      } else if i != |list| - 1 && i != 0 {
        WalkTimes(Without(list, i), i, now);
      }
    }
  }

  lemma {:induction false} BudgetCovers(list: seq<Element>)
    requires Sane(list)
    ensures Budget(list) >= |list|
  {
    if list == [] {
    } else {
      assert forall k :: 0 <= k < |list[1..]| ==> list[1..][k] == list[k + 1];
      BudgetCovers(list[1..]);
    }
  }

  /** Without new requests and answers the list is empty after as many time-outs as
      its budget says, each more than ten seconds after the one before. */
  lemma {:induction false} ListEmpties(list: seq<Element>, last: nat, times: seq<nat>)
    requires Sane(list) && AllBefore(list, last)
    requires Spaced(last, times) && |times| >= Budget(list)
    ensures Passes(list, times) == []
    decreases |times|
  {
    BudgetCovers(list);
    if times == [] {
    } else {
      var now := times[0];
      WalkProgress(list, 0, now);
      WalkTimes(list, 0, now);
      if list != [] {
        assert Expired(list[0], now);
        assert SomeExpired(list, 0, now);
      }
      BudgetCovers(Walk(list, 0, now));
      ListEmpties(Walk(list, 0, now), now, times[1..]);
    }
  }

  // ----- no request goes out more than four times

  predicate HasId(list: seq<Element>, msgId: U16) {
    exists k :: 0 <= k < |list| && list[k].msgId == msgId
  }

  predicate UniqueIds(list: seq<Element>) {
    forall i, j :: 0 <= i < j < |list| ==> list[i].msgId != list[j].msgId
  }

  function Count(outs: seq<Out>, msgId: U16): nat {
    if outs == [] then 0 else (if outs[0].msgId == msgId then 1 else 0) + Count(outs[1..], msgId)
  }

  /** The element with this id has used up `n` more copies. */
  predicate Used(list: seq<Element>, msgId: U16, retryCount: int) {
    exists k :: 0 <= k < |list| && list[k].msgId == msgId && list[k].retryCount == retryCount
  }

  lemma WithoutOne(list: seq<Element>, i: nat, k: nat)
    requires UniqueIds(list) && i < |list| && k < |list|
    ensures UniqueIds(Without(list, i))
    ensures k != i ==> var j := if k < i then k else k - 1; Without(list, i)[j] == list[k]
    ensures k == i ==> !HasId(Without(list, i), list[i].msgId)
  {
    forall m | 0 <= m < |list| - 1 ensures Without(list, i)[m] == if m < i then list[m] else list[m + 1] {
    }
  }

  /** A pass has sent `n` copies for an element with this id and retry count: none if
      the walk was past it. The element is still there, with what is left of its
      budget, or it has been removed without being sent. */
  predicate Spent(after: seq<Element>, n: nat, msgId: U16, retryCount: int, past: bool) {
    && n <= 1 && (past ==> n == 0) && (n == 1 ==> retryCount >= 0)
    && (Used(after, msgId, retryCount - n) || (n == 0 && !past && !HasId(after, msgId)))
  }

  /** What a pass does to one element. */
  lemma {:induction false} WalkUses(list: seq<Element>, i: nat, now: nat, k: nat)
    requires UniqueIds(list) && k < |list|
    ensures UniqueIds(Walk(list, i, now))
    ensures Spent(Walk(list, i, now), Count(WalkOut(list, i, now), list[k].msgId), list[k].msgId,
          list[k].retryCount, k < i)
    decreases |list| - i
  {
    var id := list[k].msgId;
    if i >= |list| {
      assert Used(list, id, list[k].retryCount);
    } else if !Expired(list[i], now) {
      WalkUses(list, i + 1, now, k);
      hide Walk, WalkOut, Count, Used, HasId, UniqueIds;
    } else if list[i].retryCount >= 0 {
      var next := list[i := SentAt(list[i], now)];
      assert k != i ==> list[i].msgId != id;
      assert next[k].msgId == id && UniqueIds(next);
      assert Walk(list, i, now) == Walk(next, i + 1, now) && WalkOut(list, i,
            now) == [Sending(list[i])] + WalkOut(next, i + 1, now);
      hide Walk, WalkOut, Count, Used, HasId, UniqueIds;
      WalkUses(next, i + 1, now, k);
      CountOne(Sending(list[i]), WalkOut(next, i + 1, now), id);
    } else {
      WalkRemoves(list, i, k);
      if i != |list| - 1 && i != 0 {
        var next := Without(list, i);
        if k == i {
          WalkAddsNothing(next, i, now, id);
          WalkUses(next, i, now, 0);
        } else {
          WalkUses(next, i, now, if k < i then k else k - 1);
        }
        hide Walk, WalkOut, Count, Used, HasId, UniqueIds, Without;
      }
    }
  }

  lemma WalkRemoves(list: seq<Element>, i: nat, k: nat)
    requires UniqueIds(list) && i < |list| && k < |list|
    ensures UniqueIds(Without(list, i))
    ensures if k == i then !HasId(Without(list, i), list[k].msgId)
            else Used(Without(list, i), list[k].msgId, list[k].retryCount)
                 && Without(list, i)[if k < i then k else k - 1] == list[k]
  {
    WithoutOne(list, i, k);
    if k != i {
      assert Without(list, i)[if k < i then k else k - 1].msgId == list[k].msgId;
    }
  }

  lemma CountOne(out: Out, rest: seq<Out>, msgId: U16)
    ensures Count([out] + rest, msgId) == (if out.msgId == msgId then 1 else 0) + Count(rest, msgId)
  {
    assert ([out] + rest)[1..] == rest;
  }

  /** A pass brings no id into the list and sends none that is not in it. */
  lemma {:induction false} WalkAddsNothing(list: seq<Element>, i: nat, now: nat, msgId: U16)
    requires !HasId(list, msgId)
    ensures !HasId(Walk(list, i, now), msgId) && Count(WalkOut(list, i, now), msgId) == 0
    decreases |list| - i
  {
    if i < |list| {
      if !Expired(list[i], now) {
        WalkAddsNothing(list, i + 1, now, msgId);
      } else if list[i].retryCount >= 0 {
        var next := list[i := SentAt(list[i], now)];
        WalkAddsNothing(next, i + 1, now, msgId);
        CountOne(Sending(list[i]), WalkOut(next, i + 1, now), msgId);
      } else {
        assert !HasId(Without(list, i), msgId);
        if i != |list| - 1 && i != 0 {
          WalkAddsNothing(Without(list, i), i, now, msgId);
        }
      }
    }
  }

  /** The steps: a new request, which goes out at once, an answer, and a time-out pass. */
  datatype Step = Add(msgId: U16, request: Request, now: nat) | Answer(msgId: U16) | CheckTimeout(now: nat)

  function Next(list: seq<Element>, step: Step): seq<Element> {
    match step
    case Add(msgId, request, now) => list + [SentAt(Fresh(msgId, request), now)]
    case Answer(msgId) =>
      ByIdFinds(list, msgId);
      var i := ById(list, msgId);
      if i.Some? then Without(list, i.value) else list
    case CheckTimeout(now) => Walk(list, 0, now)
  }

  function Outputs(list: seq<Element>, step: Step): seq<Out> {
    match step
    case Add(msgId, request, _) => [Sending(Fresh(msgId, request))]
    case Answer(_) => []
    case CheckTimeout(now) => WalkOut(list, 0, now)
  }

  datatype Run = Start | Then(past: Run, step: Step)

  function After(run: Run): seq<Element> {
    match run
    case Start => []
    case Then(past, step) => Next(After(past), step)
  }

  predicate FreshIds(run: Run) {
    run.Then? ==> FreshIds(run.past) && (run.step.Add? ==> !HasId(After(run.past), run.step.msgId))
  }

  /** The copies of a request that have gone out since it was made. */
  function Copies(run: Run, msgId: U16): nat {
    if run.Start? then 0
    else (if run.step.Add? && run.step.msgId == msgId then 0 else Copies(run.past, msgId))
         + Count(Outputs(After(run.past), run.step), msgId)
  }

  /** While a request waits, its retry count says how many copies are left. */
  ghost predicate Accounted(run: Run, msgId: U16) {
    && Copies(run, msgId) <= 4
    && forall k :: 0 <= k < |After(run)| && After(run)[k].msgId == msgId ==>
                     After(run)[k].retryCount == MQTTSN_RETRY_COUNT - Copies(run, msgId) >= -1
  }

  lemma {:induction false} RunIsUnique(run: Run)
    requires FreshIds(run)
    ensures UniqueIds(After(run))
  {
    if run.Then? {
      RunIsUnique(run.past);
      var list := After(run.past);
      match run.step {
        case Add(msgId, _, _) => assert !HasId(list, msgId);
        case Answer(msgId) =>
          ByIdFinds(list, msgId);
          if ById(list, msgId).Some? {
            WithoutOne(list, ById(list, msgId).value, 0);
          }
        case CheckTimeout(now) =>
          if list != [] {
            WalkUses(list, 0, now, 0);
          }
      }
    }
  }

  /** In every run a request goes out at most four times before it is answered or
      given up. */
  lemma {:induction false} AtMostFourCopies(run: Run, msgId: U16)
    requires FreshIds(run)
    ensures Accounted(run, msgId)
  {
    if run.Then? {
      AtMostFourCopies(run.past, msgId);
      RunIsUnique(run.past);
      match run.step {
        case Add(_, _, _) => AddAccounted(run, msgId);
        case Answer(_) => AnswerAccounted(run, msgId);
        case CheckTimeout(_) => TimeoutAccounted(run, msgId);
      }
    }
  }

  lemma AddAccounted(run: Run, msgId: U16)
    requires run.Then? && run.step.Add? && FreshIds(run) && Accounted(run.past, msgId)
    ensures Accounted(run, msgId)
  {
    var list := After(run.past);
    var out := Sending(Fresh(run.step.msgId, run.step.request));
    CountOne(out, [], msgId);
    assert [out] + [] == [out];
    assert !HasId(list, run.step.msgId);
    forall k | 0 <= k < |After(run)| && After(run)[k].msgId == msgId
      ensures After(run)[k].retryCount == MQTTSN_RETRY_COUNT - Copies(run, msgId) >= -1
    {
      if k < |list| {
        assert list[k].msgId == msgId;
      }
    }
  }

  lemma AnswerAccounted(run: Run, msgId: U16)
    requires run.Then? && run.step.Answer? && Accounted(run.past, msgId)
    ensures Accounted(run, msgId)
  {
    var list := After(run.past);
    ByIdFinds(list, run.step.msgId);
    var i := ById(list, run.step.msgId);
    forall k | 0 <= k < |After(run)| && After(run)[k].msgId == msgId
      ensures After(run)[k].retryCount == MQTTSN_RETRY_COUNT - Copies(run, msgId) >= -1
    {
      var j := if i.Some? && k >= i.value then k + 1 else k;
      assert After(run)[k] == list[j];
    }
  }

  lemma TimeoutAccounted(run: Run, msgId: U16)
    requires run.Then? && run.step.CheckTimeout? && Accounted(run.past, msgId) && UniqueIds(After(run.past))
    ensures Accounted(run, msgId)
  {
    var list, now := After(run.past), run.step.now;
    var list' := Walk(list, 0, now);
    if HasId(list, msgId) {
      var k :| 0 <= k < |list| && list[k].msgId == msgId;
      WalkUses(list, 0, now, k);
      assert Copies(run, msgId) == Copies(run.past, msgId) + Count(WalkOut(list, 0, now), msgId);
      OnlyUsed(list', msgId);
    } else {
      WalkAddsNothing(list, 0, now, msgId);
      assert forall k :: 0 <= k < |list'| ==> list'[k].msgId != msgId;
    }
  }

  lemma OnlyUsed(list: seq<Element>, msgId: U16)
    requires UniqueIds(list)
    ensures forall r, k :: Used(list, msgId, r) && 0 <= k < |list| && list[k].msgId == msgId ==> list[k].retryCount == r
  {
  }

  // ----- the managers

  /** SubscribeManager, and RegisterManager with its own connection to the gateway. */
  class Manager {
    var list: seq<Element>
    var sent: seq<Out>

    constructor ()
      ensures list == [] && sent == []
    {
      list, sent := [], [];
    }

    method Send(i: nat, now: nat)
      requires i < |list|
      modifies this
      ensures list == old(list)[i := SentAt(old(list)[i], now)] && sent == old(sent) + [Sending(old(list)[i])]
    {
      var e := list[i];
      sent := sent + [Out(e.msgId, e.request, e.retryCount < MQTTSN_RETRY_COUNT && e.request.Subscribe?)];
      list := list[i := e.(sendUTC := now, retryCount := e.retryCount - 1)];
    }

    method RemoveElement(i: nat)
      requires i < |list|
      modifies this`list
      ensures list == Without(old(list), i)
    {
      list := list[..i] + list[i + 1..];
    }

    method GetElement(msgId: U16) returns (i: Option<nat>)
      ensures i == ById(list, msgId)
    {
      var elm := 0;
      while elm < |list|
        invariant 0 <= elm <= |list|
        invariant ById(list, msgId) == var r := ById(list[elm..], msgId); if r.Some? then Some(r.value + elm) else None
      {
        if list[elm].msgId == msgId {
          return Some(elm);
        }
        assert list[elm..][1..] == list[elm + 1..];
        elm := elm + 1;
      }
      i := None;
    }

    /** subscribe, unsubscribe, and the part of registerTopic behind its test. */
    method AddRequest(msgId: U16, request: Request, now: nat)
      modifies this
      ensures list == Next(old(list), Add(msgId, request, now))
            && sent == old(sent) + Outputs(old(list), Add(msgId, request, now))
    {
      list := list + [Element(msgId, request, 0, MQTTSN_RETRY_COUNT)];
      Send(|list| - 1, now);
    }

    /** registerTopic asks for a topic once: while a REGISTER for the name waits, nothing is added. */
    method RegisterTopic(topicName: Str, msgId: U16, now: nat)
      modifies this
      ensures if Register(topicName) in Requests(old(list)) then list == old(list) && sent == old(sent)
              else
                var step := Add(msgId, Register(topicName), now);
                list == Next(old(list), step) && sent == old(sent) + Outputs(old(list), step)
    {
      var elm := 0;
      while elm < |list|
        invariant 0 <= elm <= |list|
        invariant forall k :: 0 <= k < elm ==> list[k].request != Register(topicName)
      {
        if list[elm].request == Register(topicName) {
          assert Requests(list)[elm] == Register(topicName);
          return;
        }
        elm := elm + 1;
      }
      AddRequest(msgId, Register(topicName), now);
    }

    /** SUBACK, UNSUBACK, or the REGACK for a known id. */
    method Answered(msgId: U16)
      modifies this`list
      ensures list == Next(old(list), Answer(msgId))
    {
      ByIdFinds(list, msgId);
      var elm := GetElement(msgId);
      if elm.Some? {
        RemoveElement(elm.value);
      }
    }

    method TimeoutCheck(now: nat)
      modifies this
      ensures list == Next(old(list), CheckTimeout(now)) && sent == old(sent) + Outputs(old(list), CheckTimeout(now))
    {
      var elm := 0;
      while elm < |list|
        invariant Walk(old(list), 0, now) == Walk(list, elm, now)
        invariant old(sent) + WalkOut(old(list), 0, now) == sent + WalkOut(list, elm, now)
        decreases |list| - elm
      {
        if list[elm].sendUTC + MQTTSN_TIME_RETRY < now {
          if list[elm].retryCount >= 0 {
            Assoc(sent, [Sending(list[elm])], WalkOut(list[elm := SentAt(list[elm], now)], elm + 1, now));
            Send(elm, now);
          } else if elm + 1 < |list| {
            if elm == 0 {
              RemoveElement(elm);
              break;
            }
            RemoveElement(elm);
            elm := elm - 1;
          } else {
            RemoveElement(elm);
            break;
          }
        }
        elm := elm + 1;
      }
      WithNothing(sent);
    }
  }

  function Requests(list: seq<Element>): seq<Request> {
    seq(|list|, k requires 0 <= k < |list| => list[k].request)
  }

  // ----- what goes out is what was asked for

  /** The last request made with this id, and when it was last sent. */
  function RequestOf(run: Run, msgId: U16): Option<Request> {
    if run.Start? then None
    else if run.step.Add? && run.step.msgId == msgId then Some(run.step.request)
    else RequestOf(run.past, msgId)
  }

  predicate Sends(outs: seq<Out>, msgId: U16) {
    exists j :: 0 <= j < |outs| && outs[j].msgId == msgId
  }

  function SentTime(run: Run, msgId: U16): nat {
    if run.Start? then 0
    else if Sends(Outputs(After(run.past), run.step), msgId) && !run.step.Answer? then run.step.now
    else SentTime(run.past, msgId)
  }

  lemma SendsMore(out: Out, rest: seq<Out>, msgId: U16)
    ensures Sends([out] + rest, msgId) <==> out.msgId == msgId || Sends(rest, msgId)
  {
    var all := [out] + rest;
    assert all[0] == out;
    assert forall j :: 0 <= j < |rest| ==> all[j + 1] == rest[j];
  }

  /** More than ten seconds since it was last sent. */
  predicate Late(e: Element, now: nat) {
    now > e.sendUTC + 10
  }

  /** A pass ends when it gives up the first request of the list. */
  predicate EndsAt(list: seq<Element>, now: nat) {
    list != [] && Late(list[0], now) && list[0].retryCount < 0
  }

  lemma {:induction false} CountSends(outs: seq<Out>, msgId: U16)
    ensures Count(outs, msgId) > 0 <==> Sends(outs, msgId)
  {
    if outs != [] {
      CountSends(outs[1..], msgId);
      assert outs == [outs[0]] + outs[1..];
      SendsMore(outs[0], outs[1..], msgId);
    }
  }

  /** The walk does not go back. */
  lemma WalkPassed(list: seq<Element>, i: nat, now: nat, k: nat)
    requires UniqueIds(list) && k < i && k < |list|
    ensures !Sends(WalkOut(list, i, now), list[k].msgId) && HasId(Walk(list, i, now), list[k].msgId)
  {
    WalkUses(list, i, now, k);
    CountSends(WalkOut(list, i, now), list[k].msgId);
  }

  /** A pass from element `i` on sends the k-th element if and only if it is late and has
      copies left, and drops it if and only if it is late and has none, unless the pass has
      ended before. */
  predicate PassIs(list: seq<Element>, i: nat, now: nat, k: nat, outs: seq<Out>, after: seq<Element>)
    requires k < |list|
  {
    var e, ended := list[k], i == 0 && k > 0 && EndsAt(list, now);
    (Sends(outs, e.msgId) <==> !ended && Late(e, now) && e.retryCount >= 0)
    && (HasId(after, e.msgId) <==> ended || !Late(e, now) || e.retryCount >= 0)
  }

  /** One step of the walk. */
  lemma WalkStep(list: seq<Element>, i: nat, now: nat)
    requires i < |list|
    ensures !Expired(list[i], now) ==>
              Walk(list, i, now) == Walk(list, i + 1, now) && WalkOut(list, i, now) == WalkOut(list, i + 1, now)
    ensures Expired(list[i], now) && list[i].retryCount >= 0 ==>
              var next := list[i := SentAt(list[i], now)];
              Walk(list, i, now) == Walk(next, i + 1, now)
              && WalkOut(list, i, now) == [Sending(list[i])] + WalkOut(next, i + 1, now)
    ensures Expired(list[i], now) && list[i].retryCount < 0 ==>
              if i == |list| - 1 || i == 0
              then Walk(list, i, now) == Without(list, i) && WalkOut(list, i, now) == []
              else Walk(list, i, now) == Walk(Without(list, i), i, now)
                   && WalkOut(list, i, now) == WalkOut(Without(list, i), i, now)
  {
  }

  lemma {:induction false} WalkIsExact(list: seq<Element>, i: nat, now: nat, k: nat)
    requires UniqueIds(list) && i <= k < |list|
    ensures PassIs(list, i, now, k, WalkOut(list, i, now), Walk(list, i, now))
    decreases |list| - i
  {
    WalkStep(list, i, now);
    hide Sends, HasId, UniqueIds, Walk, WalkOut;
    if !Expired(list[i], now) {
      if i < k {
        WalkIsExact(list, i + 1, now, k);
      } else {
        WalkPassed(list, i + 1, now, k);
      }
    } else if list[i].retryCount >= 0 {
      WalkSendsOne(list, i, now, k);
      if i < k {
        WalkIsExact(list[i := SentAt(list[i], now)], i + 1, now, k);
      } else {
        WalkPassed(list[i := SentAt(list[i], now)], i + 1, now, k);
      }
    } else {
      WalkRemoves(list, i, k);
      if i == |list| - 1 || i == 0 {
        NothingSent(list[k].msgId);
        KeptHasId(list, k);
      } else if i < k {
        WalkIsExact(Without(list, i), i, now, k - 1);
      } else {
        WalkAddsNothing(Without(list, i), i, now, list[k].msgId);
        CountSends(WalkOut(Without(list, i), i, now), list[k].msgId);
      }
      UsedHasId(Without(list, i), list[k].msgId, list[k].retryCount);
    }
  }

  lemma NothingSent(msgId: U16)
    ensures !Sends([], msgId)
  {
  }

  lemma KeptHasId(list: seq<Element>, k: nat)
    requires k < |list|
    ensures HasId(list, list[k].msgId)
  {
  }

  lemma UsedHasId(list: seq<Element>, msgId: U16, retryCount: int)
    ensures Used(list, msgId, retryCount) ==> HasId(list, msgId)
  {
  }

  lemma WalkSendsOne(list: seq<Element>, i: nat, now: nat, k: nat)
    requires UniqueIds(list) && i < |list| && k < |list| && Expired(list[i], now) && list[i].retryCount >= 0
    ensures var next, id := list[i := SentAt(list[i], now)], list[k].msgId;
            UniqueIds(next) && next[k].msgId == id
            && Walk(list, i, now) == Walk(next, i + 1, now)
            && (Sends(WalkOut(list, i, now), id) <==> i == k || Sends(WalkOut(next, i + 1, now), id))
  {
    var next := list[i := SentAt(list[i], now)];
    assert i != k ==> list[i].msgId != list[k].msgId;
    SendsMore(Sending(list[i]), WalkOut(next, i + 1, now), list[k].msgId);
  }

  /** Each element a pass leaves is one of the list, sent again just now if it was sent. */
  lemma {:induction false} WalkKeeps(list: seq<Element>, i: nat, now: nat, m: nat) returns (k: nat)
    requires UniqueIds(list) && m < |Walk(list, i, now)|
    ensures k < |list|
    ensures var e, f, outs := list[k], Walk(list, i, now)[m], WalkOut(list, i, now);
            f.msgId == e.msgId && f.request == e.request
            && f.sendUTC == (if Sends(outs, e.msgId) then now else e.sendUTC)
            && (k < i ==> !Sends(outs, e.msgId))
    decreases |list| - i
  {
    k := m;
    if i >= |list| {
      NothingSent(list[m].msgId);
    } else {
      WalkStep(list, i, now);
      hide Walk, WalkOut, Sends;
      if !Expired(list[i], now) {
        k := WalkKeeps(list, i + 1, now, m);
      } else if list[i].retryCount >= 0 {
        var next := list[i := SentAt(list[i], now)];
        assert UniqueIds(next);
        k := WalkKeeps(next, i + 1, now, m);
        assert k != i ==> list[i].msgId != list[k].msgId;
        SendsMore(Sending(list[i]), WalkOut(next, i + 1, now), list[k].msgId);
      } else {
        WithoutOne(list, i, 0);
        if i != |list| - 1 && i != 0 {
          k := WalkKeeps(Without(list, i), i, now, m);
        } else {
          NothingSent(Without(list, i)[m].msgId);
        }
        k := if k < i then k else k + 1;
      }
    }
  }

  /** What a pass sends is an element of the list. */
  lemma {:induction false} WalkSends(list: seq<Element>, i: nat, now: nat, j: nat) returns (k: nat)
    requires j < |WalkOut(list, i, now)|
    ensures i <= k < |list| && WalkOut(list, i, now)[j] == Sending(list[k])
    decreases |list| - i
  {
    k := i;
    if !Expired(list[i], now) {
      k := WalkSends(list, i + 1, now, j);
    } else if list[i].retryCount >= 0 {
      if j > 0 {
        k := WalkSends(list[i := SentAt(list[i], now)], i + 1, now, j - 1);
      }
    } else {
      k := WalkSends(Without(list, i), i, now, j);
      k := k + 1;
    }
  }

  /** A new request joins the list behind the others, and an answer takes out the request with
      its id and no other. */
  lemma AddAndAnswerExactly(list: seq<Element>, step: Step)
    requires UniqueIds(list) && (step.Add? ==> !HasId(list, step.msgId))
    ensures step.Add? ==>
              |Next(list, step)| == |list| + 1 && Next(list, step)[..|list|] == list
              && Next(list, step)[|list|].msgId == step.msgId && Next(list, step)[|list|].request == step.request
    ensures step.Answer? ==>
              !HasId(Next(list, step), step.msgId)
              && forall k :: 0 <= k < |list| && list[k].msgId != step.msgId ==> list[k] in Next(list, step)
  {
    if step.Answer? {
      ByIdFinds(list, step.msgId);
      var i := ById(list, step.msgId);
      if i.Some? {
        forall k | 0 <= k < |list| && list[k].msgId != step.msgId ensures list[k] in Next(list, step) {
          WithoutOne(list, i.value, k);
          assert Without(list, i.value)[if k < i.value then k else k - 1] == list[k];
        }
        WithoutOne(list, i.value, i.value);
      } else {
        assert Next(list, step) == list;
      }
    }
  }

  /** Every request that waits is the one that was made with its id, and remembers when it
      was last sent. */
  ghost predicate Told(run: Run) {
    forall k :: 0 <= k < |After(run)| ==>
      RequestOf(run, After(run)[k].msgId) == Some(After(run)[k].request)
      && SentTime(run, After(run)[k].msgId) == After(run)[k].sendUTC
  }

  lemma {:induction false} RequestsTold(run: Run)
    requires FreshIds(run)
    ensures Told(run)
  {
    if run.Then? {
      RequestsTold(run.past);
      RunIsUnique(run.past);
      forall k | 0 <= k < |After(run)|
        ensures RequestOf(run, After(run)[k].msgId) == Some(After(run)[k].request)
                && SentTime(run, After(run)[k].msgId) == After(run)[k].sendUTC
      {
        ToldOnward(run, k);
      }
    }
  }

  lemma ToldOnward(run: Run, k: nat)
    requires run.Then? && FreshIds(run) && Told(run.past) && UniqueIds(After(run.past)) && k < |After(run)|
    ensures RequestOf(run, After(run)[k].msgId) == Some(After(run)[k].request)
            && SentTime(run, After(run)[k].msgId) == After(run)[k].sendUTC
  {
    var list, f := After(run.past), After(run)[k];
    match run.step {
      case Add(msgId, request, now) =>
        assert !HasId(list, msgId);
        var out := Sending(Fresh(msgId, request));
        SendsMore(out, [], f.msgId);
        assert [out] + [] == [out];
        assert k < |list| ==> list[k].msgId != msgId;
      case Answer(msgId) =>
        ByIdFinds(list, msgId);
        var i := ById(list, msgId);
        assert f == list[if i.Some? && k >= i.value then k + 1 else k];
      case CheckTimeout(now) =>
        var m := WalkKeeps(list, 0, now, k);
        assert list[m].msgId == f.msgId;
    }
  }

  /** In every run with fresh ids, whatever goes out is the request that was last made with
      its id; DUP is set if and only if it is a SUBSCRIBE that has gone out before. */
  lemma RequestSentAsMade(run: Run, j: nat)
    requires run.Then? && FreshIds(run) && j < |Outputs(After(run.past), run.step)|
    ensures var out := Outputs(After(run.past), run.step)[j];
            RequestOf(run, out.msgId) == Some(out.request)
            && (out.dup <==> out.request.Subscribe? && !run.step.Add? && Copies(run.past, out.msgId) > 0)
  {
    var list := After(run.past);
    RequestsTold(run.past);
    if run.step.CheckTimeout? {
      var k := WalkSends(list, 0, run.step.now, j);
      AtMostFourCopies(run.past, list[k].msgId);
      assert list[k].msgId == Outputs(list, run.step)[j].msgId;
    }
  }
}
