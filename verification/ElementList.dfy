/** The doubly linked lists of the client's managers, link by link: how add() and
    remove() change them as they are coded, and when that is what is meant. */
module ElementList {
  import opened Sequences

  // ----- the list as values

  /** What add() and remove() are called for. */
  datatype Op<T> = Append(elm: T) | Unlink(elm: T)

  /** The elements met from front to back, and those whose back link points to an element
      that has been removed. */
  datatype Links<T> = Links(list: seq<T>, stale: set<T>)

  function IndexIn<T(==)>(list: seq<T>, elm: T): (i: nat)
    ensures i <= |list| && (i < |list| <==> elm in list) && (i < |list| ==> list[i] == elm)
  {
    if list == [] || list[0] == elm then 0 else IndexIn(list[1..], elm) + 1
  }

  /** What is meant. */
  function Intended<T(==)>(list: seq<T>, op: Op<T>): seq<T> {
    match op
    case Append(elm) => list + [elm]
    case Unlink(elm) => var i := IndexIn(list, elm); if i < |list| then Without(list, i) else list
  }

  /** What is coded. The element behind one removed from the middle keeps its link to it;
      the element behind a removed first one gets none. An element with a stale back link
      cannot be removed: its successor is linked to what is no longer in the list. */
  function Coded<T(==)>(l: Links<T>, op: Op<T>): Links<T> {
    match op
    case Append(elm) => Links(l.list + [elm], l.stale)
    case Unlink(elm) =>
      var i := IndexIn(l.list, elm);
      if i == |l.list| || elm in l.stale then l
      else
        var next := if i + 1 < |l.list| then {l.list[i + 1]} else {};
        Links(Without(l.list, i), if i == 0 then l.stale - next else l.stale + next)
  }

  function IntendedRun<T(==)>(list: seq<T>, ops: seq<Op<T>>): seq<T>
    decreases |ops|
  {
    if ops == [] then list else IntendedRun(Intended(list, ops[0]), ops[1..])
  }

  function CodedRun<T(==)>(l: Links<T>, ops: seq<Op<T>>): Links<T>
    decreases |ops|
  {
    if ops == [] then l else CodedRun(Coded(l, ops[0]), ops[1..])
  }

  lemma {:induction false} IntendedConcat<T>(list: seq<T>, a: seq<Op<T>>, b: seq<Op<T>>)
    ensures IntendedRun(list, a + b) == IntendedRun(IntendedRun(list, a), b)
    decreases |a|
  {
    if a == [] {
      WithNothing(b);
    } else {
      TailOfConcat(a, b);
      IntendedConcat(Intended(list, a[0]), a[1..], b);
    }
  }

  predicate Distinct<T(==)>(s: seq<T>) {
    forall i, j :: 0 <= i < j < |s| ==> s[i] != s[j]
  }

  /** Each element is new when it is added, and in the list when it is removed. */
  predicate Proper<T(==)>(list: seq<T>, ops: seq<Op<T>>)
    decreases |ops|
  {
    ops == []
    || ((ops[0].Append? <==> ops[0].elm !in list) && Proper(Intended(list, ops[0]), ops[1..]))
  }

  lemma {:induction false} ProperConcat<T>(list: seq<T>, a: seq<Op<T>>, b: seq<Op<T>>)
    ensures Proper(list, a + b) <==> Proper(list, a) && Proper(IntendedRun(list, a), b)
    decreases |a|
  {
    if a == [] {
      WithNothing(b);
    } else {
      TailOfConcat(a, b);
      ProperConcat(Intended(list, a[0]), a[1..], b);
    }
  }

  /** No element with a stale back link is removed. */
  predicate NeverStale<T(==)>(l: Links<T>, ops: seq<Op<T>>)
    decreases |ops|
  {
    ops == []
    || (!(ops[0].Unlink? && ops[0].elm in l.stale) && NeverStale(Coded(l, ops[0]), ops[1..]))
  }

  /** The coded list is the intended one all along. */
  predicate SameThroughout<T(==)>(l: Links<T>, list: seq<T>, ops: seq<Op<T>>)
    decreases |ops|
  {
    l.list == list && (ops == [] || SameThroughout(Coded(l, ops[0]), Intended(list, ops[0]), ops[1..]))
  }

  /** remove() as coded keeps the list as it is meant to be, in any sequence of additions
      and removals, if and only if it is never asked to remove an element whose back link
      is stale. */
  lemma {:induction false} SameExactly<T>(l: Links<T>, ops: seq<Op<T>>)
    requires Proper(l.list, ops)
    ensures SameThroughout(l, l.list, ops) <==> NeverStale(l, ops)
    ensures NeverStale(l, ops) ==> CodedRun(l, ops).list == IntendedRun(l.list, ops)
    decreases |ops|
  {
    if ops != [] {
      var next := Coded(l, ops[0]);
      if ops[0].Unlink? && ops[0].elm in l.stale {
        assert |Intended(l.list, ops[0])| == |l.list| - 1;
        assert next == l;
      } else {
        assert next.list == Intended(l.list, ops[0]);
        SameExactly(next, ops[1..]);
      }
    }
  }

  /** Only the first or the last element is removed. */
  predicate AtEnds<T(==)>(list: seq<T>, ops: seq<Op<T>>)
    decreases |ops|
  {
    ops == []
    || ((ops[0].Unlink? ==> list != [] && (ops[0].elm == list[0] || ops[0].elm == list[|list| - 1]))
        && AtEnds(Intended(list, ops[0]), ops[1..]))
  }

  /** As long as elements leave at the ends, all is as it is meant to be. */
  lemma {:induction false} EndsAreSafe<T>(list: seq<T>, ops: seq<Op<T>>)
    requires Distinct(list) && Proper(list, ops) && AtEnds(list, ops)
    ensures NeverStale(Links(list, {}), ops)
    decreases |ops|
  {
    if ops != [] {
      var next := Intended(list, ops[0]);
      var i := IndexIn(list, ops[0].elm);
      assert Coded(Links(list, {}), ops[0]) == Links(next, {});
      EndsAreSafe(next, ops[1..]);
    }
  }

  // ----- the list as linked elements

  class Element {
    var prev: Element?
    var next: Element?

    constructor ()
      ensures prev == null && next == null
    {
      prev, next := null, null;
    }
  }

  function SuccessorOr(s: seq<Element>, i: nat, end: Element?): Element? {
    if i + 1 < |s| then s[i + 1] else end
  }

  function Predecessor(s: seq<Element>, i: nat): Element? {
    if 0 < i <= |s| then s[i - 1] else null
  }

  /** Every `next` points to the element behind. */
  ghost predicate NextLinks(s: seq<Element>)
    reads s
  {
    forall i :: 0 <= i < |s| ==> s[i].next == SuccessorOr(s, i, null)
  }

  /** Every `prev` points to the element in front, or, if stale, to one removed earlier. */
  ghost predicate PrevLinks(s: seq<Element>, stale: set<Element>, removed: set<Element>)
    reads s
  {
    forall i :: 0 <= i < |s| ==> IsBack(s[i].prev, s, i, stale, removed)
  }

  predicate IsBack(prev: Element?, s: seq<Element>, i: nat, stale: set<Element>, removed: set<Element>)
    requires i < |s|
  {
    if s[i] in stale then i > 0 && prev != null && prev in removed else prev == Predecessor(s, i)
  }

  /** The element that a removal frees, if it takes it out of the list. */
  function Unless(elm: Element, stale: set<Element>): set<Element> {
    if elm in stale then {} else {elm}
  }

  predicate Apart(s: seq<Element>, removed: set<Element>) {
    Distinct(s) && forall k :: 0 <= k < |s| ==> s[k] !in removed
  }

  lemma ApartWithout(s: seq<Element>, i: nat, removed: set<Element>)
    requires Apart(s, removed) && i < |s|
    ensures Apart(Without(s, i), removed + {s[i]})
  {
    var t := Without(s, i);
    assert forall k :: 0 <= k < |t| ==> t[k] == if k < i then s[k] else s[k + 1];
  }

  lemma CodedAt(s: seq<Element>, i: nat, stale: set<Element>)
    requires Distinct(s) && i < |s| && s[i] !in stale
    ensures var behind := if i + 1 < |s| then {s[i + 1]} else {};
            Coded(Links(s, stale), Unlink(s[i]))
            == Links(Without(s, i), if i == 0 then stale - behind else stale + behind)
  {
    assert s[IndexIn(s, s[i])] == s[i];
  }

  class ElementList {
    var first: Element?
    ghost var spine: seq<Element>
    ghost var stale: set<Element>
    ghost var removed: set<Element>

    constructor ()
      ensures Linked() && Now() == Links([], {}) && removed == {}
    {
      first, spine, stale, removed := null, [], {}, {};
    }

    ghost function Now(): Links<Element>
      reads this
    {
      Links(spine, stale)
    }

    /** Following `next` from `first` meets the elements in order. */
    ghost predicate Linked()
      reads this, spine
    {
      && first == (if spine == [] then null else spine[0])
      && NextLinks(spine) && PrevLinks(spine, stale, removed) && Apart(spine, removed)
    }

    /** The walk of add() to the last element. */
    method FindLast() returns (last: Element?)
      requires Linked()
      ensures last == if spine == [] then null else spine[|spine| - 1]
    {
      last := first;
      if last == null {
        return;
      }
      ghost var n := 0;
      while last.next != null
        invariant n < |spine| && last == spine[n]
        decreases |spine| - n
      {
        last := last.next;
        n := n + 1;
      }
    }

    method Add() returns (elm: Element)
      requires Linked()
      modifies this, spine
      ensures fresh(elm) && Linked() && Now() == Coded(old(Now()), Append(elm)) && removed == old(removed)
    {
      hide NextLinks, PrevLinks, Apart, Distinct;
      ghost var s := spine;
      var last := FindLast();
      elm := new Element();
      LinksAre(spine, stale, removed);
      if last == null {
        first := elm;
      } else {
        last.next := elm;
        elm.prev := last;
      }
      spine := s + [elm];
      Appended(s, elm, stale, removed);
      assert Linked();
    }

    /** remove() as coded: what it does to the links is Coded. Freed elements stay as they are. */
    method Remove(elm: Element)
      requires Linked() && elm in spine
      modifies this, spine, removed
      ensures Linked() && Now() == Coded(old(Now()), Unlink(elm))
      ensures removed == old(removed) + Unless(elm, old(stale))
    {
      if elm.prev == null {
        RemoveFirst(elm, IndexIn(spine, elm));
      } else {
        RemoveBehind(elm, IndexIn(spine, elm));
      }
    }

    method RemoveFirst(elm: Element, ghost i: nat)
      requires Linked() && i < |spine| && elm == spine[i] && elm.prev == null
      modifies this, spine
      ensures Linked() && Now() == Coded(old(Now()), Unlink(elm))
      ensures removed == old(removed) + Unless(elm, old(stale))
    {
      hide Coded, NextLinks, PrevLinks, Apart, Distinct, Without, IndexIn, Unless;
      ghost var s, st, rm := spine, stale, removed;
      LinksAre(s, st, rm);
      assert i == 0;
      first := elm.next;
      if elm.next != null {
        elm.next.prev := null;
      }
      Forget(elm);
      FirstUnlinked(s, st, rm);
    }

    method RemoveBehind(elm: Element, ghost i: nat)
      requires Linked() && i < |spine| && elm == spine[i] && elm.prev != null
      modifies this, spine, removed
      ensures Linked() && Now() == Coded(old(Now()), Unlink(elm))
      ensures removed == old(removed) + Unless(elm, old(stale))
    {
      hide Coded, NextLinks, PrevLinks, Apart, Distinct, Without, IndexIn, Unless;
      ghost var s, st, rm := spine, stale, removed;
      LinksAre(s, st, rm);
      assert i > 0;
      elm.prev.next := elm.next;
      Forget(elm);
      Unlinked(s, i, st, rm);
    }

    /** The ghost fields after a removal. */
    ghost method Forget(elm: Element)
      modifies `spine, `stale, `removed
      ensures Links(spine, stale) == Coded(Links(old(spine), old(stale)), Unlink(elm))
      ensures removed == old(removed) + Unless(elm, old(stale))
    {
      var l := Coded(Links(spine, stale), Unlink(elm));
      removed := removed + Unless(elm, stale);
      spine, stale := l.list, l.stale;
    }
  }

  /** What the elements are linked to, spelled out. */
  lemma LinksAre(s: seq<Element>, stale: set<Element>, removed: set<Element>)
    requires NextLinks(s) && PrevLinks(s, stale, removed) && Apart(s, removed)
    ensures forall i, j :: 0 <= i < j < |s| ==> s[i] != s[j]
    ensures forall k :: 0 <= k < |s| ==> s[k].next == SuccessorOr(s, k, null) && s[k] !in removed
    ensures forall k :: 0 <= k < |s| ==> IsBack(s[k].prev, s, k, stale, removed)
  {
  }

  /** The first element is cut off. */
  lemma FirstUnlinked(s: seq<Element>, stale: set<Element>, removed: set<Element>)
    requires s != [] && Apart(s, removed) && s[0] !in stale
    requires forall k :: 0 <= k < |s| ==> s[k].next == SuccessorOr(s, k, null)
    requires forall k :: 0 <= k < |s| && k != 1 ==> IsBack(s[k].prev, s, k, stale, removed)
    requires |s| > 1 ==> s[1].prev == null
    ensures var l, gone := Coded(Links(s, stale), Unlink(s[0])), Unless(s[0], stale);
            NextLinks(l.list) && PrevLinks(l.list, l.stale, removed + gone) && Apart(l.list, removed + gone)
            && |l.list| == |s| - 1 && (|s| > 1 ==> l.list[0] == s[1])
  {
    ApartWithout(s, 0, removed);
    CodedAt(s, 0, stale);
    NextWithout(s, 0);
    PrevWithout(s, 0, stale, removed);
  }

  /** An element behind the first is passed over, or, if its back link is stale, something
      that is no longer in the list changes. */
  lemma Unlinked(s: seq<Element>, i: nat, stale: set<Element>, removed: set<Element>)
    requires 0 < i < |s| && Apart(s, removed)
    requires forall k :: 0 <= k < |s| && k != i - 1 ==> s[k].next == SuccessorOr(s, k, null)
    requires s[i - 1].next == SuccessorOr(s, if s[i] in stale then i - 1 else i, null)
    requires forall k :: 0 <= k < |s| ==> IsBack(s[k].prev, s, k, stale, removed)
    ensures var l, gone := Coded(Links(s, stale), Unlink(s[i])), Unless(s[i], stale);
            NextLinks(l.list) && PrevLinks(l.list, l.stale, removed + gone) && Apart(l.list, removed + gone)
            && l.list != [] && l.list[0] == s[0]
  {
    if s[i] in stale {
      assert removed + {} == removed;
    } else {
      ApartWithout(s, i, removed);
      CodedAt(s, i, stale);
      NextWithout(s, i);
      PrevWithout(s, i, stale, removed);
    }
  }

  lemma NextWithout(s: seq<Element>, i: nat)
    requires i < |s| && (i > 0 ==> s[i - 1].next == SuccessorOr(s, i, null))
    requires forall k :: 0 <= k < |s| && k != i && k + 1 != i ==> s[k].next == SuccessorOr(s, k, null)
    ensures NextLinks(Without(s, i))
  {
    var t := Without(s, i);
    forall k | 0 <= k < |t| ensures t[k].next == SuccessorOr(t, k, null) {
      assert t[k] == if k < i then s[k] else s[k + 1];
    }
  }

  lemma PrevWithout(s: seq<Element>, i: nat, stale: set<Element>, removed: set<Element>)
    requires Distinct(s) && i < |s| && s[i] !in stale
    requires forall k :: 0 <= k < |s| && k != i && k != i + 1 ==> IsBack(s[k].prev, s, k, stale, removed)
    requires i + 1 < |s| ==> if i == 0 then s[1].prev == null else IsBack(s[i + 1].prev, s, i + 1, stale, removed)
    ensures var behind := if i + 1 < |s| then {s[i + 1]} else {};
            PrevLinks(Without(s, i), if i == 0 then stale - behind else stale + behind, removed + {s[i]})
  {
    var t := Without(s, i);
    forall k | 0 <= k < |t| ensures t[k] == if k < i then s[k] else s[k + 1] {
    }
  }

  lemma Appended(s: seq<Element>, elm: Element, stale: set<Element>, removed: set<Element>)
    requires Apart(s, removed) && elm !in s && elm !in removed && elm !in stale
    requires elm.next == null && elm.prev == Predecessor(s, |s|)
    requires forall k :: 0 <= k < |s| ==> s[k].next == SuccessorOr(s, k, elm)
    requires forall k :: 0 <= k < |s| ==> IsBack(s[k].prev, s, k, stale, removed)
    ensures var t := s + [elm]; NextLinks(t) && PrevLinks(t, stale, removed) && Apart(t, removed)
  {
    var t := s + [elm];
    assert forall k :: 0 <= k < |s| ==> t[k] == s[k];
  }
}
