/** The message ids that await an acknowledgement, each with its topic id: a
    std::map, as the sequence of its entries in the order of their keys. */
module TopicIdMap {
  import opened Bytes

  datatype Entry = Entry(msgId: U16, topicId: U16)

  predicate Sorted(m: seq<Entry>) {
    forall i, j :: 0 <= i < j < |m| ==> m[i].msgId < m[j].msgId
  }

  /** getTopicId: 0 stands for an id that is not there. */
  function Lookup(m: seq<Entry>, msgId: U16): U16 {
    if m == [] then 0
    else if m[0].msgId == msgId then m[0].topicId
    else Lookup(m[1..], msgId)
  }

  predicate Has(m: seq<Entry>, msgId: U16) {
    exists i :: 0 <= i < |m| && m[i].msgId == msgId
  }

  /** map::insert, which leaves an entry that is there alone. */
  function Insert(m: seq<Entry>, e: Entry): seq<Entry> {
    if m == [] || e.msgId < m[0].msgId then [e] + m
    else if e.msgId == m[0].msgId then m
    else [m[0]] + Insert(m[1..], e)
  }

  function Erase(m: seq<Entry>, msgId: U16): seq<Entry> {
    if m == [] then []
    else if m[0].msgId == msgId then m[1..]
    else [m[0]] + Erase(m[1..], msgId)
  }

  /** The first entry whose key is not below `msgId` goes. */
  function EraseLowerBound(m: seq<Entry>, msgId: U16): seq<Entry> {
    if m == [] then []
    else if m[0].msgId >= msgId then m[1..]
    else [m[0]] + EraseLowerBound(m[1..], msgId)
  }

  /** What add() makes room with when the map is full. */
  function MakeRoom(m: seq<Entry>, msgId: U16): seq<Entry> {
    if m == [] then []
    else if msgId > m[|m| - 1].msgId then m[1..]
    else EraseLowerBound(m, msgId)
  }

  function Add(m: seq<Entry>, max: nat, msgId: U16, topicId: U16): seq<Entry> {
    Insert(if |m| >= max then MakeRoom(m, msgId) else m, Entry(msgId, topicId))
  }

  /** The entries of `b` are entries of `a`. */
  predicate Within(b: seq<Entry>, a: seq<Entry>) {
    forall e :: e in b ==> e in a
  }

  lemma {:induction false} InsertKeeps(m: seq<Entry>, e: Entry)
    requires Sorted(m)
    ensures Sorted(Insert(m, e)) && Insert(m, e) != []
    ensures Insert(m, e)[0].msgId == if m == [] || e.msgId < m[0].msgId then e.msgId else m[0].msgId
    ensures |Insert(m, e)| == if Has(m, e.msgId) then |m| else |m| + 1
    ensures forall x :: x in Insert(m, e) <==> x in m || (x == e && !Has(m, e.msgId))
  {
    if m == [] || e.msgId < m[0].msgId {
    } else if e.msgId == m[0].msgId {
    } else {
      TailHas(m, e.msgId);
      InsertKeeps(m[1..], e);
      assert m == [m[0]] + m[1..];
    }
  }

  lemma TailHas(m: seq<Entry>, msgId: U16)
    requires m != []
    ensures Has(m, msgId) <==> m[0].msgId == msgId || Has(m[1..], msgId)
    ensures Sorted(m) ==> Sorted(m[1..])
  {
    if Has(m[1..], msgId) {
      var i :| 0 <= i < |m[1..]| && m[1..][i].msgId == msgId;
      assert m[i + 1].msgId == msgId;
    }
    if Has(m, msgId) && m[0].msgId != msgId {
      var i :| 0 <= i < |m| && m[i].msgId == msgId;
      assert m[1..][i - 1].msgId == msgId;
    }
  }

  lemma {:induction false} EraseKeeps(m: seq<Entry>, msgId: U16)
    requires Sorted(m)
    ensures Sorted(Erase(m, msgId)) && (|m| > 0 && |Erase(m, msgId)| > 0 ==> Erase(m, msgId)[0].msgId >= m[0].msgId)
    ensures forall x :: x in Erase(m, msgId) <==> x in m && x.msgId != msgId
    ensures |Erase(m, msgId)| == if Has(m, msgId) then |m| - 1 else |m|
  {
    if m == [] {
    } else {
      TailHas(m, msgId);
      assert m == [m[0]] + m[1..];
      if m[0].msgId != msgId {
        EraseKeeps(m[1..], msgId);
      }
    }
  }

  lemma {:induction false} EraseLowerBoundKeeps(m: seq<Entry>, msgId: U16)
    requires Sorted(m) && m != [] && m[|m| - 1].msgId >= msgId
    ensures Sorted(EraseLowerBound(m, msgId)) && |EraseLowerBound(m, msgId)| == |m| - 1
    ensures |EraseLowerBound(m, msgId)| > 0 ==> EraseLowerBound(m, msgId)[0].msgId >= m[0].msgId
    ensures Within(EraseLowerBound(m, msgId), m) && !Has(EraseLowerBound(m, msgId), msgId)
  {
    TailHas(m, msgId);
    if m[0].msgId < msgId {
      assert m[1..][|m| - 2] == m[|m| - 1];
      EraseLowerBoundKeeps(m[1..], msgId);
      TailHas(EraseLowerBound(m, msgId), msgId);
      assert EraseLowerBound(m, msgId)[1..] == EraseLowerBound(m[1..], msgId);
    } else {
      forall i | 0 <= i < |m[1..]| ensures m[1..][i].msgId != msgId {
        assert m[0].msgId < m[i + 1].msgId;
      }
    }
  }

  lemma MakeRoomKeeps(m: seq<Entry>, msgId: U16)
    requires Sorted(m) && m != []
    ensures Sorted(MakeRoom(m, msgId)) && |MakeRoom(m, msgId)| == |m| - 1
    ensures Within(MakeRoom(m, msgId), m) && !Has(MakeRoom(m, msgId), msgId)
  {
    if msgId > m[|m| - 1].msgId {
      TailHas(m, msgId);
    } else {
      EraseLowerBoundKeeps(m, msgId);
    }
  }

  /** add() never lets the map outgrow its limit of at least one, and what it holds
      then was there before or is the new entry. The new entry is there unless
      the map had room and an entry for that message id already. */
  lemma AddKeeps(m: seq<Entry>, max: nat, msgId: U16, topicId: U16)
    requires Sorted(m) && |m| <= max && max >= 1
    ensures var m' := Add(m, max, msgId, topicId);
            Sorted(m') && |m'| <= max
            && (forall x :: x in m' ==> x in m || x == Entry(msgId, topicId))
            && (Entry(msgId, topicId) in m' <==> Entry(msgId, topicId) in m || |m| == max || !Has(m, msgId))
  {
    var room := if |m| >= max then MakeRoom(m, msgId) else m;
    if |m| >= max {
      MakeRoomKeeps(m, msgId);
    }
    InsertKeeps(room, Entry(msgId, topicId));
  }

  /** A lookup that finds a topic id finds an entry; every entry of a sorted map
      with a topic id is found. */
  lemma {:induction false} LookupIsEntry(m: seq<Entry>, msgId: U16, topicId: U16)
    requires Sorted(m) && topicId != 0
    ensures Lookup(m, msgId) == topicId <==> Entry(msgId, topicId) in m
  {
    if m == [] {
    } else {
      TailHas(m, msgId);
      assert m == [m[0]] + m[1..];
      LookupIsEntry(m[1..], msgId, topicId);
    }
  }

  class TopicIdMap {
    var entries: seq<Entry>
    const maxInflight: nat

    constructor (max: nat)
      requires max >= 1
      ensures Valid() && entries == [] && maxInflight == max
    {
      entries, maxInflight := [], max;
    }

    ghost predicate Valid()
      reads this
    {
      Sorted(entries) && |entries| <= maxInflight && maxInflight >= 1
    }

    method GetTopicId(msgId: U16) returns (topicId: U16)
      ensures topicId == Lookup(entries, msgId)
    {
      var it := 0;
      while it < |entries|
        invariant 0 <= it <= |entries|
        invariant Lookup(entries, msgId) == Lookup(entries[it..], msgId)
      {
        if entries[it].msgId == msgId {
          return entries[it].topicId;
        }
        assert entries[it..][1..] == entries[it + 1..];
        it := it + 1;
      }
      topicId := 0;
    }

    method AddEntry(msgId: U16, topicId: U16)
      requires Valid()
      modifies this
      ensures Valid() && entries == Add(old(entries), maxInflight, msgId, topicId)
    {
      AddKeeps(entries, maxInflight, msgId, topicId);
      if |entries| >= maxInflight {
        if msgId > entries[|entries| - 1].msgId {
          entries := entries[1..];
        } else {
          entries := EraseLowerBound(entries, msgId);
        }
      }
      entries := Insert(entries, Entry(msgId, topicId));
    }

    method EraseEntry(msgId: U16)
      requires Valid()
      modifies this
      ensures Valid() && entries == Erase(old(entries), msgId)
    {
      EraseKeeps(entries, msgId);
      entries := Erase(entries, msgId);
    }

    method Clear()
      requires Valid()
      modifies this
      ensures Valid() && entries == []
    {
      entries := [];
    }
  }
}
