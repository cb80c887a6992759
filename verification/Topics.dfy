/** The topic registry that the gateway keeps for a client. */
module Topics {
  import opened Bytes
  import opened Wrappers

  const MQTTSN_TOPICID_NORMAL: U16 := 256
  const MQTTSN_TOPIC_TYPE_NORMAL: Byte := 0
  const MQTTSN_TOPIC_TYPE_SHORT: Byte := 2

  /** How many ids getNextTopicId() hands out before it starts again. */
  const CYCLE := 0x1_0000 - 256

  datatype Topic = Topic(id: U16, kind: Byte, name: Str)

  /** The list in the order of registration, and the id given out last. */
  datatype Registry = Registry(list: seq<Topic>, nextTopicId: U16)

  const NO_TOPICS: Registry := Registry([], 0)

  /** The 16-bit counter, which skips the ids below 256. */
  function NextId(last: U16): U16 {
    var id := (last + 1) % 0x1_0000;
    if id < MQTTSN_TOPICID_NORMAL then MQTTSN_TOPICID_NORMAL else id
  }

  function ByName(list: seq<Topic>, name: Str): Option<Topic> {
    if list == [] then None
    else if list[0].name == name then Some(list[0])
    else ByName(list[1..], name)
  }

  function ById(list: seq<Topic>, id: U16, kind: Byte): Option<Topic> {
    if list == [] then None
    else if list[0].id == id && list[0].kind == kind then Some(list[0])
    else ById(list[1..], id, kind)
  }

  /** getTopicId: 0 stands for a name that is not registered. */
  function IdOf(r: Registry, name: Str): U16 {
    var t := ByName(r.list, name);
    if t.Some? then t.value.id else 0
  }

  /** add() of a name. A short topic has no id of its own. */
  function Add(r: Registry, name: Str, kind: Byte): Registry {
    if ByName(r.list, name).Some? then r
    else if kind == MQTTSN_TOPIC_TYPE_SHORT then r.(list := r.list + [Topic(0, kind, name)])
    else Registry(r.list + [Topic(NextId(r.nextTopicId), kind, name)], NextId(r.nextTopicId))
  }

  /** What the gateway calls: every name as a normal topic. */
  function Register(r: Registry, name: Str): Registry {
    Add(r, name, MQTTSN_TOPIC_TYPE_NORMAL)
  }

  /** The id of the k-th name of a session, counted from 0. */
  function IdAt(k: nat): U16 {
    256 + k % CYCLE
  }

  predicate Distinct(list: seq<Topic>) {
    forall i, j :: 0 <= i < j < |list| ==> list[i].name != list[j].name
  }

  predicate Numbered(list: seq<Topic>) {
    forall k :: 0 <= k < |list| ==> list[k].id == IdAt(k) && list[k].kind == MQTTSN_TOPIC_TYPE_NORMAL
  }

  predicate WellFormed(r: Registry) {
    && Distinct(r.list)
    && Numbered(r.list)
    && r.nextTopicId == if r.list == [] then 0 else IdAt(|r.list| - 1)
  }

  /** A short topic that is not there yet joins the list behind the others without an id, and
      leaves the ids of the others to come as they are. */
  lemma ShortTopicAdded(r: Registry, name: Str)
    requires forall k :: 0 <= k < |r.list| ==> r.list[k].name != name
    ensures var s := Add(r, name, 2);
            s.list == r.list + [Topic(0, 2, name)] && s.nextTopicId == r.nextTopicId
  {
    ByNameFinds(r.list, name);
  }

  lemma NextIdAt(k: nat)
    ensures NextId(IdAt(k)) == IdAt(k + 1)
  {
    if (k + 1) % CYCLE == 0 {
      assert k % CYCLE == CYCLE - 1;
    } else {
      assert (k + 1) % CYCLE == k % CYCLE + 1;
    }
  }

  lemma {:induction false} ByNameFinds(list: seq<Topic>, name: Str)
    ensures ByName(list, name).None? ==> forall k :: 0 <= k < |list| ==> list[k].name != name
    ensures ByName(list, name).Some? ==> ByName(list, name).value in list && ByName(list, name).value.name == name
  {
    if list == [] || list[0].name == name {
    } else {
      ByNameFinds(list[1..], name);
      assert forall k :: 1 <= k < |list| ==> list[k] == list[1..][k - 1];
    }
  }

  lemma {:induction false} ByNameIs(list: seq<Topic>, k: nat)
    requires k < |list| && Distinct(list)
    ensures ByName(list, list[k].name) == Some(list[k])
  {
    if k == 0 {
    } else {
      assert forall i :: 0 <= i < |list[1..]| ==> list[1..][i] == list[i + 1];
      ByNameIs(list[1..], k - 1);
    }
  }

  /** Lookup by id stops at the first topic that has it. */
  lemma {:induction false} ByIdFirst(list: seq<Topic>, id: U16, kind: Byte, k: nat)
    requires k < |list| && list[k].id == id && list[k].kind == kind
    requires forall i :: 0 <= i < k ==> list[i].id != id
    ensures ById(list, id, kind) == Some(list[k])
  {
    if k == 0 {
    } else {
      assert forall i :: 0 <= i < |list[1..]| ==> list[1..][i] == list[i + 1];
      ByIdFirst(list[1..], id, kind, k - 1);
    }
  }

  /** What a lookup by id returns is a registered topic with that id. */
  lemma {:induction false} ByIdFinds(list: seq<Topic>, id: U16, kind: Byte)
    ensures ById(list, id, kind).Some? ==>
              ById(list, id, kind).value in list && ById(list, id, kind).value.id == id
                    && ById(list, id, kind).value.kind == kind
  {
    if list == [] || (list[0].id == id && list[0].kind == kind) {
    } else {
      ByIdFinds(list[1..], id, kind);
    }
  }

  /** Registering a name keeps the registry well formed, changes no topic that is
      there, and the name then has an id: its old one, or the next in turn. */
  lemma RegisterKeeps(r: Registry, name: Str)
    requires WellFormed(r)
    ensures var s := Register(r, name);
            WellFormed(s) && r.list <= s.list
            && (if IdOf(r, name) != 0 then s == r
                else s.list == r.list + [Topic(IdAt(|r.list|), MQTTSN_TOPIC_TYPE_NORMAL, name)])
    ensures IdOf(Register(r, name), name) == (if IdOf(r, name) != 0 then IdOf(r, name) else IdAt(|r.list|))
    ensures IdOf(Register(r, name), name) >= 256
  {
    ByNameFinds(r.list, name);
    if ByName(r.list, name).None? {
      var s := Register(r, name);
      if r.list != [] {
        NextIdAt(|r.list| - 1);
      }
      ByNameIs(s.list, |r.list|);
    }
  }

  /** In a session of `n` names, a lookup by id. */
  predicate IdsNameTheirTopics(r: Registry) {
    forall k :: 0 <= k < |r.list| ==> ById(r.list, r.list[k].id, MQTTSN_TOPIC_TYPE_NORMAL) == Some(r.list[k])
  }

  predicate IdsDistinct(r: Registry) {
    forall i, j :: 0 <= i < j < |r.list| ==> r.list[i].id != r.list[j].id
  }

  /** Names and ids are in bijection, and a lookup by id returns the registered
      name, exactly as long as no more than 65280 names have been registered. */
  lemma BijectionExactly(r: Registry)
    requires WellFormed(r)
    ensures IdsDistinct(r) && IdsNameTheirTopics(r) <==> |r.list| <= CYCLE
    ensures |r.list| > CYCLE ==> !IdsDistinct(r) && !IdsNameTheirTopics(r)
  {
    if |r.list| <= CYCLE {
      assert IdsDistinct(r) by {
        assert forall k :: 0 <= k < |r.list| ==> r.list[k].id == 256 + k;
      }
      forall k | 0 <= k < |r.list| ensures ById(r.list, r.list[k].id, MQTTSN_TOPIC_TYPE_NORMAL) == Some(r.list[k]) {
        ByIdFirst(r.list, r.list[k].id, MQTTSN_TOPIC_TYPE_NORMAL, k);
      }
    } else {
      assert r.list[0].id == r.list[CYCLE].id == 256;
      ByIdFirst(r.list, 256, MQTTSN_TOPIC_TYPE_NORMAL, 0);
      assert r.list[0].name != r.list[CYCLE].name;
    }
  }

  function RegisterAll(names: seq<Str>): Registry {
    if names == [] then NO_TOPICS else Register(RegisterAll(names[..|names| - 1]), names[|names| - 1])
  }

  /** Over a whole session: whatever names are registered, and however often, each
      has an id of at least 256 that later registrations do not change. */
  lemma {:induction false} SessionKeepsIds(names: seq<Str>, n: nat, name: Str)
    requires n <= |names| && name in names[..n]
    ensures WellFormed(RegisterAll(names))
    ensures IdOf(RegisterAll(names), name) == IdOf(RegisterAll(names[..n]), name) >= 256
    decreases |names|
  {
    var last := names[|names| - 1];
    var before := names[..|names| - 1];
    SessionWellFormed(before);
    RegisterKeeps(RegisterAll(before), last);
    if n < |names| {
      assert before[..n] == names[..n];
      SessionKeepsIds(before, n, name);
      StillThere(RegisterAll(before), Register(RegisterAll(before), last), name);
    } else {
      assert names[..n] == names;
      if name != last {
        assert before[..|before|] == before;
        assert name in before;
        SessionKeepsIds(before, |before|, name);
        StillThere(RegisterAll(before), Register(RegisterAll(before), last), name);
      }
    }
  }

  lemma {:induction false} SessionWellFormed(names: seq<Str>)
    ensures WellFormed(RegisterAll(names))
    decreases |names|
  {
    if names != [] {
      SessionWellFormed(names[..|names| - 1]);
      RegisterKeeps(RegisterAll(names[..|names| - 1]), names[|names| - 1]);
    }
  }

  lemma StillThere(r: Registry, s: Registry, name: Str)
    requires WellFormed(r) && WellFormed(s) && r.list <= s.list && IdOf(r, name) != 0
    ensures IdOf(s, name) == IdOf(r, name) >= 256
  {
    ByNameFinds(r.list, name);
    var k :| 0 <= k < |r.list| && r.list[k] == ByName(r.list, name).value;
    ByNameIs(s.list, k);
  }

  class Topics {
    var list: seq<Topic>
    var nextTopicId: U16

    constructor ()
      ensures Now() == NO_TOPICS
    {
      list, nextTopicId := [], 0;
    }

    ghost function Now(): Registry
      reads this
    {
      Registry(list, nextTopicId)
    }

    method GetTopicByName(name: Str) returns (t: Option<Topic>)
      ensures t == ByName(list, name)
    {
      var p := 0;
      while p < |list|
        invariant 0 <= p <= |list|
        invariant ByName(list, name) == ByName(list[p..], name)
      {
        if list[p].name == name {
          return Some(list[p]);
        }
        assert list[p..][1..] == list[p + 1..];
        p := p + 1;
      }
      t := None;
    }

    method GetTopicId(name: Str) returns (id: U16)
      ensures id == IdOf(Now(), name)
    {
      var t := GetTopicByName(name);
      id := if t.Some? then t.value.id else 0;
    }

    method GetTopicById(id: U16, kind: Byte) returns (t: Option<Topic>)
      ensures t == ById(list, id, kind)
    {
      var p := 0;
      while p < |list|
        invariant 0 <= p <= |list|
        invariant ById(list, id, kind) == ById(list[p..], id, kind)
      {
        if list[p].id == id && list[p].kind == kind {
          return Some(list[p]);
        }
        assert list[p..][1..] == list[p + 1..];
        p := p + 1;
      }
      t := None;
    }

    method GetNextTopicId() returns (id: U16)
      modifies this`nextTopicId
      ensures id == nextTopicId == NextId(old(nextTopicId))
    {
      nextTopicId := (nextTopicId + 1) % 0x1_0000;
      if nextTopicId < MQTTSN_TOPICID_NORMAL {
        nextTopicId := MQTTSN_TOPICID_NORMAL;
      }
      id := nextTopicId;
    }

    method AddTopic(name: Str, kind: Byte) returns (elm: Topic)
      modifies this
      ensures Now() == Add(old(Now()), name, kind)
      ensures ByName(old(list), name).Some? ==> elm == ByName(old(list), name).value
      ensures ByName(old(list), name).None? ==> list == old(list) + [elm] && elm.name == name
    {
      var found := GetTopicByName(name);
      if found.Some? {
        return found.value;
      }
      var id: U16 := 0;
      if kind != MQTTSN_TOPIC_TYPE_SHORT {
        id := GetNextTopicId();
      }
      elm := Topic(id, kind, name);
      list := list + [elm];
    }
  }
}
