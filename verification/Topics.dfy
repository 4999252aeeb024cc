/** Topic subscriptions: a table of at most 32 topics, each with at most 64 subscribers. */
module Topics {
  import opened A2aSpec

  const MAX_TOPICS: nat := 32
  const MAX_SUBS: nat := 64
  /** A stored name holds 31 characters and a terminator. */
  const NAME_MAX: nat := 31

  datatype Topic = Topic(name: string, subs: seq<nat>)

  function Truncate(name: string): string {
    if |name| <= NAME_MAX then name else name[..NAME_MAX]
  }

  /** Index of the first topic of that name, or |topics|. */
  function Find(topics: seq<Topic>, name: string): (i: nat)
    ensures i <= |topics|
    ensures i < |topics| ==> topics[i].name == name
    ensures forall j :: 0 <= j < i ==> topics[j].name != name
  {
    if topics == [] then 0
    else if topics[0].name == name then 0
    else 1 + Find(topics[1..], name)
  }

  /** Who a broadcast to `name` goes to. */
  function Subscribers(topics: seq<Topic>, name: string): seq<nat> {
    var i := Find(topics, name);
    if i < |topics| then topics[i].subs else []
  }

  lemma {:induction false} FindIs(topics: seq<Topic>, name: string, i: nat)
    requires i <= |topics| && (i < |topics| ==> topics[i].name == name)
    requires forall j :: 0 <= j < i ==> topics[j].name != name
    ensures Find(topics, name) == i
  {
  }

  predicate NoDup(s: seq<nat>) {
    forall i, j :: 0 <= i < j < |s| ==> s[i] != s[j]
  }

  predicate TopicOk(t: Topic) {
    0 < |t.name| <= NAME_MAX && NoDup(t.subs) && |t.subs| <= MAX_SUBS
  }

  /** No name is longer than its field, and no topic lists a subscriber twice. */
  predicate TopicsOk(topics: seq<Topic>) {
    |topics| <= MAX_TOPICS && forall i :: 0 <= i < |topics| ==> TopicOk(topics[i])
  }

  lemma NoTopicsOk()
    ensures TopicsOk([])
  {
  }

  predicate NamesDistinct(topics: seq<Topic>) {
    forall i, j :: 0 <= i < j < |topics| ==> topics[i].name != topics[j].name
  }

  /** The subscriber list with `id` in it. */
  function With(subs: seq<nat>, id: nat): seq<nat> {
    if id in subs then subs else subs + [id]
  }

  /** The table and status after a subscription. */
  function Subscribed(topics: seq<Topic>, id: nat, name: string): (seq<Topic>, Status) {
    var i := Find(topics, name);
    if i == |topics| then
      if |topics| >= MAX_TOPICS then (topics, Overflow)
      else (topics + [Topic(Truncate(name), [id])], Ok)
    else if id !in topics[i].subs && |topics[i].subs| >= MAX_SUBS then (topics, Overflow)
    else (topics[i := topics[i].(subs := With(topics[i].subs, id))], Ok)
  }

  function Unsubscribed(topics: seq<Topic>, id: nat, name: string): (seq<Topic>, Status) {
    var i := Find(topics, name);
    if i == |topics| || id !in topics[i].subs then (topics, NotFound)
    else (topics[i := topics[i].(subs := Less(topics[i].subs, id))], Ok)
  }

  /** The subscriber list without its first `id`. */
  function Less(subs: seq<nat>, id: nat): seq<nat> {
    if subs == [] then [] else if subs[0] == id then subs[1..] else [subs[0]] + Less(subs[1..], id)
  }

  lemma {:induction false} LessAt(subs: seq<nat>, id: nat, k: nat)
    requires k < |subs| && subs[k] == id && forall j :: 0 <= j < k ==> subs[j] != id
    ensures Less(subs, id) == subs[..k] + subs[k + 1..]
  {
    if k > 0 {
      LessAt(subs[1..], id, k - 1);
    }
  }

  /** In a list without duplicates, exactly `id` goes and the others keep their order. */
  lemma {:induction false} LessExact(subs: seq<nat>, id: nat)
    requires NoDup(subs)
    ensures NoDup(Less(subs, id)) && id !in Less(subs, id)
    ensures forall x :: x != id ==> (x in Less(subs, id) <==> x in subs)
    ensures |Less(subs, id)| <= |subs|
  {
    if subs != [] && subs[0] != id {
      LessExact(subs[1..], id);
      assert NoDup(Less(subs[1..], id)) && subs[0] !in subs[1..];
    }
  }

  lemma SubscribeKeepsOk(topics: seq<Topic>, id: nat, name: string)
    requires TopicsOk(topics) && name != ""
    ensures TopicsOk(Subscribed(topics, id, name).0)
    ensures |name| <= NAME_MAX && NamesDistinct(topics) ==> NamesDistinct(Subscribed(topics, id, name).0)
  {
    var t := Subscribed(topics, id, name).0;
    forall i | 0 <= i < |t|
      ensures TopicOk(t[i])
    {
    }
  }

  lemma UnsubscribeKeepsOk(topics: seq<Topic>, id: nat, name: string)
    requires TopicsOk(topics)
    ensures TopicsOk(Unsubscribed(topics, id, name).0)
    ensures NamesDistinct(topics) ==> NamesDistinct(Unsubscribed(topics, id, name).0)
  {
    var i := Find(topics, name);
    if i < |topics| {
      assert TopicOk(topics[i]);
      LessExact(topics[i].subs, id);
    }
  }

  /** A stored name that is too long to have been stored whole is never found. */
  lemma LongNamesUnknown(topics: seq<Topic>, name: string)
    requires TopicsOk(topics) && |name| > NAME_MAX
    ensures Find(topics, name) == |topics| && Subscribers(topics, name) == []
  {
    forall i | 0 <= i < |topics|
      ensures topics[i].name != name
    {
      assert TopicOk(topics[i]);
    }
  }

  /**
   * After a successful subscription a broadcast to the same name reaches the agent exactly when the
   * name has at most 31 characters: a longer one is cut off when stored, and then never matches.
   */
  lemma SubscriptionReachesIff(topics: seq<Topic>, id: nat, name: string)
    requires TopicsOk(topics) && name != "" && Subscribed(topics, id, name).1 == Ok
    ensures id in Subscribers(Subscribed(topics, id, name).0, name) <==> |name| <= NAME_MAX
  {
    var t, i := Subscribed(topics, id, name).0, Find(topics, name);
    SubscribeKeepsOk(topics, id, name);
    if |name| <= NAME_MAX {
      FindIs(t, name, i);
    } else {
      LongNamesUnknown(t, name);
    }
  }

  /** A subscription changes only its own topic's list: it adds the agent at the end if it was not there. */
  lemma SubscribeExact(topics: seq<Topic>, id: nat, name: string, other: string)
    requires TopicsOk(topics) && name != "" && |name| <= NAME_MAX && Subscribed(topics, id, name).1 == Ok
    ensures Subscribers(Subscribed(topics, id, name).0, other) ==
            if other == name then With(Subscribers(topics, name), id) else Subscribers(topics, other)
  {
    var t, i, j := Subscribed(topics, id, name).0, Find(topics, name), Find(topics, other);
    if other == name {
      FindIs(t, name, i);
    } else if j < |topics| {
      FindIs(t, other, j);
    } else {
      FindIs(t, other, |t|);
    }
  }

  lemma UnsubscribeExact(topics: seq<Topic>, id: nat, name: string, other: string)
    ensures Subscribers(Unsubscribed(topics, id, name).0, other) ==
            if other == name then Less(Subscribers(topics, name), id) else Subscribers(topics, other)
  {
    var t, i, j := Unsubscribed(topics, id, name).0, Find(topics, name), Find(topics, other);
    FindIs(t, other, j);
    if i < |topics| && id !in topics[i].subs {
      LessAbsent(topics[i].subs, id);
    }
  }

  lemma {:induction false} LessAbsent(subs: seq<nat>, id: nat)
    requires id !in subs
    ensures Less(subs, id) == subs
  {
    if subs != [] {
      LessAbsent(subs[1..], id);
    }
  }

  /** Unsubscribing undoes a new subscription, for every topic. */
  lemma UnsubscribeUndoes(topics: seq<Topic>, id: nat, name: string, other: string)
    requires TopicsOk(topics) && name != "" && |name| <= NAME_MAX
    requires Subscribed(topics, id, name).1 == Ok && id !in Subscribers(topics, name)
    ensures Subscribers(Unsubscribed(Subscribed(topics, id, name).0, id, name).0, other) == Subscribers(topics, other)
  {
    var subs := Subscribers(topics, name);
    SubscribeExact(topics, id, name, name);
    SubscribeExact(topics, id, name, other);
    UnsubscribeExact(Subscribed(topics, id, name).0, id, name, other);
    LessAt(subs + [id], id, |subs|);
  }

  class TopicTable {
    var topics: seq<Topic>

    constructor ()
      ensures topics == []
    {
      topics := [];
    }

    method FindByName(name: string) returns (i: nat)
      ensures i == Find(topics, name)
    {
      i := 0;
      while i < |topics|
        invariant i <= |topics| && forall j :: 0 <= j < i ==> topics[j].name != name
      {
        if topics[i].name == name {
          break;
        }
        i := i + 1;
      }
      FindIs(topics, name, i);
    }

    /** The first topic of that name; a new one when there is none and the table has room. */
    method FindOrCreate(name: string) returns (i: nat)
      modifies this
      ensures i == Find(old(topics), name)
      ensures topics == if i == |old(topics)| && i < MAX_TOPICS then old(topics) + [Topic(Truncate(name), [])] else old(topics)
    {
      i := FindByName(name);
      if i == |topics| && |topics| < MAX_TOPICS {
        topics := topics + [Topic(Truncate(name), [])];
      }
    }

    method Subscribe(id: nat, name: string) returns (st: Status)
      requires TopicsOk(topics) && name != ""
      modifies this
      ensures TopicsOk(topics) && (topics, st) == Subscribed(old(topics), id, name)
    {
      SubscribeKeepsOk(topics, id, name);
      var i := FindOrCreate(name);
      if i == |topics| {
        return Overflow;
      }
      var subs := topics[i].subs;
      for k := 0 to |subs|
        invariant id !in subs[..k]
      {
        if subs[k] == id {
          assert topics[i := topics[i].(subs := subs)] == topics;
          return Ok;
        }
      }
      assert subs[..|subs|] == subs;
      if |subs| >= MAX_SUBS {
        return Overflow;
      }
      topics := topics[i := topics[i].(subs := subs + [id])];
      if i == |old(topics)| {
        assert subs == [] && subs + [id] == [id];
        assert topics == old(topics) + [Topic(Truncate(name), [id])];
      }
      return Ok;
    }

    /** Remove the agent from the list by shifting the later ones down. */
    method Unsubscribe(id: nat, name: string) returns (st: Status)
      requires TopicsOk(topics)
      modifies this
      ensures TopicsOk(topics) && (topics, st) == Unsubscribed(old(topics), id, name)
    {
      UnsubscribeKeepsOk(topics, id, name);
      var i := FindByName(name);
      if i == |topics| {
        return NotFound;
      }
      var subs := topics[i].subs;
      for k := 0 to |subs|
        invariant id !in subs[..k]
      {
        if subs[k] == id {
          var s := subs;
          for j := k to |subs| - 1
            invariant |s| == |subs| && s[..k] == subs[..k]
            invariant forall l :: k <= l < j ==> s[l] == subs[l + 1]
            invariant forall l :: j <= l < |subs| ==> s[l] == subs[l]
          {
            s := s[j := s[j + 1]];
          }
          s := s[..|subs| - 1];
          assert s == subs[..k] + subs[k + 1..];
          assert forall j :: 0 <= j < k ==> subs[..k][j] != id;
          LessAt(subs, id, k);
          topics := topics[i := topics[i].(subs := s)];
          return Ok;
        }
      }
      assert subs[..|subs|] == subs;
      return NotFound;
    }
  }
}
