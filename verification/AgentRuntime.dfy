/** The agent runtime: lifecycle and messaging over 64 agent slots, a message pool and the topics. */
module AgentRuntime {
  import opened A2aSpec
  import opened Sums
  import opened MsgPools
  import opened AgentSlots
  import T = Topics

  /** What became of a message for slot `t`: delivered, refused by a full inbox, or not allocated. */
  ghost predicate Outcome(was: seq<Agent>, now: seq<Agent>, t: nat, m: Msg, st: Status)
    requires t < |was|
  {
    match st
    case Ok => |was[t].box| < INBOX && now == was[t := Received(was[t], m)]
    case Overflow => |was[t].box| == INBOX && now == was
    case NoMem => now == was
    case _ => false
  }

  /** A message for `target` after the checks `c`: refused by them, or sent on its way. */
  ghost predicate Attempt(c: Status, was: seq<Agent>, now: seq<Agent>, target: nat, m: Msg, st: Status) {
    if c != Ok then st == c && now == was
    else FIRST_ID <= target < FIRST_ID + |was| && Outcome(was, now, target - FIRST_ID, m, st)
  }

  lemma PostResult(was: seq<Agent>, now: seq<Agent>, t: nat, m: Msg, id: nat, st: Status)
    requires t < |was| && |was[t].box| <= INBOX
    requires st == NoMem || st == if |was[t].box| >= INBOX then Overflow else Ok
    requires now == if st == Ok then was[t := Received(was[t], m.(id := id))] else was
    ensures Outcome(was, now, t, m.(id := id), st)
  {
  }

  lemma OutcomeOk(was: seq<Agent>, now: seq<Agent>, t: nat, m: Msg)
    requires t < |was| && Outcome(was, now, t, m, Ok)
    ensures |was[t].box| < INBOX && now == was[t := Received(was[t], m)]
  {
  }

  /** The checks of a send, in the source's order. */
  function SendChecks(agents: seq<Agent>, sender: nat, target: nat, length: nat): Status {
    if length > MAX_PAYLOAD then Overflow
    else if !IsActive(agents, sender) || !IsActive(agents, target) then NotFound
    else if !MayCommunicate(agents[sender - FIRST_ID]) then Denied
    else if sender == target then Invalid
    else Ok
  }

  /** The answer to a message: it goes back to its sender and names it. */
  function ReplyTo(m: Msg, id: nat, payload: seq<bv8>, time: nat): Msg {
    Msg(id, m.id, Reply, m.target, m.sender, time, m.deadline, m.priority, m.topic, payload)
  }

  /** The checks of a reply from `sender` to `target`. */
  function ReplyChecks(agents: seq<Agent>, sender: nat, target: nat, length: nat): Status {
    if length > MAX_PAYLOAD then Overflow
    else if !IsActive(agents, sender) then NotFound
    else if !MayCommunicate(agents[sender - FIRST_ID]) then Denied
    else if !IsActive(agents, target) then NotFound
    else Ok
  }

  function DelegateChecks(agents: seq<Agent>, from: nat, to: nat, length: nat): Status {
    if ReplyChecks(agents, from, to, length) != Ok then ReplyChecks(agents, from, to, length)
    else if from == to then Invalid
    else if |agents[from - FIRST_ID].delegations| >= MAX_DELEGATIONS then Overflow
    else Ok
  }

  /** A delegation after the checks `c`: besides the delivery, the delegator tracks the task. */
  ghost predicate TaskAttempt(c: Status, was: seq<Agent>, now: seq<Agent>, from: nat, to: nat, m: Msg, st: Status) {
    if c != Ok then st == c && now == was
    else
      FIRST_ID <= from < FIRST_ID + |was| && FIRST_ID <= to < FIRST_ID + |was| &&
      HandedOver(was, now, from - FIRST_ID, to - FIRST_ID, m, st)
  }

  lemma TaskRefused(c: Status, was: seq<Agent>, from: nat, to: nat, m: Msg)
    requires c != Ok
    ensures TaskAttempt(c, was, was, from, to, m, c)
  {
  }

  lemma TaskMade(was: seq<Agent>, now: seq<Agent>, f: nat, t: nat, m: Msg, st: Status)
    requires f < |was| && t < |was| && HandedOver(was, now, f, t, m, st)
    ensures TaskAttempt(Ok, was, now, f + FIRST_ID, t + FIRST_ID, m, st)
  {
  }

  /** Slot `t` received the task `m` and slot `f` tracks it, or nothing happened. */
  ghost predicate HandedOver(was: seq<Agent>, now: seq<Agent>, f: nat, t: nat, m: Msg, st: Status)
    requires f < |was| && t < |was|
  {
    match st
    case Ok =>
      |was[t].box| < INBOX && now == was[t := Received(was[t], m)][f := Tracking(was[f], m.id, m.target)]
    case Overflow => |was[t].box| == INBOX && now == was
    case NoMem => now == was
    case _ => false
  }

  lemma HandedOverIs(was: seq<Agent>, now: seq<Agent>, f: nat, t: nat, m: Msg, st: Status)
    requires f < |was| && t < |was|
    requires st == Ok ==>
      |was[t].box| < INBOX && now == was[t := Received(was[t], m)][f := Tracking(was[f], m.id, m.target)]
    requires st != Ok ==> Outcome(was, now, t, m, st)
    ensures HandedOver(was, now, f, t, m, st)
  {
  }

  /** The checks of a delegation result before the search for the delegator. */
  function ResultChecks(agents: seq<Agent>, worker: nat, length: nat): Status {
    if length > MAX_PAYLOAD then Overflow
    else if !IsActive(agents, worker) then NotFound
    else if !MayCommunicate(agents[worker - FIRST_ID]) then Denied
    else Ok
  }

  /** Slot `i` is the first that tracks delegation `id`, at index `k` for the first time. */
  ghost predicate FirstTracker(agents: seq<Agent>, id: nat, i: nat, k: nat) {
    i < |agents| && agents[i].active && k < |agents[i].delegations| && agents[i].delegations[k].id == id &&
    (forall j :: 0 <= j < i ==> !TracksId(agents[j], id)) &&
    forall l :: 0 <= l < k ==> agents[i].delegations[l].id != id
  }

  /** A delegation result after the checks `c`: it goes to the first tracker, whose delegation is closed even if the inbox is full. */
  ghost predicate ResultAttempt(c: Status, was: seq<Agent>, now: seq<Agent>, id: nat, i: nat, k: nat, m: Msg, st: Status) {
    if c != Ok then st == c && now == was
    else if st == NotFound then now == was && NoTracker(was, id)
    else FirstTracker(was, id, i, k) && Finished(was, now, i, k, m, st)
  }

  /** The outcome `st` of the checks `c` and the search: Ok when slot `i` tracks the delegation. */
  ghost predicate Prepared(c: Status, agents: seq<Agent>, id: nat, i: nat, k: nat, st: Status) {
    if c != Ok then st == c
    else if st == NotFound then NoTracker(agents, id)
    else st == Ok && FirstTracker(agents, id, i, k)
  }

  lemma AttemptRefused(c: Status, was: seq<Agent>, id: nat, i: nat, k: nat, m: Msg, st: Status)
    requires Prepared(c, was, id, i, k, st) && st != Ok
    ensures ResultAttempt(c, was, was, id, i, k, m, st)
  {
  }

  lemma AttemptMade(c: Status, was: seq<Agent>, now: seq<Agent>, id: nat, i: nat, k: nat, m: Msg, st: Status)
    requires Prepared(c, was, id, i, k, Ok) && Finished(was, now, i, k, m, st)
    ensures ResultAttempt(c, was, now, id, i, k, m, st)
  {
  }

  lemma PreparedBounds(c: Status, agents: seq<Agent>, id: nat, i: nat, k: nat)
    requires Prepared(c, agents, id, i, k, Ok)
    ensures i < |agents| && agents[i].active && k < |agents[i].delegations|
  {
  }

  ghost predicate NoTracker(agents: seq<Agent>, id: nat) {
    forall j :: 0 <= j < |agents| ==> !TracksId(agents[j], id)
  }

  ghost predicate Finished(was: seq<Agent>, now: seq<Agent>, i: nat, k: nat, m: Msg, st: Status) {
    i < |was| && k < |was[i].delegations| &&
    match st
    case Ok => |was[i].box| < INBOX && now == was[i := Resumed(Received(Closing(was[i], k), m))]
    case Overflow => |was[i].box| == INBOX && now == was[i := Closing(was[i], k)]
    case NoMem => now == was[i := Closing(was[i], k)]
    case _ => false
  }

  lemma FinishedIs(was: seq<Agent>, closed: seq<Agent>, now: seq<Agent>, i: nat, k: nat, m: Msg, st: Status)
    requires i < |was| && k < |was[i].delegations| && closed == was[i := Closing(was[i], k)]
    requires if st == Ok then |closed[i].box| < INBOX && now == closed[i := Received(closed[i], m)][i := Resumed(Received(closed[i], m))]
             else Outcome(closed, now, i, m, st)
    ensures Finished(was, now, i, k, m, st)
  {
  }

  lemma ClosingActive(a: Agent, k: nat)
    requires k < |a.delegations|
    ensures Closing(a, k).active == a.active
  {
  }

  lemma ReceivedActive(a: Agent, m: Msg)
    ensures Received(a, m).active == a.active
  {
  }

  function BroadcastChecks(agents: seq<Agent>, sender: nat, topic: string, length: nat): Status {
    if topic == "" then Invalid else ResultChecks(agents, sender, length)
  }

  lemma BroadcastChecksIs(agents: seq<Agent>, sender: nat, topic: string, length: nat)
    ensures BroadcastChecks(agents, sender, topic, length) ==
            if topic == "" then Invalid else ResultChecks(agents, sender, length)
  {
  }

  /** The copy of a broadcast for slot `j`. */
  function Copy(m: Msg, j: nat, id: nat): Msg {
    m.(id := id, target := j + FIRST_ID)
  }

  /** Slot `j`, listed as a subscriber: an active agent with room, other than the sender, gets one copy, unless allocation failed. */
  ghost predicate Served(was: Agent, now: Agent, j: nat, m: Msg, oom: bool) {
    if was.active && j + FIRST_ID != m.sender && |was.box| < INBOX
    then (exists id: nat :: now == Received(was, Copy(m, j, id))) || (oom && now == was)
    else now == was
  }

  /** A broadcast to `subs`: subscribers are served, no one else changes. */
  ghost predicate Spread(was: seq<Agent>, now: seq<Agent>, subs: seq<nat>, m: Msg, oom: bool) {
    |was| == |now| &&
    forall j :: 0 <= j < |was| ==> if j + FIRST_ID in subs then Served(was[j], now[j], j, m, oom) else now[j] == was[j]
  }

  lemma ServedOom(was: Agent, now: Agent, j: nat, m: Msg, oom: bool)
    requires Served(was, now, j, m, oom)
    ensures Served(was, now, j, m, true)
  {
  }

  /** One more subscriber. */
  lemma SpreadStep(was: seq<Agent>, now: seq<Agent>, subs: seq<nat>, m: Msg, oom: bool, s: nat, next: seq<Agent>, oom': bool)
    requires Spread(was, now, subs, m, oom) && s !in subs && (oom ==> oom')
    requires |next| == |now|
    requires forall j :: 0 <= j < |now| && j + FIRST_ID != s ==> next[j] == now[j]
    requires FIRST_ID <= s < FIRST_ID + |now| ==> Served(was[s - FIRST_ID], next[s - FIRST_ID], s - FIRST_ID, m, oom')
    ensures Spread(was, next, subs + [s], m, oom')
  {
    hide Served;
    forall j | 0 <= j < |was|
      ensures if j + FIRST_ID in subs + [s] then Served(was[j], next[j], j, m, oom') else next[j] == was[j]
    {
      if j + FIRST_ID in subs && oom' {
        ServedOom(was[j], now[j], j, m, oom);
      }
    }
  }

  /** One of the heap requests from `lo` up to `hi` fails. */
  ghost predicate HeapFailed(calloc: nat -> bool, lo: nat, hi: nat) {
    exists n :: lo <= n < hi && !calloc(n)
  }

  lemma HeapFailedAt(calloc: nat -> bool, n: nat, hi: nat)
    requires n < hi && !calloc(n)
    ensures HeapFailed(calloc, n, hi)
  {
  }

  lemma SpreadNone(was: seq<Agent>, m: Msg)
    ensures Spread(was, was, [], m, false)
  {
  }

  lemma SpreadRest(was: seq<Agent>, now: seq<Agent>, subs: seq<nat>, m: Msg, oom: bool, s: nat)
    requires Spread(was, now, subs, m, oom) && s !in subs
    ensures |was| == |now| && (FIRST_ID <= s < FIRST_ID + |now| ==> now[s - FIRST_ID] == was[s - FIRST_ID])
  {
    hide Served;
    if FIRST_ID <= s < FIRST_ID + |now| {
      assert s - FIRST_ID + FIRST_ID !in subs;
    }
  }

  /** Serving `s` changes nothing for the others. */
  ghost predicate OneServed(was: seq<Agent>, now: seq<Agent>, next: seq<Agent>, s: nat, m: Msg, failed: bool) {
    |was| == |now| == |next| &&
    (forall j :: 0 <= j < |now| && j + FIRST_ID != s ==> next[j] == now[j]) &&
    (FIRST_ID <= s < FIRST_ID + |now| ==> Served(was[s - FIRST_ID], next[s - FIRST_ID], s - FIRST_ID, m, failed))
  }

  lemma ServeSkips(was: seq<Agent>, now: seq<Agent>, s: nat, m: Msg)
    requires |was| == |now| && (FIRST_ID <= s < FIRST_ID + |now| ==> now[s - FIRST_ID] == was[s - FIRST_ID])
    requires s == m.sender || !(FIRST_ID <= s < FIRST_ID + |now| && now[s - FIRST_ID].active)
    ensures OneServed(was, now, now, s, m, false)
  {
  }

  lemma ServePosts(was: seq<Agent>, now: seq<Agent>, next: seq<Agent>, t: nat, m: Msg, id: nat, st: Status)
    requires |was| == |now| && t < |now| && now[t] == was[t] && was[t].active && t + FIRST_ID != m.sender
    requires Outcome(now, next, t, m.(target := t + FIRST_ID).(id := id), st)
    ensures OneServed(was, now, next, t + FIRST_ID, m, st == NoMem)
  {
    hide Received;
    assert m.(target := t + FIRST_ID).(id := id) == Copy(m, t, id);
  }

  lemma SpreadServe(was: seq<Agent>, now: seq<Agent>, subs: seq<nat>, m: Msg, oom: bool, s: nat, next: seq<Agent>, failed: bool)
    requires Spread(was, now, subs, m, oom) && s !in subs && OneServed(was, now, next, s, m, failed)
    ensures Spread(was, next, subs + [s], m, oom || failed)
  {
    hide Served, Spread;
    assert |was| == |now| by {
      SpreadRest(was, now, subs, m, oom, s);
    }
    if FIRST_ID <= s < FIRST_ID + |now| && (oom || failed) {
      ServedOom(was[s - FIRST_ID], next[s - FIRST_ID], s - FIRST_ID, m, failed);
    }
    SpreadStep(was, now, subs, m, oom, s, next, oom || failed);
  }

  /** A broadcast's message; the topic is cut to its 63-character field. */
  function EventFor(sender: nat, topic: string, payload: seq<bv8>, time: nat): Msg {
    Msg(0, 0, Kind.Event, sender, 0, time, 0, 1, if |topic| <= 63 then topic else topic[..63], payload)
  }

  /** When every allocation succeeds, exactly the active subscribers with room other than the sender get a copy, one each. */
  lemma SpreadExact(was: seq<Agent>, now: seq<Agent>, subs: seq<nat>, m: Msg, j: nat)
    requires Spread(was, now, subs, m, false) && j < |was|
    ensures
      if j + FIRST_ID in subs && was[j].active && j + FIRST_ID != m.sender && |was[j].box| < INBOX
      then |now[j].box| == |was[j].box| + 1 && now[j].box[..|was[j].box|] == was[j].box &&
           var c := now[j].box[|was[j].box|]; c == Copy(m, j, c.id)
      else now[j] == was[j]
  {
    if j + FIRST_ID in subs {
      assert Served(was[j], now[j], j, m, false);
    }
  }

  /** Every agent but the first, whose id is reserved, is active. */
  ghost predicate AllActive(agents: seq<Agent>) {
    forall i :: 0 < i < |agents| ==> agents[i].active
  }

  /** A new agent without messages starts in the lowest empty slot but the first. */
  ghost predicate Started(was: seq<Agent>, now: seq<Agent>, i: nat, caps: bv64) {
    0 < i < |was| && was[i] == Gone && now == was[i := Born(caps)] &&
    forall j :: 0 < j < i ==> was[j].active
  }

  /** Empty slots, each with its own inbox; `all` is their objects. */
  method NewSlots() returns (qs: seq<AgentSlot>, ghost all: set<object>)
    ensures |qs| == AGENTS && fresh(all)
    ensures forall i :: 0 <= i < AGENTS ==> qs[i] in all && qs[i].inbox in all
    ensures forall i :: 0 <= i < AGENTS ==> Fits(qs[i], [], Gone)
    ensures forall i, j :: 0 <= i < j < AGENTS ==> qs[i] != qs[j] && qs[i].inbox != qs[j].inbox
  {
    hide AgentSlot.Valid;
    qs := [];
    all := {};
    for i := 0 to AGENTS
      invariant |qs| == i && fresh(all)
      invariant forall j :: 0 <= j < i ==> fresh(qs[j]) && fresh(qs[j].inbox) && Fits(qs[j], [], Gone)
      invariant forall j :: 0 <= j < i ==> qs[j] in all && qs[j].inbox in all
      invariant forall j, k :: 0 <= j < k < i ==> qs[j] != qs[k] && qs[j].inbox != qs[k].inbox
    {
      var q := new AgentSlot();
      qs := qs + [q];
      all := all + {q, q.inbox};
    }
  }

  class Runtime {
    var initialized: bool
    var maxAgents: nat
    const slots: seq<AgentSlot>
    const pool: MsgPool
    const table: T.TopicTable
    /** The id bitmap, one flag for each bit. */
    const ids: array<bool>
    var nextId: nat
    var sent: nat
    var recv: nat
    var broadcasts: nat
    var delegated: nat

    /** The agents as values, and the references in their inboxes. */
    ghost var agents: seq<Agent>
    ghost var queues: seq<seq<Ref>>
    /** Ids handed out, and who issued each delegation id. */
    ghost var issued: nat
    ghost var issuer: map<nat, nat>
    /** Messages received by their agents or freed with them. */
    ghost var consumed: nat
    /** The slots and their inboxes. */
    ghost const repr: set<object>

    ghost predicate Shape() {
      |slots| == AGENTS && this !in repr && pool !in repr && pool.messages !in repr && pool.taken !in repr &&
      table !in repr && ids !in repr && ids != pool.taken &&
      (forall i :: 0 <= i < AGENTS ==> slots[i] in repr && slots[i].inbox in repr) &&
      forall i, j :: 0 <= i < j < AGENTS ==> slots[i] != slots[j] && slots[i].inbox != slots[j].inbox
    }

    /** Every slot holds its queue and shows its agent. */
    ghost predicate SlotsOk()
      reads this`agents, this`queues, repr
    {
      Shape() && |agents| == |queues| == AGENTS &&
      forall i :: 0 <= i < AGENTS ==> Fits(slots[i], queues[i], agents[i])
    }

    /** All but the agreement of the two counters, which a broadcast suspends. */
    ghost predicate Core()
      reads this`initialized, this`nextId, this`recv, this`agents, this`queues, this`issued, this`issuer, this`consumed
      reads repr, pool, pool.messages, pool.taken, table, ids
    {
      SlotsOk() && pool.Valid() && IdsOk(ids[..], agents, initialized) && T.TopicsOk(table.topics) &&
      Flow(pool.store, queues, agents, recv, consumed) && AgentsOk(agents, issued, issuer) && Counter(nextId, issued)
    }

    ghost predicate Valid()
      reads this`initialized, this`nextId, this`recv, this`agents, this`queues, this`issued, this`issuer, this`consumed
      reads this`sent, repr, pool, pool.messages, pool.taken, table, ids
    {
      Core() && sent == recv
    }

    constructor (calloc: nat -> bool)
      ensures Valid() && !initialized && pool.calloc == calloc && fresh(repr)
      ensures fresh(pool) && fresh(pool.messages) && fresh(pool.taken) && fresh(table) && fresh(ids)
    {
      hide Fits, MsgPool.Valid, Flow, AgentsOk, Counter;
      var qs, all := NewSlots();
      var p := new MsgPool(calloc);
      var t := new T.TopicTable();
      var b := new bool[AGENTS](_ => false);
      slots, pool, table, ids := qs, p, t, b;
      initialized, maxAgents, nextId, sent, recv, broadcasts, delegated := false, 0, 1, 0, 0, 0, 0;
      agents, queues := seq(AGENTS, _ => Gone), seq(AGENTS, _ => []);
      issued, issuer, consumed := 0, map[], 0;
      repr := all;
      new;
      hide MsgPool.Valid;
      EmptyOk(agents, queues);
    }

    lemma CoreParts()
      requires Core()
      ensures |slots| == |agents| == |queues| == AGENTS && this !in repr && table !in repr && ids !in repr
      ensures pool !in repr && pool.messages !in repr && pool.taken !in repr && ids != pool.taken
      ensures SlotsOk() && pool.Valid() && IdsOk(ids[..], agents, initialized) && T.TopicsOk(table.topics)
      ensures Flow(pool.store, queues, agents, recv, consumed) && AgentsOk(agents, issued, issuer) && Counter(nextId, issued)
    {
    }

    lemma ValidParts()
      requires Valid()
      ensures Core() && sent == recv
    {
    }

    lemma ValidWhole()
      requires Core() && sent == recv
      ensures Valid()
    {
    }

    lemma CoreWhole()
      requires SlotsOk() && pool.Valid() && IdsOk(ids[..], agents, initialized) && T.TopicsOk(table.topics)
      requires Flow(pool.store, queues, agents, recv, consumed) && AgentsOk(agents, issued, issuer) && Counter(nextId, issued)
      ensures Core()
    {
    }

    lemma CoreShape()
      requires Core()
      ensures this !in repr && table !in repr && |agents| == AGENTS
    {
    }

    /** The next message id; 0 is skipped. */
    method GenerateId() returns (id: nat)
      requires Counter(nextId, issued)
      modifies this`nextId, this`issued
      ensures id == IdAt(old(issued)) && issued == old(issued) + 1 && Counter(nextId, issued)
    {
      CounterStep(nextId, issued);
      id := nextId;
      nextId := (nextId + 1) % WRAP;
      if id == 0 {
        id := nextId;
        nextId := (nextId + 1) % WRAP;
      }
      issued := issued + 1;
    }

    /** Put a reference in slot `t`'s inbox, and wake its agent. */
    method Insert(t: nat, r: Ref, m: Msg) returns (st: Status)
      requires SlotsOk() && t < AGENTS
      modifies this`agents, this`queues, slots[t], slots[t].inbox
      ensures SlotsOk() && st == if |old(agents)[t].box| >= INBOX then Overflow else Ok
      ensures st == Ok ==> queues == old(queues)[t := old(queues)[t] + [r]] && agents == old(agents)[t := Received(old(agents)[t], m)]
      ensures st != Ok ==> queues == old(queues) && agents == old(agents)
    {
      hide Fits;
      st := slots[t].Accept(r, queues[t], agents[t], m);
      if st == Ok {
        queues := queues[t := queues[t] + [r]];
        agents := agents[t := Received(agents[t], m)];
      }
      assert forall j :: 0 <= j < AGENTS && j != t ==> old(Fits(slots[j], queues[j], agents[j]));
    }

    /** Take the oldest reference out of slot `t`'s inbox. */
    method Remove(t: nat) returns (st: Status, r: Ref)
      requires SlotsOk() && t < AGENTS
      modifies this`agents, this`queues, slots[t], slots[t].inbox
      ensures SlotsOk() && st == if old(agents)[t].box == [] then Timeout else Ok
      ensures st == Ok ==> old(queues)[t] != [] && r == old(queues)[t][0] && queues == old(queues)[t := old(queues)[t][1..]]
      ensures st == Ok ==> agents == old(agents)[t := Taking(old(agents)[t])]
      ensures st != Ok ==> queues == old(queues) && agents == old(agents)
    {
      assert Fits(slots[t], queues[t], agents[t]);
      hide Fits;
      st, r := slots[t].Yield(queues[t], agents[t]);
      if st == Ok {
        queues := queues[t := queues[t][1..]];
        agents := agents[t := Taking(agents[t])];
      }
      assert forall j :: 0 <= j < AGENTS && j != t ==> old(Fits(slots[j], queues[j], agents[j]));
    }

    method StateOf(i: nat) returns (s: State)
      requires SlotsOk() && i < AGENTS
      ensures i < |agents| && s == agents[i].state
    {
      assert Fits(slots[i], queues[i], agents[i]);
      return slots[i].state;
    }

    /** The descriptor of slot `i` takes the state `s`. */
    method Restate(i: nat, s: State)
      requires SlotsOk() && i < AGENTS
      modifies this`agents, repr
      ensures SlotsOk() && i < |old(agents)| && agents == old(agents)[i := old(agents)[i].(state := s)]
    {
      assert Fits(slots[i], queues[i], agents[i]);
      hide Fits;
      slots[i].SetState(s, queues[i], agents[i]);
      agents := agents[i := agents[i].(state := s)];
      assert forall j :: 0 <= j < AGENTS && j != i ==> old(Fits(slots[j], queues[j], agents[j]));
    }

    /** Fill in the new message `r` and put it in slot `t`'s inbox; if the inbox is full, give it back. */
    method Place(t: nat, r: Ref, m: Msg, ghost store: map<Ref, Msg>) returns (st: Status)
      requires SlotsOk() && t < AGENTS && pool.Valid() && r !in store && pool.store == store[r := Blank]
      modifies this`agents, this`queues, repr, pool, pool.messages, pool.taken
      ensures SlotsOk() && pool.Valid() && st == (if |old(agents)[t].box| >= INBOX then Overflow else Ok)
      ensures st == Ok ==> queues == old(queues)[t := old(queues)[t] + [r]] && agents == old(agents)[t := Received(old(agents)[t], m)]
      ensures st != Ok ==> queues == old(queues) && agents == old(agents)
      ensures pool.store == (if st == Ok then store[r := m] else store) && pool.calls == old(pool.calls)
    {
      hide MsgPool.Valid, Fits, Received;
      pool.Write(r, m);
      st := Insert(t, r, m);
      if st != Ok {
        pool.Free(r);
        assert pool.store == store;
      }
    }

    /**
     * Allocate a message, number it and put it in slot `t`'s inbox; if the inbox is full, give it back.
     * The message counts as received at once; its sender counts it afterwards.
     */
    method Post(t: nat, m: Msg) returns (st: Status, id: nat)
      requires Core() && t < AGENTS && agents[t].active
      modifies this`nextId, this`issued, this`recv, this`agents, this`queues
      modifies repr, pool, pool.messages, pool.taken
      ensures Core() && t < |old(agents)| == |agents| == AGENTS
      ensures Outcome(old(agents), agents, t, m.(id := id), st) && (st != Ok ==> agents == old(agents))
      ensures st != NoMem ==> id == IdAt(old(issued))
      ensures issued == old(issued) + (if st == NoMem then 0 else 1)
      ensures recv == old(recv) + (if st == Ok then 1 else 0)
      ensures pool.calls >= old(pool.calls)
      ensures st == NoMem ==> pool.calls > old(pool.calls) && !pool.calloc(old(pool.calls))
    {
      hide *;
      CoreParts();
      ghost var store, q, a := pool.store, queues, agents;
      BoxBound(agents, issued, issuer, t);
      var r := pool.Alloc();
      if r == Null {
        CoreWhole();
        PostResult(a, agents, t, m, 0, NoMem);
        return NoMem, 0;
      }
      IssueKeeps(agents, issued, issuer);
      id := GenerateId();
      st := Place(t, r, m.(id := id), store);
      if st != Ok {
        CoreWhole();
        PostResult(a, agents, t, m, id, st);
        return st, id;
      }
      recv := recv + 1;
      FlowPush(store, q, a, recv - 1, consumed, t, r, m.(id := id));
      ReceiveKeeps(a, issued, issuer, t, m.(id := id));
      IdsKeep(ids[..], a, t, Received(a[t], m.(id := id)), initialized);
      CoreWhole();
      PostResult(a, agents, t, m, id, st);
    }

    /** Post a message and count it as sent. */
    method Deliver(t: nat, m: Msg) returns (st: Status, id: nat)
      requires Valid() && |agents| == AGENTS && t < AGENTS && agents[t].active
      modifies this`nextId, this`issued, this`recv, this`agents, this`queues, this`sent
      modifies repr, pool, pool.messages, pool.taken
      ensures Valid() && Outcome(old(agents), agents, t, m.(id := id), st) && (st != Ok ==> agents == old(agents))
      ensures st == Ok ==> id == IdAt(old(issued)) && issued == old(issued) + 1
      ensures sent == old(sent) + (if st == Ok then 1 else 0)
    {
      hide *;
      ValidParts();
      CoreShape();
      st, id := Post(t, m);
      if st == Ok {
        sent := sent + 1;
      }
      ValidWhole();
    }

    /** Send: on success the target's inbox, and nothing else, gains the message. */
    method Send(sender: nat, target: nat, kind: Kind, payload: seq<bv8>, time: nat) returns (st: Status, id: nat)
      requires Valid()
      modifies this`nextId, this`issued, this`recv, this`agents, this`queues, this`sent
      modifies repr, pool, pool.messages, pool.taken
      ensures Valid()
      ensures Attempt(if !initialized then Invalid else SendChecks(old(agents), sender, target, |payload|),
                      old(agents), agents, target, Msg(id, 0, kind, sender, target, time, 0, 0, "", payload), st)
      ensures st == Ok ==> id == IdAt(old(issued)) && sent == old(sent) + 1
      ensures st != Ok ==> agents == old(agents) && sent == old(sent)
    {
      CoreShape();
      hide Core, SendChecks, Outcome;
      if !initialized {
        return Invalid, 0;
      }
      st := CheckSend(sender, target, |payload|);
      if st != Ok {
        return st, 0;
      }
      st, id := Deliver(target - FIRST_ID, Msg(0, 0, kind, sender, target, time, 0, 0, "", payload));
    }

    /** May `sender` send to `target`? */
    method CheckSend(sender: nat, target: nat, length: nat) returns (st: Status)
      requires Core()
      ensures st == SendChecks(agents, sender, target, length)
      ensures st == Ok ==> IsActive(agents, target) && |agents| == AGENTS
    {
      if length > MAX_PAYLOAD {
        return Overflow;
      }
      hide Flow, AgentsOk, MayCommunicate, MsgPool.Valid, Fits;
      var s := SlotById(sender);
      var t := SlotById(target);
      if s == -1 || t == -1 {
        return NotFound;
      }
      var may := Communicates(s);
      if !may {
        return Denied;
      }
      return if sender == target then Invalid else Ok;
    }

    /** Index of the active agent `id`, or -1. */
    method SlotById(id: nat) returns (i: int)
      requires SlotsOk()
      ensures i == if IsActive(agents, id) then id - FIRST_ID else -1
    {
      if id < FIRST_ID || id >= AGENTS + FIRST_ID {
        return -1;
      }
      assert Fits(slots[id - FIRST_ID], queues[id - FIRST_ID], agents[id - FIRST_ID]);
      return if slots[id - FIRST_ID].active then id - FIRST_ID else -1;
    }

    method Communicates(i: nat) returns (r: bool)
      requires SlotsOk() && i < AGENTS
      ensures r == MayCommunicate(agents[i])
    {
      assert Fits(slots[i], queues[i], agents[i]);
      return slots[i].caps & COMMUNICATE != 0;
    }

    /** Take the oldest message of slot `t` and free it. */
    method Fetch(t: nat) returns (st: Status, m: Msg)
      requires Core() && t < AGENTS && agents[t].active
      modifies this`agents, this`queues, this`consumed, repr, pool, pool.messages, pool.taken
      ensures Core() && pool.calls == old(pool.calls)
      ensures st == if old(agents)[t].box == [] then Timeout else Ok
      ensures st == Ok ==> m == old(agents)[t].box[0]
      ensures agents == if st == Ok then old(agents)[t := Taking(old(agents)[t])] else old(agents)
    {
      hide MsgPool.Valid, Flow, AgentsOk, Counter, Fits, IdsOk;
      ghost var store, q, a := pool.store, queues, agents;
      var r;
      st, r := Remove(t);
      if st != Ok {
        return Timeout, Blank;
      }
      HeadOf(store, q, a, recv, consumed, t);
      m := pool.Read(r);
      pool.Free(r);
      consumed := consumed + 1;
      ghost var after := Taking(a[t]);
      FlowPop(store, q, a, recv, consumed - 1, t, after);
      TakeKeeps(a, issued, issuer, t);
      IdsKeep(ids[..], a, t, after, initialized);
    }

    /** Receive without waiting: the oldest message, removed from the inbox. */
    method Recv(id: nat) returns (st: Status, m: Msg)
      requires Valid()
      modifies this`agents, this`queues, this`consumed, repr, pool, pool.messages, pool.taken
      ensures Valid()
      ensures st == if !initialized then Invalid else if !IsActive(old(agents), id) then NotFound
                    else if old(agents)[id - FIRST_ID].box == [] then Timeout else Ok
      ensures st == Ok ==>
        var a := old(agents)[id - FIRST_ID];
        a.box != [] && m == a.box[0] && agents == old(agents)[id - FIRST_ID := Taking(a)]
      ensures st != Ok ==> agents == old(agents)
    {
      hide MsgPool.Valid, Flow, AgentsOk, Counter, Fits, IdsOk, Core, Taking;
      ValidParts();
      if !initialized {
        return Invalid, Blank;
      }
      CoreShape();
      var t := Lookup(id);
      if t == -1 {
        return NotFound, Blank;
      }
      st, m := Fetch(t);
    }

    /** As SlotById, on the whole runtime. */
    method Lookup(id: nat) returns (i: int)
      requires Core()
      ensures i == if IsActive(agents, id) then id - FIRST_ID else -1
      ensures |agents| == AGENTS &&
        i == if FIRST_ID <= id < FIRST_ID + AGENTS && agents[id - FIRST_ID].active then id - FIRST_ID else -1
    {
      hide Flow, AgentsOk, MsgPool.Valid, Fits;
      i := SlotById(id);
    }

    /** Give back slot `t`'s messages, clear it and release its id. */
    method Cleanup(t: nat)
      requires Core() && t < AGENTS && agents[t].active
      modifies this`agents, this`queues, this`consumed, repr, pool, pool.messages, pool.taken, ids
      ensures Core() && agents == old(agents)[t := Gone]
    {
      hide MsgPool.Valid, Flow, AgentsOk, Counter, Fits, IdsOk;
      ghost var store, q, a := pool.store, queues, agents;
      ghost var bits := ids[..];
      QueueDistinct(store, q, a, recv, consumed, t);
      ActiveIndex(bits, a, t, initialized);
      slots[t].Drain(pool, q[t], a[t]);
      ids[t] := false;
      queues, agents := queues[t := []], agents[t := Gone];
      consumed := consumed + |a[t].box|;
      assert forall j :: 0 <= j < AGENTS && j != t ==> old(Fits(slots[j], queues[j], agents[j]));
      assert ids[..] == bits[t := false];
      IdsSet(bits, a, t, Gone);
      FlowDrain(store, q, a, recv, consumed - |a[t].box|, t, Gone);
      UpdateKeeps(a, issued, issuer, t, Gone);
    }

    method Terminate(id: nat) returns (st: Status)
      requires Valid()
      modifies this`agents, this`queues, this`consumed, repr, pool, pool.messages, pool.taken, ids
      ensures Valid()
      ensures st == if !initialized then Invalid else if !IsActive(old(agents), id) then NotFound else Ok
      ensures agents == if st == Ok then old(agents)[id - FIRST_ID := Gone] else old(agents)
    {
      if !initialized {
        return Invalid;
      }
      CoreShape();
      var t := Lookup(id);
      hide Core;
      if t == -1 {
        return NotFound;
      }
      Cleanup(t);
      return Ok;
    }

    method CheckReply(sender: nat, target: nat, length: nat) returns (st: Status)
      requires Core()
      ensures st == ReplyChecks(agents, sender, target, length)
      ensures st == Ok ==> IsActive(agents, sender) && IsActive(agents, target) && |agents| == AGENTS
    {
      if length > MAX_PAYLOAD {
        return Overflow;
      }
      hide Flow, AgentsOk, MayCommunicate, MsgPool.Valid, Fits;
      var s := SlotById(sender);
      if s == -1 {
        return NotFound;
      }
      var may := Communicates(s);
      if !may {
        return Denied;
      }
      var t := SlotById(target);
      return if t == -1 then NotFound else Ok;
    }

    /** Reply: the original's sender receives the answer, which names the message it answers. */
    method SendReply(original: Msg, payload: seq<bv8>, time: nat) returns (st: Status, id: nat)
      requires Valid()
      modifies this`nextId, this`issued, this`recv, this`agents, this`queues, this`sent
      modifies repr, pool, pool.messages, pool.taken
      ensures Valid()
      ensures Attempt(if !initialized then Invalid
                      else ReplyChecks(old(agents), original.target, original.sender, |payload|),
                      old(agents), agents, original.sender, ReplyTo(original, id, payload, time), st)
      ensures st == Ok ==> id == IdAt(old(issued))
      ensures st != Ok ==> agents == old(agents) && sent == old(sent)
      ensures st == Ok ==> sent == old(sent) + 1
    {
      CoreShape();
      hide Core, ReplyChecks, Outcome;
      if !initialized {
        return Invalid, 0;
      }
      st := CheckReply(original.target, original.sender, |payload|);
      if st != Ok {
        return st, 0;
      }
      st, id := Deliver(original.sender - FIRST_ID, ReplyTo(original, 0, payload, time));
    }

    method CheckDelegate(from: nat, to: nat, length: nat) returns (st: Status)
      requires Core()
      ensures st == DelegateChecks(agents, from, to, length)
      ensures st == Ok ==> from != to && |agents| == AGENTS
      ensures st == Ok ==> FIRST_ID <= from < FIRST_ID + AGENTS && agents[from - FIRST_ID].active
      ensures st == Ok ==> FIRST_ID <= to < FIRST_ID + AGENTS && agents[to - FIRST_ID].active
      ensures st == Ok ==> |agents[from - FIRST_ID].delegations| < MAX_DELEGATIONS
    {
      hide Flow, AgentsOk, MayCommunicate, MsgPool.Valid, ReplyChecks;
      st := CheckReply(from, to, length);
      if st != Ok {
        return;
      }
      if from == to {
        return Invalid;
      }
      var f := from - FIRST_ID;
      assert Fits(slots[f], queues[f], agents[f]);
      return if |slots[f].delegations| >= MAX_DELEGATIONS then Overflow else Ok;
    }

    /** Record the delegation `id` that slot `f` has just sent to slot `t`. */
    method Track(f: nat, t: nat, id: nat, ghost was: seq<Agent>, ghost m: Msg)
      requires Core() && |was| == AGENTS && f < AGENTS && t < AGENTS && f != t && issued > 0 && id == IdAt(issued - 1)
      requires AgentsOk(was, issued - 1, issuer) && was[f].active && was[t].active
      requires |was[f].delegations| < MAX_DELEGATIONS && |was[t].box| < INBOX && agents == was[t := Received(was[t], m)]
      modifies this`agents, this`issuer, this`delegated, repr
      ensures Core() && issuer == old(issuer)[id := f]
      ensures agents == old(agents)[f := Tracking(was[f], id, t + FIRST_ID)]
    {
      hide MsgPool.Valid, Flow, AgentsOk, Counter, Fits, IdsOk, Received;
      ghost var a := agents;
      assert a[f] == was[f];
      delegated := delegated + 1;
      slots[f].AddDelegation(Delegation(id, t + FIRST_ID, true), queues[f], a[f]);
      slots[f].SetState(Delegating, queues[f], a[f].(delegations := a[f].delegations + [Delegation(id, t + FIRST_ID, true)]));
      TrackAfter(was, issued - 1, issuer, f, t, m, t + FIRST_ID);
      issuer := issuer[id := f];
      agents := agents[f := Tracking(a[f], id, t + FIRST_ID)];
      assert forall j :: 0 <= j < AGENTS && j != f ==> old(Fits(slots[j], queues[j], agents[j]));
      FlowUpdate(pool.store, queues, a, recv, consumed, f, agents[f]);
      IdsKeep(ids[..], a, f, agents[f], initialized);
    }

    ghost function TaskChecks(from: nat, to: nat, length: nat): Status
      reads this`initialized, this`agents
    {
      if !initialized then Invalid else DelegateChecks(agents, from, to, length)
    }

    /** All checks of a delegation. */
    method AdmitTask(from: nat, to: nat, length: nat) returns (st: Status)
      requires Valid()
      ensures Valid() && st == TaskChecks(from, to, length)
      ensures st == Ok ==> from != to && |agents| == AGENTS
      ensures st == Ok ==> FIRST_ID <= from < FIRST_ID + AGENTS && agents[from - FIRST_ID].active
      ensures st == Ok ==> FIRST_ID <= to < FIRST_ID + AGENTS && agents[to - FIRST_ID].active
      ensures st == Ok ==> |agents[from - FIRST_ID].delegations| < MAX_DELEGATIONS
    {
      hide Core, DelegateChecks;
      if !initialized {
        return Invalid;
      }
      st := CheckDelegate(from, to, length);
    }

    /** Delegate: the worker's inbox gains the task and the delegator tracks its id. */
    method SendTask(from: nat, to: nat, task: seq<bv8>, time: nat) returns (st: Status, id: nat)
      requires Valid()
      modifies this`nextId, this`issued, this`recv, this`agents, this`queues, this`sent, this`issuer, this`delegated
      modifies repr, pool, pool.messages, pool.taken
      ensures Valid()
      ensures TaskAttempt(old(TaskChecks(from, to, |task|)), old(agents), agents, from, to,
                          Msg(id, 0, Delegate, from, to, time, 0, 2, "", task), st)
      ensures st == Ok ==> id == IdAt(old(issued)) && sent == old(sent) + 1 && issuer == old(issuer)[id := from - FIRST_ID]
      ensures st != Ok ==> agents == old(agents) && sent == old(sent) && issuer == old(issuer)
    {
      hide *;
      ghost var was, c, m0 := agents, TaskChecks(from, to, |task|), Msg(0, 0, Delegate, from, to, time, 0, 2, "", task);
      st := AdmitTask(from, to, |task|);
      if st != Ok {
        TaskRefused(c, was, from, to, m0);
        return st, 0;
      }
      st, id := Handoff(from - FIRST_ID, to - FIRST_ID, Msg(0, 0, Delegate, from, to, time, 0, 2, "", task));
      TaskMade(was, agents, from - FIRST_ID, to - FIRST_ID, m0.(id := id), st);
    }

    /** Post a task to slot `t` and track it in slot `f`. */
    method Handoff(f: nat, t: nat, m: Msg) returns (st: Status, id: nat)
      requires Valid() && f < AGENTS && t < AGENTS && f != t && m.target == t + FIRST_ID
      requires |agents| == AGENTS && agents[f].active && agents[t].active && |agents[f].delegations| < MAX_DELEGATIONS
      modifies this`nextId, this`issued, this`recv, this`agents, this`queues, this`issuer, this`sent, this`delegated
      modifies repr, pool, pool.messages, pool.taken
      ensures Valid() && HandedOver(old(agents), agents, f, t, m.(id := id), st)
      ensures st == Ok ==> id == IdAt(old(issued)) && issuer == old(issuer)[id := f]
      ensures st != Ok ==> agents == old(agents) && issuer == old(issuer)
      ensures sent == old(sent) + (if st == Ok then 1 else 0)
    {
      hide *;
      ValidParts();
      CoreParts();
      ghost var was := agents;
      st, id := Deliver(t, m);
      if st == Ok {
        ValidParts();
        CoreParts();
        OutcomeOk(was, agents, t, m.(id := id));
        Track(f, t, id, was, m.(id := id));
        ValidWhole();
      }
      HandedOverIs(was, agents, f, t, m.(id := id), st);
    }

    /** In every state, each agent has been handed the messages delivered to it in the order of delivery, each once,
        and those it has not been handed are waiting in its inbox. */
    lemma FirstInFirstOut(i: nat)
      requires Core() && i < |agents|
      ensures agents[i].arrived == agents[i].taken + agents[i].box
    {
      assert AgentOk(agents[i]);
    }

    lemma CoreAgents()
      requires Core()
      ensures AgentsOk(agents, issued, issuer)
    {
    }

    /** The first active agent tracking a delegation, and where; -1 if none. */
    method FindDelegation(id: nat) returns (i: int, k: nat)
      requires SlotsOk()
      ensures i == -1 ==> forall j :: 0 <= j < AGENTS ==> !TracksId(agents[j], id)
      ensures i != -1 ==> i >= 0 && FirstTracker(agents, id, i, k)
    {
      for x := 0 to AGENTS
        invariant forall j :: 0 <= j < x ==> !TracksId(agents[j], id)
      {
        assert Fits(slots[x], queues[x], agents[x]);
        if slots[x].active {
          for y := 0 to |slots[x].delegations|
            invariant forall l :: 0 <= l < y ==> agents[x].delegations[l].id != id
          {
            if slots[x].delegations[y].id == id {
              return x, y;
            }
          }
        }
      }
      return -1, 0;
    }

    /** Mark a delegation as done. */
    method Close(i: nat, k: nat)
      requires Core() && i < AGENTS && agents[i].active && k < |agents[i].delegations|
      modifies this`agents, repr
      ensures Core() && agents == old(agents)[i := Closing(old(agents)[i], k)]
    {
      hide MsgPool.Valid, Flow, AgentsOk, Counter, Fits, IdsOk;
      ghost var a := agents;
      slots[i].CloseDelegation(k, queues[i], a[i]);
      agents := agents[i := Closing(a[i], k)];
      assert forall j :: 0 <= j < AGENTS && j != i ==> old(Fits(slots[j], queues[j], agents[j]));
      ActiveOk(a, issued, issuer, i);
      UpdateKeeps(a, issued, issuer, i, agents[i]);
      FlowUpdate(pool.store, queues, a, recv, consumed, i, agents[i]);
      IdsKeep(ids[..], a, i, agents[i], initialized);
    }

    /** Let a delegator go on. */
    method Resume(i: nat)
      requires Core() && i < AGENTS && agents[i].active
      modifies this`agents, repr
      ensures Core() && agents == old(agents)[i := Resumed(old(agents)[i])]
    {
      hide *;
      CoreParts();
      var s := StateOf(i);
      ResumedIs(agents[i]);
      if s != Delegating {
        assert agents == agents[i := Resumed(agents[i])];
        return;
      }
      ghost var a := agents;
      Restate(i, Idle);
      StateKeeps(a, issued, issuer, i, Idle);
      FlowUpdate(pool.store, queues, a, recv, consumed, i, agents[i]);
      IdsKeep(ids[..], a, i, agents[i], initialized);
      CoreWhole();
    }

    method CheckResult(worker: nat, length: nat) returns (st: Status)
      requires Core()
      ensures st == ResultChecks(agents, worker, length) && |agents| == AGENTS
    {
      if length > MAX_PAYLOAD {
        return Overflow;
      }
      hide Flow, AgentsOk, MayCommunicate, MsgPool.Valid, Fits;
      var w := SlotById(worker);
      if w == -1 {
        return NotFound;
      }
      var may := Communicates(w);
      return if may then Ok else Denied;
    }

    /**
     * Return a delegation's result. It goes to the first agent that tracks the delegation; until the id
     * counter wraps that is the agent that issued it, and the message names it.
     */
    method SendResult(worker: nat, did: nat, result: seq<bv8>, time: nat)
      returns (st: Status, id: nat, ghost i: nat, ghost k: nat)
      requires Valid()
      modifies this`nextId, this`issued, this`recv, this`agents, this`queues, this`sent
      modifies repr, pool, pool.messages, pool.taken
      ensures Valid()
      ensures ResultAttempt(if !initialized then Invalid else ResultChecks(old(agents), worker, |result|), old(agents), agents,
                            did, i, k, Msg(id, did, Result, worker, i + FIRST_ID, time, 0, 2, "", result), st)
      ensures st == Ok && old(issued) <= IDS ==> did in issuer && issuer[did] == i
      ensures st == Ok ==> id == IdAt(old(issued))
    {
      CoreShape();
      hide Core, ResultChecks, Finished, Prepared, ResultAttempt;
      ghost var was, c := agents, if !initialized then Invalid else ResultChecks(agents, worker, |result|);
      var x, y;
      st, x, y := Prepare(worker, did, |result|);
      i, k, id := x, y, 0;
      var m := Msg(0, did, Result, worker, x + FIRST_ID, time, 0, 2, "", result);
      if st == Ok {
        PreparedBounds(c, was, did, x, y);
        st, id := Finish(x, y, m);
        AttemptMade(c, was, agents, did, i, k, m.(id := id), st);
      } else {
        AttemptRefused(c, was, did, i, k, m, st);
      }
    }

    /** The checks of a delegation result and the search for its delegator. */
    method Prepare(worker: nat, did: nat, length: nat) returns (st: Status, i: nat, k: nat)
      requires Valid()
      ensures Prepared(if !initialized then Invalid else ResultChecks(agents, worker, length), agents, did, i, k, st)
      ensures |agents| == AGENTS
      ensures st == Ok && issued <= IDS ==> did in issuer && issuer[did] == i
    {
      i, k := 0, 0;
      CoreShape();
      CoreAgents();
      hide Core, AgentsOk, ResultChecks;
      if !initialized {
        return Invalid, 0, 0;
      }
      st := CheckResult(worker, length);
      if st != Ok {
        return;
      }
      var x;
      x, k := Search(did);
      if x == -1 {
        return NotFound, 0, 0;
      }
      i := x;
      if issued <= IDS {
        TrackerIsIssuer(agents, issued, issuer, i, did);
      }
    }

    /** Close delegation `k` of slot `i` and deliver its result. */
    method Finish(i: nat, k: nat, m: Msg) returns (st: Status, id: nat)
      requires Valid() && |agents| == AGENTS && i < AGENTS && agents[i].active && k < |agents[i].delegations|
      modifies this`nextId, this`issued, this`recv, this`agents, this`queues, this`sent
      modifies repr, pool, pool.messages, pool.taken
      ensures Valid() && Finished(old(agents), agents, i, k, m.(id := id), st)
      ensures st == Ok ==> id == IdAt(old(issued))
    {
      hide *;
      ValidParts();
      CoreShape();
      ghost var was := agents;
      ClosingActive(was[i], k);
      Close(i, k);
      ValidWhole();
      ghost var closed := agents;
      st, id := Deliver(i, m);
      if st == Ok {
        OutcomeOk(closed, agents, i, m.(id := id));
        ReceivedActive(closed[i], m.(id := id));
        ValidParts();
        Resume(i);
        ValidWhole();
      }
      FinishedIs(was, closed, agents, i, k, m.(id := id), st);
    }

    /** As FindDelegation, on the whole runtime. */
    method Search(id: nat) returns (i: int, k: nat)
      requires Core()
      ensures i == -1 ==> forall j :: 0 <= j < AGENTS ==> !TracksId(agents[j], id)
      ensures i != -1 ==> i >= 0 && FirstTracker(agents, id, i, k)
    {
      hide Flow, AgentsOk, MsgPool.Valid, Fits;
      i, k := FindDelegation(id);
    }

    method CountActive() returns (n: nat)
      requires SlotsOk()
      ensures n == ActiveCount(agents)
    {
      n := 0;
      for i := 0 to AGENTS
        invariant n == ActiveCount(agents[..i])
      {
        ActiveCountStep(agents, i);
        assert Fits(slots[i], queues[i], agents[i]);
        if slots[i].active {
          n := n + 1;
        }
      }
      assert agents[..AGENTS] == agents;
    }

    /** Take the lowest free id bit, -1 if all are set. */
    method AllocId() returns (bit: int)
      requires ids.Length == AGENTS
      modifies ids
      ensures bit == -1 ==> ids[..] == old(ids[..]) && forall i :: 0 <= i < AGENTS ==> old(ids[..])[i]
      ensures bit != -1 ==> 0 <= bit < AGENTS && !old(ids[..])[bit] && ids[..] == old(ids[..])[bit := true]
      ensures bit != -1 ==> forall i :: 0 <= i < bit ==> old(ids[..])[i]
    {
      for i := 0 to AGENTS
        invariant forall j :: 0 <= j < i ==> ids[j]
        invariant ids[..] == old(ids[..])
      {
        if !ids[i] {
          ids[i] := true;
          return i;
        }
      }
      return -1;
    }

    /** Create an agent with the lowest free id from 5 up; the id 4 is never handed out. */
    method Spawn(caps: bv64, codeOk: bool) returns (id: nat)
      requires Valid()
      modifies this`agents, repr, ids
      ensures Valid()
      ensures id == 0 <==> !initialized || ActiveCount(old(agents)) >= maxAgents || !codeOk || AllActive(old(agents))
      ensures id == 0 ==> agents == old(agents)
      ensures id != 0 ==> id >= FIRST_ID && Started(old(agents), agents, id - FIRST_ID, caps)
    {
      assert FIRST_ID > 0;
      hide *;
      ValidParts();
      if !initialized {
        return 0;
      }
      CoreShape();
      var n := CountAgents();
      if n >= maxAgents {
        return 0;
      }
      var bit := Reserve(codeOk, caps);
      ValidWhole();
      return if bit == -1 then 0 else bit + FIRST_ID;
    }

    method CountAgents() returns (n: nat)
      requires Core()
      ensures n == ActiveCount(agents)
    {
      hide MsgPool.Valid, Flow, AgentsOk, Counter, Fits, IdsOk, ActiveCount;
      n := CountActive();
    }

    /** Take a free id and start its agent; without memory for the code, give the id back. */
    method Reserve(codeOk: bool, caps: bv64) returns (bit: int)
      requires Core() && initialized
      modifies this`agents, repr, ids
      ensures Core() && |old(agents)| == AGENTS
      ensures bit == -1 <==> !codeOk || AllActive(old(agents))
      ensures bit == -1 ==> agents == old(agents)
      ensures bit != -1 ==> bit >= 0 && Started(old(agents), agents, bit, caps)
    {
      hide MsgPool.Valid, Flow, AgentsOk, Counter, Fits, IdsOk;
      ghost var bits := ids[..];
      IdsLength(bits, agents, initialized);
      bit := AllocId();
      if bit == -1 {
        FullBits(bits, agents);
        return;
      }
      FreeSlot(bits, agents, bit, issued, issuer);
      if !codeOk {
        ids[bit] := false;
        assert ids[..] == bits;
        return -1;
      }
      Launch(bit, caps, bits);
    }

    /** Start an agent in the empty slot whose bit has been taken. */
    method Launch(t: nat, caps: bv64, ghost bits: seq<bool>)
      requires SlotsOk() && pool.Valid() && 0 < t < AGENTS && agents[t] == Gone && initialized
      requires IdsOk(bits, agents, true) && ids[..] == bits[t := true] && T.TopicsOk(table.topics)
      requires Flow(pool.store, queues, agents, recv, consumed) && AgentsOk(agents, issued, issuer) && Counter(nextId, issued)
      modifies this`agents, repr
      ensures Core() && agents == old(agents)[t := Born(caps)]
    {
      hide MsgPool.Valid, Flow, AgentsOk, Counter, IdsOk;
      ghost var a, x := agents, Born(caps);
      assert Fits(slots[t], queues[t], agents[t]) && queues[t] == [];
      hide Fits;
      slots[t].Start(caps);
      agents := agents[t := x];
      assert forall j :: 0 <= j < AGENTS && j != t ==> old(Fits(slots[j], queues[j], agents[j]));
      FlowUpdate(pool.store, queues, a, recv, consumed, t, x);
      UpdateKeeps(a, issued, issuer, t, x);
      IdsSet(bits, a, t, x);
    }

    /** Subscribe an active agent to a topic. */
    method Subscribe(id: nat, topic: string) returns (st: Status)
      requires Valid()
      modifies table
      ensures Valid()
      ensures (table.topics, st) == if !initialized || topic == "" then (old(table.topics), Invalid)
                                    else if !IsActive(agents, id) then (old(table.topics), NotFound)
                                    else T.Subscribed(old(table.topics), id, topic)
    {
      if !initialized || topic == "" {
        return Invalid;
      }
      hide MsgPool.Valid, Flow, AgentsOk, Counter, Fits, T.TopicsOk;
      var t := Lookup(id);
      if t == -1 {
        return NotFound;
      }
      st := table.Subscribe(id, topic);
    }

    method Unsubscribe(id: nat, topic: string) returns (st: Status)
      requires Valid()
      modifies table
      ensures Valid()
      ensures (table.topics, st) == if !initialized || topic == "" then (old(table.topics), Invalid)
                                    else T.Unsubscribed(old(table.topics), id, topic)
    {
      if !initialized || topic == "" {
        return Invalid;
      }
      hide MsgPool.Valid, Flow, AgentsOk, Counter, Fits, T.TopicsOk;
      st := table.Unsubscribe(id, topic);
    }

    /** One subscriber's copy. */
    method Serve(s: nat, m: Msg, ghost was: seq<Agent>) returns (st: Status)
      requires Core() && |was| == |agents| && (FIRST_ID <= s < FIRST_ID + AGENTS ==> agents[s - FIRST_ID] == was[s - FIRST_ID])
      modifies this`nextId, this`issued, this`recv, this`agents, this`queues
      modifies repr, pool, pool.messages, pool.taken
      ensures Core() && recv == old(recv) + (if st == Ok then 1 else 0) && pool.calls >= old(pool.calls)
      ensures st == NoMem ==> HeapFailed(pool.calloc, old(pool.calls), pool.calls)
      ensures |agents| == AGENTS && OneServed(was, old(agents), agents, s, m, st == NoMem)
    {
      hide *;
      CoreShape();
      var t := Lookup(s);
      if s == m.sender || t == -1 {
        ServeSkips(was, agents, s, m);
        return NotFound;
      }
      ghost var now, calls := agents, pool.calls;
      var id;
      st, id := Post(t, m.(target := s));
      ServePosts(was, now, agents, t, m, id, st);
      if st == NoMem {
        HeapFailedAt(pool.calloc, calls, pool.calls);
      }
    }

    /** The delivery loop of a broadcast. */
    method CopyToAll(subs: seq<nat>, m: Msg) returns (count: nat, ghost oom: bool)
      requires Core() && T.NoDup(subs)
      modifies this`nextId, this`issued, this`recv, this`agents, this`queues
      modifies repr, pool, pool.messages, pool.taken
      ensures Core() && recv == old(recv) + count && pool.calls >= old(pool.calls)
      ensures Spread(old(agents), agents, subs, m, oom)
      ensures oom ==> HeapFailed(pool.calloc, old(pool.calls), pool.calls)
    {
      hide *;
      CoreShape();
      ghost var was, first := agents, pool.calls;
      count, oom := 0, false;
      SpreadNone(was, m);
      for i := 0 to |subs|
        invariant Core() && recv == old(recv) + count && pool.calls >= old(pool.calls)
        invariant |agents| == AGENTS && Spread(was, agents, subs[..i], m, oom)
        invariant oom ==> HeapFailed(pool.calloc, old(pool.calls), pool.calls)
      {
        ghost var now, calls := agents, pool.calls;
        NotBefore(subs, i);
        SpreadRest(was, now, subs[..i], m, oom, subs[i]);
        var st := Serve(subs[i], m, was);
        if st == Ok {
          count := count + 1;
        }
        SpreadServe(was, now, subs[..i], m, oom, subs[i], agents, st == NoMem);
        Widen(oom, st == NoMem, first, calls);
        oom := oom || st == NoMem;
      }
      assert subs[..|subs|] == subs;
    }

    static lemma NotBefore(subs: seq<nat>, i: nat)
      requires T.NoDup(subs) && i < |subs|
      ensures subs[i] !in subs[..i] && subs[..i + 1] == subs[..i] + [subs[i]]
    {
    }

    lemma Widen(oom: bool, failed: bool, first: nat, calls: nat)
      requires first <= calls <= pool.calls
      requires oom ==> HeapFailed(pool.calloc, first, calls)
      requires failed ==> HeapFailed(pool.calloc, calls, pool.calls)
      ensures oom || failed ==> HeapFailed(pool.calloc, first, pool.calls)
    {
    }

    /** Broadcast to a topic's subscribers. */
    method Broadcast(sender: nat, topic: string, payload: seq<bv8>, time: nat) returns (st: Status, ghost oom: bool)
      requires Valid()
      modifies this`nextId, this`issued, this`recv, this`agents, this`queues, this`sent, this`broadcasts
      modifies repr, pool, pool.messages, pool.taken
      ensures Valid() && st == if !initialized then Invalid else BroadcastChecks(old(agents), sender, topic, |payload|)
      ensures st != Ok ==> agents == old(agents)
      ensures st == Ok ==> Spread(old(agents), agents, T.Subscribers(table.topics, topic), EventFor(sender, topic, payload, time), oom)
      ensures oom ==> HeapFailed(pool.calloc, old(pool.calls), pool.calls)
    {
      hide *;
      BroadcastChecksIs(agents, sender, topic, |payload|);
      oom := false;
      ValidParts();
      if !initialized || topic == "" {
        return Invalid, false;
      }
      st := CheckResult(sender, |payload|);
      if st != Ok {
        return;
      }
      var subs := Listed(topic);
      CoreShape();
      SpreadNone(agents, EventFor(sender, topic, payload, time));
      if |subs| > 0 {
        oom := Announce(subs, EventFor(sender, topic, payload, time));
      }
    }

    /** The subscribers of a topic, none if it is unknown. */
    method Listed(topic: string) returns (subs: seq<nat>)
      requires Core()
      ensures subs == T.Subscribers(table.topics, topic) && T.NoDup(subs)
    {
      CoreTopics();
      hide Core;
      var i := table.FindByName(topic);
      return if i == |table.topics| then [] else table.topics[i].subs;
    }

    /** Copy a message to all of `subs` and count the copies as sent. */
    method Announce(subs: seq<nat>, m: Msg) returns (ghost oom: bool)
      requires Valid() && T.NoDup(subs)
      modifies this`nextId, this`issued, this`recv, this`agents, this`queues, this`sent, this`broadcasts
      modifies repr, pool, pool.messages, pool.taken
      ensures Valid() && Spread(old(agents), agents, subs, m, oom)
      ensures oom ==> HeapFailed(pool.calloc, old(pool.calls), pool.calls)
    {
      hide *;
      ValidParts();
      CoreShape();
      var count;
      count, oom := CopyToAll(subs, m);
      sent := sent + count;
      broadcasts := broadcasts + 1;
      ValidWhole();
    }

    lemma CoreTopics()
      requires Core()
      ensures forall i :: 0 <= i < |table.topics| ==> T.NoDup(table.topics[i].subs)
    {
      assert forall i :: 0 <= i < |table.topics| ==> T.TopicOk(table.topics[i]);
    }

    /** Terminate every agent and reset; no message stays allocated. */
    method Shutdown()
      requires Valid()
      modifies this, repr, pool, pool.messages, pool.taken, ids, table
      ensures Valid() && !initialized && maxAgents == old(maxAgents)
      ensures old(initialized) ==> pool.store == map[] && AllGone(agents) && Reset()
      ensures !old(initialized) ==>
        agents == old(agents) && pool.store == old(pool.store) && table.topics == old(table.topics)
    {
      hide *;
      ValidParts();
      if !initialized {
        return;
      }
      CoreShape();
      CleanupAll();
      Clear();
    }

    /** No topics, and all statistics at zero. */
    predicate Reset()
      reads table, this`sent, this`recv, this`broadcasts, this`delegated
    {
      table.topics == [] && sent == recv == broadcasts == delegated == 0
    }

    lemma AllGoneIs()
      requires forall i :: 0 <= i < |agents| ==> agents[i] == Gone
      ensures AllGone(agents)
    {
    }

    method CleanupAll()
      requires Core() && initialized
      modifies this`agents, this`queues, this`consumed, repr, pool, pool.messages, pool.taken, ids
      ensures Core() && AllGone(agents)
    {
      hide *;
      CoreShape();
      for i := 0 to AGENTS
        invariant Core() && |agents| == AGENTS && forall j :: 0 <= j < i ==> agents[j] == Gone
      {
        var t := Lookup(i + FIRST_ID);
        if t != -1 {
          Cleanup(i);
        } else {
          CoreAgents();
          InactiveGone(agents, issued, issuer, i);
        }
      }
      AllGoneIs();
    }

    /** Reset the tables and counters of a runtime without agents. */
    method Clear()
      requires Core() && AllGone(agents)
      modifies this`initialized, this`sent, this`recv, this`consumed, this`broadcasts, this`delegated, ids, table
      ensures Valid() && !initialized && pool.store == map[] && AllGone(agents) && Reset()
    {
      hide *;
      CoreParts();
      NothingLeaks(pool.store, queues, agents, recv, consumed);
      IdsLength(ids[..], agents, initialized);
      ZeroIds();
      IdsEmpty(ids[..], agents);
      T.NoTopicsOk();
      table.topics := [];
      ZeroStatistics();
      initialized := false;
      IsReset();
      CoreWhole();
      ValidWhole();
    }

    lemma IsReset()
      requires table.topics == [] && sent == recv == broadcasts == delegated == 0
      ensures Reset()
    {
    }

    method ZeroIds()
      requires ids.Length == AGENTS
      modifies ids
      ensures forall i :: 0 <= i < AGENTS ==> !ids[i]
    {
      for i := 0 to AGENTS
        invariant forall j :: 0 <= j < i ==> !ids[j]
      {
        ids[i] := false;
      }
    }

    /** Start over with no agents, no topics and no messages; ids count from 1. */
    method Init(limit: nat)
      requires Valid()
      modifies this, repr, pool, pool.messages, pool.taken, ids, table
      ensures Valid() && initialized && AllGone(agents) && maxAgents == if limit > AGENTS then AGENTS else limit
      ensures issued == 0 && nextId == 1 && pool.store == map[] && Reset()
    {
      hide *;
      Shutdown();
      ValidParts();
      CoreShape();
      maxAgents := if limit > AGENTS then AGENTS else limit;
      Begin();
    }

    method Begin()
      requires Core() && !initialized
      modifies this`initialized, this`nextId, this`issued, this`issuer, ids, table
      modifies this`sent, this`recv, this`consumed, this`broadcasts, this`delegated
      ensures Valid() && initialized && AllGone(agents)
      ensures issued == 0 && nextId == 1 && pool.store == map[] && Reset()
    {
      hide *;
      CoreParts();
      UninitializedGone(ids[..], agents);
      NothingLeaks(pool.store, queues, agents, recv, consumed);
      AllGoneOk(agents);
      FreshIds();
      T.NoTopicsOk();
      table.topics := [];
      Restart();
      initialized := true;
      IsReset();
      CoreWhole();
      ValidWhole();
    }

    /** Message ids start from 1 again, statistics from 0. */
    method Restart()
      modifies this`nextId, this`issued, this`issuer, this`sent, this`recv, this`consumed, this`broadcasts, this`delegated
      ensures nextId == 1 && issued == 0 && issuer == map[] && sent == recv == consumed == broadcasts == delegated == 0
    {
      nextId, issued, issuer := 1, 0, map[];
      ZeroStatistics();
    }

    method ZeroStatistics()
      modifies this`sent, this`recv, this`consumed, this`broadcasts, this`delegated
      ensures sent == recv == consumed == broadcasts == delegated == 0
    {
      sent, recv, consumed, broadcasts, delegated := 0, 0, 0, 0, 0;
    }

    /** Clear the bitmap and reserve its first bit. */
    method FreshIds()
      requires ids.Length == AGENTS == |agents| && AllGone(agents)
      modifies ids
      ensures IdsOk(ids[..], agents, true)
    {
      hide IdsOk;
      ZeroIds();
      IdsEmpty(ids[..], agents);
      ghost var bits := ids[..];
      ids[0] := true;
      assert ids[..] == bits[0 := true];
    }
  }
}
