/** Agent messaging: messages, agents as values, message ownership, ids and delegations. */
module A2aSpec {
  import opened Sums

  const AGENTS: nat := 64
  const INBOX: nat := 64
  const FIRST_ID: nat := 4
  const MAX_DELEGATIONS: nat := 16
  const MAX_PAYLOAD: nat := 4096
  const WRAP: nat := 0x1_0000_0000
  /** Message ids run from 1 to 2^32 - 1 and start again. */
  const IDS: nat := WRAP - 1
  const COMMUNICATE: bv64 := 2

  datatype Kind = Tell | Ask | Reply | Delegate | Result | Event | Other(code: nat)

  datatype Msg = Msg(id: nat, replyTo: nat, kind: Kind, sender: nat, target: nat, time: nat, deadline: nat,
                     priority: nat, topic: string, payload: seq<bv8>)

  const Blank: Msg := Msg(0, 0, Tell, 0, 0, 0, 0, 0, "", [])

  /** Where a message lives: in a pool slot or in the heap. */
  datatype Ref = Null | Pool(index: nat) | Heap(addr: nat)

  datatype Delegation = Delegation(id: nat, worker: nat, open: bool)

  datatype State = Created | Initializing | Idle | Thinking | Waiting | Delegating | Terminated | Failed

  datatype Status = Ok | Invalid | Overflow | NotFound | Denied | NoMem | Timeout

  /** An agent slot as a value: `box` is what its inbox holds, oldest first; `arrived` and `taken` record which messages
      it was delivered and which it took since it started. */
  datatype Agent = Agent(active: bool, caps: bv64, state: State, box: seq<Msg>, delegations: seq<Delegation>,
                         arrived: seq<Msg>, taken: seq<Msg>)

  const Gone: Agent := Agent(false, 0, Created, [], [], [], [])

  /** A new agent. */
  function Born(caps: bv64): Agent {
    Agent(true, caps, Created, [], [], [], [])
  }

  /** Index of an active agent. */
  predicate IsActive(agents: seq<Agent>, id: nat) {
    FIRST_ID <= id < FIRST_ID + |agents| && agents[id - FIRST_ID].active
  }

  predicate MayCommunicate(a: Agent) {
    a.caps & COMMUNICATE != 0
  }

  function Woken(a: Agent): Agent {
    if a.state == Waiting then a.(state := Idle) else a
  }

  function Received(a: Agent, m: Msg): (r: Agent)
    ensures r.active == a.active && r.box == a.box + [m] && r.delegations == a.delegations
    ensures r.arrived == a.arrived + [m] && r.taken == a.taken
  {
    Woken(a.(box := a.box + [m], arrived := a.arrived + [m]))
  }

  /** The agent after it took its oldest message. */
  function Taking(a: Agent): Agent
    requires a.box != []
  {
    a.(box := a.box[1..], taken := a.taken + [a.box[0]])
  }

  // ---- ids ----

  /** The `k`-th id handed out. */
  function IdAt(k: nat): (id: nat)
    ensures 0 < id <= IDS
    ensures k < IDS ==> id == k + 1
  {
    1 + k % IDS
  }

  /** The counter after `issued` ids; 0 stands for 1, as 0 is skipped. */
  predicate Counter(next: nat, issued: nat) {
    next < WRAP && IdAt(issued) == if next == 0 then 1 else next
  }

  lemma CounterStep(next: nat, issued: nat)
    requires Counter(next, issued)
    ensures Counter((if next == 0 then 2 else next + 1) % WRAP, issued + 1)
  {
    assert (issued + 1) % IDS == if issued % IDS == IDS - 1 then 0 else issued % IDS + 1;
  }

  // ---- delegations ----

  /** Slot `i` tracks only delegations that it issued, in increasing id order. */
  ghost predicate Tracks(ds: seq<Delegation>, i: nat, issued: nat, issuer: map<nat, nat>) {
    (forall k :: 0 <= k < |ds| ==> IssuedBy(ds[k].id, i, issued, issuer)) &&
    forall k, l :: 0 <= k < l < |ds| ==> ds[k].id < ds[l].id
  }

  ghost predicate IssuedBy(id: nat, i: nat, issued: nat, issuer: map<nat, nat>) {
    0 < id <= issued && id in issuer && issuer[id] == i
  }

  /** First in, first out: what arrived was taken, in that order, or is still waiting. */
  predicate InOrder(a: Agent) {
    a.arrived == a.taken + a.box
  }

  /** A slot is within its limits, hands out its messages in order and, if it is not active, is empty. */
  predicate AgentOk(a: Agent) {
    |a.box| <= INBOX && |a.delegations| <= MAX_DELEGATIONS && (!a.active ==> a == Gone) && InOrder(a)
  }

  /** All slots are well formed, and until the id counter wraps delegation ids tell who issued them. */
  ghost predicate AgentsOk(agents: seq<Agent>, issued: nat, issuer: map<nat, nat>) {
    |agents| == AGENTS && (forall i :: 0 <= i < AGENTS ==> AgentOk(agents[i])) &&
    (issued <= IDS ==>
       (forall i :: 0 <= i < AGENTS ==> Tracks(agents[i].delegations, i, issued, issuer)) &&
       forall id :: id in issuer ==> 0 < id <= issued)
  }

  /** Until the counter wraps, tracked delegation ids are distinct across all agents. */
  lemma DelegationIdsDistinct(agents: seq<Agent>, issued: nat, issuer: map<nat, nat>, i: nat, k: nat, j: nat, l: nat)
    requires AgentsOk(agents, issued, issuer) && issued <= IDS && i < AGENTS && j < AGENTS
    requires k < |agents[i].delegations| && l < |agents[j].delegations|
    requires agents[i].delegations[k].id == agents[j].delegations[l].id
    ensures i == j && k == l
  {
    assert Tracks(agents[i].delegations, i, issued, issuer) && Tracks(agents[j].delegations, j, issued, issuer);
    assert IssuedBy(agents[i].delegations[k].id, i, issued, issuer);
    assert IssuedBy(agents[j].delegations[l].id, j, issued, issuer);
  }

  lemma BoxBound(agents: seq<Agent>, issued: nat, issuer: map<nat, nat>, t: nat)
    requires AgentsOk(agents, issued, issuer) && t < AGENTS
    ensures |agents[t].box| <= INBOX
  {
    assert AgentOk(agents[t]);
  }

  lemma ActiveOk(agents: seq<Agent>, issued: nat, issuer: map<nat, nat>, t: nat)
    requires AgentsOk(agents, issued, issuer) && t < AGENTS && agents[t].active
    ensures AgentOk(agents[t])
  {
  }

  /** An id handed out keeps everything as it is. */
  lemma IssueKeeps(agents: seq<Agent>, issued: nat, issuer: map<nat, nat>)
    requires AgentsOk(agents, issued, issuer)
    ensures AgentsOk(agents, issued + 1, issuer)
  {
    hide AgentOk;
    if issued + 1 <= IDS {
      forall i | 0 <= i < AGENTS
        ensures Tracks(agents[i].delegations, i, issued + 1, issuer)
      {
        assert Tracks(agents[i].delegations, i, issued, issuer);
        forall k | 0 <= k < |agents[i].delegations|
          ensures IssuedBy(agents[i].delegations[k].id, i, issued + 1, issuer)
        {
          assert IssuedBy(agents[i].delegations[k].id, i, issued, issuer);
        }
      }
    }
  }

  /** Changing one slot but not its delegations keeps the invariant. */
  lemma UpdateKeeps(agents: seq<Agent>, issued: nat, issuer: map<nat, nat>, t: nat, a: Agent)
    requires AgentsOk(agents, issued, issuer) && t < AGENTS && AgentOk(a)
    requires SameIds(a.delegations, agents[t].delegations) || a.delegations == []
    ensures AgentsOk(agents[t := a], issued, issuer)
  {
    hide AgentOk;
    if issued <= IDS && a.delegations != [] {
      assert Tracks(agents[t].delegations, t, issued, issuer);
      forall k | 0 <= k < |a.delegations|
        ensures IssuedBy(a.delegations[k].id, t, issued, issuer)
      {
        assert IssuedBy(agents[t].delegations[k].id, t, issued, issuer);
      }
      assert Tracks(a.delegations, t, issued, issuer);
    }
  }

  lemma ReceiveKeeps(agents: seq<Agent>, issued: nat, issuer: map<nat, nat>, t: nat, m: Msg)
    requires AgentsOk(agents, issued, issuer) && t < AGENTS && agents[t].active && |agents[t].box| < INBOX
    ensures AgentsOk(agents[t := Received(agents[t], m)], issued, issuer)
  {
    var a := agents[t];
    assert AgentOk(a);
    assert a.taken + (a.box + [m]) == a.arrived + [m];
    UpdateKeeps(agents, issued, issuer, t, Received(a, m));
  }

  lemma StateKeeps(agents: seq<Agent>, issued: nat, issuer: map<nat, nat>, t: nat, s: State)
    requires AgentsOk(agents, issued, issuer) && t < AGENTS && agents[t].active
    ensures AgentsOk(agents[t := agents[t].(state := s)], issued, issuer)
  {
    assert AgentOk(agents[t]);
    UpdateKeeps(agents, issued, issuer, t, agents[t].(state := s));
  }

  lemma TakeKeeps(agents: seq<Agent>, issued: nat, issuer: map<nat, nat>, t: nat)
    requires AgentsOk(agents, issued, issuer) && t < AGENTS && agents[t].active && agents[t].box != []
    ensures AgentsOk(agents[t := Taking(agents[t])], issued, issuer)
  {
    var a := agents[t];
    assert AgentOk(a);
    assert a.taken + a.box == Taking(a).taken + Taking(a).box;
    UpdateKeeps(agents, issued, issuer, t, Taking(a));
  }

  /** Tracking the newest id in slot `f` after the message with that id has gone to slot `t`. */
  lemma TrackAfter(was: seq<Agent>, issued: nat, issuer: map<nat, nat>, f: nat, t: nat, m: Msg, worker: nat)
    requires AgentsOk(was, issued, issuer) && f < AGENTS && t < AGENTS && f != t && was[f].active && was[t].active
    requires |was[f].delegations| < MAX_DELEGATIONS && |was[t].box| < INBOX
    ensures AgentsOk(was[t := Received(was[t], m)][f := Tracking(was[f], IdAt(issued), worker)], issued + 1, issuer[IdAt(issued) := f])
  {
    var x := was[f].(delegations := was[f].delegations + [Delegation(IdAt(issued), worker, true)]);
    var after, issuer' := was[f := x], issuer[IdAt(issued) := f];
    assert AgentOk(was[f]) && AgentOk(was[t]);
    assert was[t].taken + (was[t].box + [m]) == was[t].arrived + [m];
    hide IdAt, Received;
    TrackKeeps(was, issued, issuer, f, worker);
    UpdateKeeps(after, issued + 1, issuer', t, Received(was[t], m));
    UpdateKeeps(after[t := Received(was[t], m)], issued + 1, issuer', f, x.(state := Delegating));
    assert after[t := Received(was[t], m)][f := x.(state := Delegating)] ==
           was[t := Received(was[t], m)][f := Tracking(was[f], IdAt(issued), worker)];
  }

  /** A delegator after it has handed out a task. */
  function Tracking(a: Agent, id: nat, worker: nat): Agent {
    a.(delegations := a.delegations + [Delegation(id, worker, true)], state := Delegating)
  }

  /** A delegator whose `k`-th delegation is done. */
  function Closing(a: Agent, k: nat): Agent
    requires k < |a.delegations|
  {
    a.(delegations := a.delegations[k := a.delegations[k].(open := false)])
  }

  /** A delegator stops waiting when a result arrives. */
  function Resumed(a: Agent): Agent {
    if a.state == Delegating then a.(state := Idle) else a
  }

  lemma ResumedIs(a: Agent)
    ensures Resumed(a) == if a.state == Delegating then a.(state := Idle) else a
  {
  }

  /** The agent is active and tracks delegation `id`. */
  predicate TracksId(a: Agent, id: nat) {
    a.active && exists k :: 0 <= k < |a.delegations| && a.delegations[k].id == id
  }

  /** Until the counter wraps, whoever tracks a delegation issued it. */
  lemma TrackerIsIssuer(agents: seq<Agent>, issued: nat, issuer: map<nat, nat>, i: nat, id: nat)
    requires AgentsOk(agents, issued, issuer) && issued <= IDS && i < AGENTS && TracksId(agents[i], id)
    ensures id in issuer && issuer[id] == i
  {
    assert Tracks(agents[i].delegations, i, issued, issuer);
    var k :| 0 <= k < |agents[i].delegations| && agents[i].delegations[k].id == id;
    assert IssuedBy(agents[i].delegations[k].id, i, issued, issuer);
  }

  lemma ActiveCountStep(agents: seq<Agent>, i: nat)
    requires i < |agents|
    ensures ActiveCount(agents[..i + 1]) == ActiveCount(agents[..i]) + if agents[i].active then 1 else 0
  {
    assert agents[..i + 1][..i] == agents[..i];
  }

  function ActiveCount(agents: seq<Agent>): nat {
    if agents == [] then 0 else ActiveCount(agents[..|agents| - 1]) + if agents[|agents| - 1].active then 1 else 0
  }

  predicate SameIds(a: seq<Delegation>, b: seq<Delegation>) {
    |a| == |b| && forall k :: 0 <= k < |a| ==> a[k].id == b[k].id
  }

  /** The newest id, tracked by slot `t`, is no other delegation's. */
  lemma TrackKeeps(agents: seq<Agent>, issued: nat, issuer: map<nat, nat>, t: nat, worker: nat)
    requires AgentsOk(agents, issued, issuer) && t < AGENTS && agents[t].active
    requires |agents[t].delegations| < MAX_DELEGATIONS
    ensures
      var id := IdAt(issued);
      var ds := agents[t].delegations + [Delegation(id, worker, true)];
      AgentsOk(agents[t := agents[t].(delegations := ds)], issued + 1, issuer[id := t])
  {
    var id := IdAt(issued);
    var ds := agents[t].delegations + [Delegation(id, worker, true)];
    var after, issuer' := agents[t := agents[t].(delegations := ds)], issuer[id := t];
    assert forall i :: 0 <= i < AGENTS ==> AgentOk(after[i]);
    hide AgentOk, IdAt;
    if issued + 1 <= IDS {
      forall i | 0 <= i < AGENTS
        ensures Tracks(after[i].delegations, i, issued + 1, issuer')
      {
        TrackOne(agents[i].delegations, i, issued, issuer, id, t);
        if i == t {
          TrackNew(agents[t].delegations, t, issued, issuer', worker);
        }
      }
    }
  }

  lemma TrackOne(ds: seq<Delegation>, i: nat, issued: nat, issuer: map<nat, nat>, id: nat, t: nat)
    requires Tracks(ds, i, issued, issuer) && id == issued + 1
    ensures Tracks(ds, i, issued, issuer[id := t]) && Tracks(ds, i, issued + 1, issuer[id := t])
  {
    forall k | 0 <= k < |ds|
      ensures IssuedBy(ds[k].id, i, issued, issuer[id := t]) && IssuedBy(ds[k].id, i, issued + 1, issuer[id := t])
    {
      assert IssuedBy(ds[k].id, i, issued, issuer);
    }
  }

  lemma TrackNew(ds: seq<Delegation>, t: nat, issued: nat, issuer: map<nat, nat>, worker: nat)
    requires Tracks(ds, t, issued, issuer) && issued + 1 in issuer && issuer[issued + 1] == t
    ensures Tracks(ds + [Delegation(issued + 1, worker, true)], t, issued + 1, issuer)
  {
    var ds' := ds + [Delegation(issued + 1, worker, true)];
    forall k | 0 <= k < |ds'|
      ensures IssuedBy(ds'[k].id, t, issued + 1, issuer)
      ensures k < |ds| ==> ds'[k].id <= issued
    {
      if k < |ds| {
        assert IssuedBy(ds[k].id, t, issued, issuer);
      }
    }
  }

  /** An id is in use exactly when its agent is active, except that initialisation reserves the first for no one. */
  ghost predicate IdsOk(bits: seq<bool>, agents: seq<Agent>, initialized: bool) {
    |bits| == AGENTS == |agents| && !agents[0].active &&
    (forall i :: 0 <= i < AGENTS ==> (bits[i] <==> agents[i].active || (i == 0 && initialized))) &&
    (!initialized ==> forall i :: 0 <= i < AGENTS ==> agents[i] == Gone)
  }

  lemma IdsKeep(bits: seq<bool>, agents: seq<Agent>, t: nat, a: Agent, initialized: bool)
    requires IdsOk(bits, agents, initialized) && t < AGENTS && agents[t].active && a.active
    ensures IdsOk(bits, agents[t := a], initialized)
  {
    assert initialized;
  }

  lemma ActiveIndex(bits: seq<bool>, agents: seq<Agent>, t: nat, initialized: bool)
    requires IdsOk(bits, agents, initialized) && t < AGENTS && agents[t].active
    ensures 0 < t && initialized && |bits| == AGENTS
  {
  }

  /** A spawn or a termination changes one agent and its bit. */
  lemma IdsSet(bits: seq<bool>, agents: seq<Agent>, t: nat, a: Agent)
    requires IdsOk(bits, agents, true) && 0 < t < AGENTS
    ensures IdsOk(bits[t := a.active], agents[t := a], true)
  {
  }

  lemma IdsEmpty(bits: seq<bool>, agents: seq<Agent>)
    requires |bits| == AGENTS == |agents| && AllGone(agents) && forall i :: 0 <= i < AGENTS ==> !bits[i]
    ensures IdsOk(bits, agents, false) && IdsOk(bits[0 := true], agents, true)
  {
  }

  lemma UninitializedGone(bits: seq<bool>, agents: seq<Agent>)
    requires IdsOk(bits, agents, false)
    ensures AllGone(agents) && |bits| == AGENTS == |agents|
  {
  }

  lemma IdsLength(bits: seq<bool>, agents: seq<Agent>, initialized: bool)
    requires IdsOk(bits, agents, initialized)
    ensures |bits| == AGENTS == |agents|
  {
  }

  /** A free bit belongs to an empty slot. */
  lemma FreeSlot(bits: seq<bool>, agents: seq<Agent>, t: nat, issued: nat, issuer: map<nat, nat>)
    requires IdsOk(bits, agents, true) && AgentsOk(agents, issued, issuer) && t < AGENTS && !bits[t]
    ensures agents[t] == Gone && t > 0
    ensures forall i :: 0 < i < AGENTS && bits[i] ==> agents[i].active
  {
    assert AgentOk(agents[t]);
  }

  /** With every bit set, every agent but the first is active. */
  lemma FullBits(bits: seq<bool>, agents: seq<Agent>)
    requires IdsOk(bits, agents, true) && forall i :: 0 <= i < AGENTS ==> bits[i]
    ensures forall i :: 0 < i < AGENTS ==> agents[i].active
  {
  }

  // ---- ownership ----

  /** Some inbox holds `r`. */
  ghost predicate Held(queues: seq<seq<Ref>>, r: Ref) {
    exists i, k :: 0 <= i < |queues| && 0 <= k < |queues[i]| && queues[i][k] == r
  }

  /** Allocated messages and occupied inbox entries correspond one to one. */
  ghost predicate Owned(queues: seq<seq<Ref>>, live: set<Ref>) {
    (forall i, k :: 0 <= i < |queues| && 0 <= k < |queues[i]| ==> queues[i][k] in live) &&
    (forall i, k, j, l ::
       (0 <= i < |queues| && 0 <= k < |queues[i]| && 0 <= j < |queues| && 0 <= l < |queues[j]| &&
        queues[i][k] == queues[j][l]) ==> i == j && k == l) &&
    forall r :: r in live ==> Held(queues, r)
  }

  lemma PushOwned(queues: seq<seq<Ref>>, live: set<Ref>, t: nat, r: Ref)
    requires Owned(queues, live) && t < |queues| && r !in live
    ensures Owned(queues[t := queues[t] + [r]], live + {r})
  {
    var q' := queues[t := queues[t] + [r]];
    forall x | x in live + {r}
      ensures Held(q', x)
    {
      if x == r {
        assert q'[t][|queues[t]|] == r;
      } else {
        var i, k :| 0 <= i < |queues| && 0 <= k < |queues[i]| && queues[i][k] == x;
        assert q'[i][k] == x;
      }
    }
  }

  /** The oldest message of an inbox is allocated, and is the one the agent sees. */
  lemma HeadOf(store: map<Ref, Msg>, queues: seq<seq<Ref>>, agents: seq<Agent>, recv: nat, consumed: nat, t: nat)
    requires Flow(store, queues, agents, recv, consumed) && t < |agents| && queues[t] != []
    ensures |agents[t].box| > 0 && queues[t][0] in store && store[queues[t][0]] == agents[t].box[0]
  {
    assert Points(store, queues[t], agents[t].box);
  }

  /** An inbox's messages are distinct and allocated. */
  lemma QueueDistinct(store: map<Ref, Msg>, queues: seq<seq<Ref>>, agents: seq<Agent>, recv: nat, consumed: nat, t: nat)
    requires Flow(store, queues, agents, recv, consumed) && t < |agents|
    ensures Distinct(queues[t]) && Elements(queues[t]) <= store.Keys
  {
  }

  ghost predicate Distinct(q: seq<Ref>) {
    forall i, j :: 0 <= i < j < |q| ==> q[i] != q[j]
  }

  lemma PopOwned(queues: seq<seq<Ref>>, live: set<Ref>, t: nat)
    requires Owned(queues, live) && t < |queues| && queues[t] != []
    ensures Owned(queues[t := queues[t][1..]], live - {queues[t][0]})
  {
    var q', r := queues[t := queues[t][1..]], queues[t][0];
    forall x | x in live - {r}
      ensures Held(q', x)
    {
      var i, k :| 0 <= i < |queues| && 0 <= k < |queues[i]| && queues[i][k] == x;
      if i == t {
        assert q'[t][k - 1] == x;
      } else {
        assert q'[i][k] == x;
      }
    }
    forall i, k | 0 <= i < |q'| && 0 <= k < |q'[i]|
      ensures q'[i][k] in live - {r}
    {
      if i == t {
        assert q'[i][k] == queues[i][k + 1];
      }
    }
  }

  /** Freeing all of one inbox. */
  lemma DrainOwned(queues: seq<seq<Ref>>, live: set<Ref>, t: nat)
    requires Owned(queues, live) && t < |queues|
    ensures Owned(queues[t := []], live - Elements(queues[t]))
  {
    var q', live' := queues[t := []], live - Elements(queues[t]);
    forall x | x in live'
      ensures Held(q', x)
    {
      var i, k :| 0 <= i < |queues| && 0 <= k < |queues[i]| && queues[i][k] == x;
      assert q'[i][k] == x;
    }
    forall i, k | 0 <= i < |q'| && 0 <= k < |q'[i]|
      ensures q'[i][k] in live'
    {
      assert queues[i][k] in live;
    }
  }

  function Elements(q: seq<Ref>): set<Ref> {
    set r | r in q
  }

  /** With every inbox empty, no message is allocated. */
  lemma NoneLeft(queues: seq<seq<Ref>>, live: set<Ref>)
    requires Owned(queues, live) && forall i :: 0 <= i < |queues| ==> queues[i] == []
    ensures live == {}
  {
    if r :| r in live {
      assert false;
    }
  }

  // ---- contents ----

  /** `box` is what the references in `q` point to. */
  ghost predicate Points(store: map<Ref, Msg>, q: seq<Ref>, box: seq<Msg>) {
    |q| == |box| && forall k :: 0 <= k < |q| ==> q[k] in store && store[q[k]] == box[k]
  }

  ghost predicate Coupled(store: map<Ref, Msg>, queues: seq<seq<Ref>>, agents: seq<Agent>) {
    |queues| == |agents| && forall i :: 0 <= i < |agents| ==> Points(store, queues[i], agents[i].box)
  }

  lemma PushCoupled(store: map<Ref, Msg>, queues: seq<seq<Ref>>, agents: seq<Agent>, t: nat, r: Ref, m: Msg, a: Agent)
    requires Coupled(store, queues, agents) && t < |queues| && r !in store && a.box == agents[t].box + [m]
    ensures Coupled(store[r := m], queues[t := queues[t] + [r]], agents[t := a])
  {
    var q', a', s' := queues[t := queues[t] + [r]], agents[t := a], store[r := m];
    forall i | 0 <= i < |agents|
      ensures Points(s', q'[i], a'[i].box)
    {
      assert Points(store, queues[i], agents[i].box);
    }
  }

  lemma PopCoupled(store: map<Ref, Msg>, queues: seq<seq<Ref>>, agents: seq<Agent>, t: nat, a: Agent)
    requires Coupled(store, queues, agents) && Owned(queues, store.Keys) && t < |queues| && queues[t] != []
    requires |agents[t].box| > 0 && a.box == agents[t].box[1..]
    ensures Coupled(store - {queues[t][0]}, queues[t := queues[t][1..]], agents[t := a])
  {
    var q', a', s' := queues[t := queues[t][1..]], agents[t := a], store - {queues[t][0]};
    forall i | 0 <= i < |agents|
      ensures Points(s', q'[i], a'[i].box)
    {
      assert Points(store, queues[i], agents[i].box);
    }
  }

  lemma DrainCoupled(store: map<Ref, Msg>, queues: seq<seq<Ref>>, agents: seq<Agent>, t: nat, a: Agent)
    requires Coupled(store, queues, agents) && Owned(queues, store.Keys) && t < |queues| && a.box == []
    ensures Coupled(store - Elements(queues[t]), queues[t := []], agents[t := a])
  {
    var q', a', s' := queues[t := []], agents[t := a], store - Elements(queues[t]);
    forall i | 0 <= i < |agents|
      ensures Points(s', q'[i], a'[i].box)
    {
      assert Points(store, queues[i], agents[i].box);
    }
  }

  // ---- totals ----

  function Boxed(agents: seq<Agent>): seq<nat> {
    seq(|agents|, i requires 0 <= i < |agents| => |agents[i].box|)
  }

  lemma BoxedUpdate(agents: seq<Agent>, t: nat, a: Agent)
    requires t < |agents|
    ensures Sum(Boxed(agents[t := a])) == Sum(Boxed(agents)) - |agents[t].box| + |a.box|
  {
    hide Sum;
    SumUpdate(Boxed(agents), t, |a.box|);
    assert Boxed(agents[t := a]) == Boxed(agents)[t := |a.box|];
  }

  /** Messages are owned by the inboxes that hold them, and the receive count is what was consumed plus what waits. */
  ghost predicate Flow(store: map<Ref, Msg>, queues: seq<seq<Ref>>, agents: seq<Agent>, recv: nat, consumed: nat) {
    Coupled(store, queues, agents) && Owned(queues, store.Keys) && recv == consumed + Sum(Boxed(agents))
  }

  lemma FlowPush(store: map<Ref, Msg>, queues: seq<seq<Ref>>, agents: seq<Agent>, recv: nat, consumed: nat,
                 t: nat, r: Ref, m: Msg)
    requires Flow(store, queues, agents, recv, consumed) && t < |agents| == |queues| && r !in store
    ensures Flow(store[r := m], queues[t := queues[t] + [r]], agents[t := Received(agents[t], m)], recv + 1, consumed)
  {
    hide Sum, Coupled, Owned, Points;
    var a := Received(agents[t], m);
    PushCoupled(store, queues, agents, t, r, m, a);
    PushOwned(queues, store.Keys, t, r);
    assert store[r := m].Keys == store.Keys + {r};
    BoxedUpdate(agents, t, a);
  }

  lemma FlowPop(store: map<Ref, Msg>, queues: seq<seq<Ref>>, agents: seq<Agent>, recv: nat, consumed: nat, t: nat, a: Agent)
    requires Flow(store, queues, agents, recv, consumed) && t < |agents| == |queues| && queues[t] != []
    requires |agents[t].box| > 0 && a.box == agents[t].box[1..]
    ensures Flow(store - {queues[t][0]}, queues[t := queues[t][1..]], agents[t := a], recv, consumed + 1)
  {
    hide Sum, Coupled, Owned, Points;
    PopCoupled(store, queues, agents, t, a);
    PopOwned(queues, store.Keys, t);
    assert (store - {queues[t][0]}).Keys == store.Keys - {queues[t][0]};
    BoxedUpdate(agents, t, a);
  }

  lemma FlowDrain(store: map<Ref, Msg>, queues: seq<seq<Ref>>, agents: seq<Agent>, recv: nat, consumed: nat, t: nat, a: Agent)
    requires Flow(store, queues, agents, recv, consumed) && t < |agents| == |queues| && a.box == []
    ensures Flow(store - Elements(queues[t]), queues[t := []], agents[t := a], recv, consumed + |agents[t].box|)
  {
    hide Sum, Coupled, Owned, Points;
    DrainCoupled(store, queues, agents, t, a);
    DrainOwned(queues, store.Keys, t);
    assert (store - Elements(queues[t])).Keys == store.Keys - Elements(queues[t]);
    BoxedUpdate(agents, t, a);
  }

  /** Changing a slot but not its inbox. */
  lemma FlowUpdate(store: map<Ref, Msg>, queues: seq<seq<Ref>>, agents: seq<Agent>, recv: nat, consumed: nat, t: nat, a: Agent)
    requires Flow(store, queues, agents, recv, consumed) && t < |agents| && a.box == agents[t].box
    ensures Flow(store, queues, agents[t := a], recv, consumed)
  {
    hide Sum, Owned, Points;
    BoxedUpdate(agents, t, a);
    assert forall i :: 0 <= i < |agents| ==> Points(store, queues[i], agents[i].box);
  }

  /** The state of a runtime without agents. */
  lemma EmptyOk(agents: seq<Agent>, queues: seq<seq<Ref>>)
    requires |agents| == |queues| == AGENTS
    requires forall i :: 0 <= i < AGENTS ==> agents[i] == Gone && queues[i] == []
    ensures Flow(map[], queues, agents, 0, 0) && AgentsOk(agents, 0, map[]) && Counter(1, 0)
  {
    SumZero(Boxed(agents));
  }

  ghost predicate AllGone(agents: seq<Agent>) {
    forall i :: 0 <= i < |agents| ==> agents[i] == Gone
  }

  /** Without agents no message is left allocated, and all that was received was consumed. */
  lemma NothingLeaks(store: map<Ref, Msg>, queues: seq<seq<Ref>>, agents: seq<Agent>, recv: nat, consumed: nat)
    requires Flow(store, queues, agents, recv, consumed) && AllGone(agents)
    ensures store == map[] && recv == consumed && Flow(store, queues, agents, 0, 0)
  {
    SumZero(Boxed(agents));
    forall i | 0 <= i < |queues|
      ensures queues[i] == []
    {
      assert Points(store, queues[i], agents[i].box);
    }
    NoneLeft(queues, store.Keys);
  }

  lemma AllGoneOk(agents: seq<Agent>)
    requires |agents| == AGENTS && AllGone(agents)
    ensures AgentsOk(agents, 0, map[]) && Counter(1, 0)
  {
  }

  lemma InactiveGone(agents: seq<Agent>, issued: nat, issuer: map<nat, nat>, t: nat)
    requires AgentsOk(agents, issued, issuer) && t < AGENTS && !agents[t].active
    ensures agents[t] == Gone
  {
    assert AgentOk(agents[t]);
  }
}
