/** An agent's slot: its descriptor and its inbox, a ring of message references. */
module AgentSlots {
  import opened A2aSpec
  import opened Ring64
  import opened MsgPools

  /** A slot holds the references `q` and shows the agent `a`. */
  ghost predicate Fits(s: AgentSlot, q: seq<Ref>, a: Agent)
    reads s, s.inbox
  {
    s.Valid() && s.queue == q && s.active == a.active && s.caps == a.caps && s.state == a.state &&
    s.delegations == a.delegations && |q| == |a.box|
  }

  /** Writing to the slot just taken out leaves the rest of the ring. */
  lemma Blanked(r: seq<Ref>, head: nat, count: nat)
    requires |r| == SIZE && 0 < count <= SIZE && head < SIZE
    ensures Logical(r[head := Null], (head + 1) % SIZE, count - 1) == Logical(r, (head + 1) % SIZE, count - 1)
  {
    hide Slot;
    var next := (head + 1) % SIZE;
    forall i | 0 <= i < count - 1
      ensures Slot(next, i) != head
    {
      NextSlot(head, i);
      if Slot(head, i + 1) == head {
        SlotInjective(head, i + 1, 0);
      }
    }
  }

  class AgentSlot {
    var active: bool
    var caps: bv64
    var state: State
    const inbox: array<Ref>
    var head: nat
    var tail: nat
    var count: nat
    var total: nat
    var delegations: seq<Delegation>

    /** The references in the inbox, oldest first. */
    ghost var queue: seq<Ref>

    ghost predicate Valid()
      reads this`head, this`tail, this`count, this`queue, this`delegations, inbox
    {
      inbox.Length == SIZE && head < SIZE && count <= SIZE && tail == Slot(head, count) &&
      Logical(inbox[..], head, count) == queue && |delegations| <= MAX_DELEGATIONS
    }

    constructor ()
      ensures Fits(this, [], Gone) && fresh(inbox)
    {
      inbox := new Ref[SIZE](_ => Null);
      active, caps, state, delegations := false, 0, Created, [];
      head, tail, count, total := 0, 0, 0, 0;
      queue := [];
    }

    /** Append a reference unless the inbox is full. */
    method Enqueue(r: Ref) returns (st: Status)
      requires Valid()
      modifies inbox, `tail, `count, `total, `queue
      ensures Valid() && st == if |old(queue)| >= SIZE then Overflow else Ok
      ensures queue == if st == Ok then old(queue) + [r] else old(queue)
    {
      hide Slot;
      if count >= SIZE {
        return Overflow;
      }
      Append(inbox[..], head, count, r);
      NextSlot(head, count);
      inbox[tail] := r;
      tail := (tail + 1) % SIZE;
      count := count + 1;
      total := total + 1;
      queue := queue + [r];
      return Ok;
    }

    /** Take the oldest reference out. */
    method Dequeue() returns (st: Status, r: Ref)
      requires Valid()
      modifies inbox, `head, `count, `queue
      ensures Valid() && st == if old(queue) == [] then Timeout else Ok
      ensures st == Ok ==> r == old(queue)[0] && queue == old(queue)[1..]
      ensures st != Ok ==> queue == old(queue)
    {
      hide Slot;
      if count == 0 {
        return Timeout, Null;
      }
      NextSlot(head, 0);
      DropFirst(inbox[..], head, count);
      r := inbox[head];
      assert r == queue[0];
      Blanked(inbox[..], head, count);
      inbox[head] := Null;
      head := (head + 1) % SIZE;
      count := count - 1;
      queue := queue[1..];
      return Ok, r;
    }

    /** Take in a message for agent `a` and wake it. */
    method Accept(r: Ref, ghost q: seq<Ref>, ghost a: Agent, ghost m: Msg) returns (st: Status)
      requires Fits(this, q, a)
      modifies inbox, `tail, `count, `total, `queue, `state
      ensures st == if |a.box| >= INBOX then Overflow else Ok
      ensures Fits(this, if st == Ok then q + [r] else q, if st == Ok then Received(a, m) else a)
    {
      hide Slot, Logical;
      st := Enqueue(r);
      if st == Ok && state == Waiting {
        state := Idle;
      }
    }

    /** Take the oldest message out for agent `a`. */
    method Yield(ghost q: seq<Ref>, ghost a: Agent) returns (st: Status, r: Ref)
      requires Fits(this, q, a)
      modifies inbox, `head, `count, `queue
      ensures st == if a.box == [] then Timeout else Ok
      ensures st == Ok ==> q != [] && r == q[0] && a.box != [] && Fits(this, q[1..], Taking(a))
      ensures st != Ok ==> Fits(this, q, a)
    {
      hide Slot, Logical;
      st, r := Dequeue();
    }

    /** The descriptor of `a` takes the state `s`. */
    method SetState(s: State, ghost q: seq<Ref>, ghost a: Agent)
      requires Fits(this, q, a)
      modifies this`state
      ensures Fits(this, q, a.(state := s))
    {
      hide Slot, Logical;
      state := s;
    }

    method AddDelegation(d: Delegation, ghost q: seq<Ref>, ghost a: Agent)
      requires Fits(this, q, a) && |a.delegations| < MAX_DELEGATIONS
      modifies this`delegations
      ensures Fits(this, q, a.(delegations := a.delegations + [d]))
    {
      hide Slot, Logical;
      delegations := delegations + [d];
    }

    method CloseDelegation(k: nat, ghost q: seq<Ref>, ghost a: Agent)
      requires Fits(this, q, a) && k < |a.delegations|
      modifies this`delegations
      ensures Fits(this, q, a.(delegations := a.delegations[k := a.delegations[k].(open := false)]))
    {
      hide Slot, Logical;
      delegations := delegations[k := delegations[k].(open := false)];
    }

    /** Start a new agent in an unused slot. */
    method Start(caps: bv64)
      requires Fits(this, [], Gone)
      modifies this`active, this`caps, this`state
      ensures Fits(this, [], Born(caps))
    {
      hide Slot, Logical;
      active, this.caps, state := true, caps, Created;
    }

    /** Give every message in the inbox back to the pool and clear the slot. */
    method Drain(pool: MsgPool, ghost q: seq<Ref>, ghost a: Agent)
      requires Fits(this, q, a) && pool.Valid() && Distinct(q) && Elements(q) <= pool.store.Keys
      modifies this, inbox, pool`store, pool`heap, pool`freed, pool.messages, pool.taken
      ensures Fits(this, [], Gone) && pool.Valid() && pool.store == old(pool.store) - Elements(q)
    {
      hide Slot, MsgPool.Valid;
      ghost var all := pool.store;
      for i := 0 to count
        invariant pool.Valid() && inbox.Length == SIZE && count == |q| == old(count) && head == old(head)
        invariant pool.store == all - Elements(q[..i])
        invariant forall j :: i <= j < |q| ==> inbox[Slot(head, j)] == q[j]
      {
        var idx := Slot(head, i);
        var r := inbox[idx];
        assert r == q[i] && q[..i + 1] == q[..i] + [r];
        assert r !in Elements(q[..i]);
        forall j | i < j < |q|
          ensures Slot(head, j) != idx
        {
          assert inbox[Slot(head, j)] == q[j] != q[i];
        }
        pool.Free(r);
        inbox[idx] := Null;
        assert pool.store == all - Elements(q[..i + 1]);
      }
      assert q[..|q|] == q;
      Reset();
    }

    /** Empty a slot whose messages have been given back. */
    method Reset()
      requires inbox.Length == SIZE
      modifies this
      ensures Fits(this, [], Gone)
    {
      head, tail, count, total := 0, 0, 0, 0;
      active, caps, state, delegations := false, 0, Created, [];
      queue := [];
    }
  }
}
