/** One process's message queue: a ring with removal at any place and receive by sender. */
module IpcQueues {
  import opened Seqs
  import opened Wrappers
  import opened Ring64

  /** An internal message; the payload is its bytes. */
  datatype Message = Message(id: nat, sender: nat, target: nat, caps: bv64, tick: nat, payload: seq<bv8>)

  /** The messages of one sender, in order. */
  function From(q: seq<Message>, sender: nat): seq<Message> {
    if q == [] then []
    else if q[|q| - 1].sender == sender then From(q[..|q| - 1], sender) + [q[|q| - 1]]
    else From(q[..|q| - 1], sender)
  }

  lemma {:induction false} FromAppend(q: seq<Message>, r: seq<Message>, sender: nat)
    ensures From(q + r, sender) == From(q, sender) + From(r, sender)
  {
    if r == [] {
      assert q + r == q;
    } else {
      var n := |r| - 1;
      assert (q + r)[..|q + r| - 1] == q + r[..n];
      FromAppend(q, r[..n], sender);
    }
  }

  lemma FromSingle(m: Message, sender: nat)
    ensures From([m], sender) == if m.sender == sender then [m] else []
  {
    assert From([m][..0], sender) == [];
  }

  lemma {:induction false} FromNone(q: seq<Message>, sender: nat)
    requires forall m :: m in q ==> m.sender != sender
    ensures From(q, sender) == []
  {
    if q != [] {
      assert q[|q| - 1] in q;
      FromNone(q[..|q| - 1], sender);
    }
  }

  lemma Arrive(log: seq<Message>, done: seq<Message>, q: seq<Message>, m: Message, sender: nat)
    requires From(log, sender) == From(done, sender) + From(q, sender)
    ensures From(log + [m], sender) == From(done, sender) + From(q + [m], sender)
  {
    FromAppend(log, [m], sender);
    FromAppend(q, [m], sender);
  }

  /** Index `k` holds the oldest message that `filter` accepts; filter 0 accepts every sender. */
  ghost predicate OldestFrom(q: seq<Message>, filter: nat, k: nat) {
    k < |q| && Accepts(filter, q[k]) && forall i :: 0 <= i < k ==> !Accepts(filter, q[i])
  }

  ghost predicate NoneFrom(q: seq<Message>, filter: nat) {
    forall i :: 0 <= i < |q| ==> !Accepts(filter, q[i])
  }

  predicate Accepts(filter: nat, m: Message) {
    filter == 0 || m.sender == filter
  }

  /** Taking out a sender's oldest message takes the first of that sender's, and no other sender's. */
  lemma TakeOldest(q: seq<Message>, k: nat, sender: nat)
    requires k < |q| && forall i :: 0 <= i < k ==> q[i].sender != q[k].sender
    ensures From(q, sender) == (if q[k].sender == sender then [q[k]] else []) + From(Without(q, k), sender)
  {
    var a, b := q[..k], q[k + 1..];
    assert q == a + [q[k]] + b;
    FromAppend(a + [q[k]], b, sender);
    FromAppend(a, [q[k]], sender);
    FromAppend(a, b, sender);
    assert From([q[k]][..0], sender) == [];
    if q[k].sender == sender {
      forall m | m in a
        ensures m.sender != sender
      {
      }
      FromNone(a, sender);
    }
  }

  /** Removing a sender's oldest message and delivering it keeps that and every other sender's order. */
  lemma Deliver(done: seq<Message>, q: seq<Message>, k: nat, sender: nat)
    requires k < |q| && forall i :: 0 <= i < k ==> q[i].sender != q[k].sender
    ensures From(done + [q[k]], sender) + From(Without(q, k), sender) == From(done, sender) + From(q, sender)
  {
    hide From;
    TakeOldest(q, k, sender);
    FromAppend(done, [q[k]], sender);
    FromSingle(q[k], sender);
  }

  ghost predicate IdsIncrease(q: seq<Message>) {
    forall i, j :: 0 <= i < j < |q| ==> q[i].id < q[j].id
  }

  /** The history of a queue: all that was put in, all that was taken out, and what is pending, in order. */
  datatype Ledger = Ledger(arrived: seq<Message>, delivered: seq<Message>, pending: seq<Message>)

  /** Nothing is lost or duplicated, and each sender's messages leave in the order they came. */
  ghost predicate Balanced(l: Ledger) {
    |l.arrived| == |l.delivered| + |l.pending| &&
    (forall s: nat :: From(l.arrived, s) == From(l.delivered, s) + From(l.pending, s)) &&
    forall m :: m in l.pending ==> m in l.arrived
  }

  function Arrives(l: Ledger, m: Message): Ledger {
    l.(arrived := l.arrived + [m], pending := l.pending + [m])
  }

  function Leaves(l: Ledger, k: nat): Ledger
    requires k < |l.pending|
  {
    l.(delivered := l.delivered + [l.pending[k]], pending := Without(l.pending, k))
  }

  lemma ArrivesBalanced(l: Ledger, m: Message)
    requires Balanced(l)
    ensures Balanced(Arrives(l, m))
  {
    hide From;
    forall s: nat
      ensures From(Arrives(l, m).arrived, s) == From(l.delivered, s) + From(Arrives(l, m).pending, s)
    {
      Arrive(l.arrived, l.delivered, l.pending, m, s);
    }
  }

  lemma LeavesBalanced(l: Ledger, filter: nat, k: nat)
    requires Balanced(l) && OldestFrom(l.pending, filter, k)
    ensures Balanced(Leaves(l, k))
  {
    hide From;
    forall s: nat
      ensures From(l.arrived, s) == From(Leaves(l, k).delivered, s) + From(Leaves(l, k).pending, s)
    {
      Deliver(l.delivered, l.pending, k, s);
    }
  }

  /** `r` is the receive the filter asks for: nothing if no pending message is accepted, else the oldest that is. */
  ghost predicate Receives(l: Ledger, filter: nat, r: Option<Message>, after: Ledger) {
    match r
    case None => NoneFrom(l.pending, filter) && after == l
    case Some(m) => exists k: nat :: OldestFrom(l.pending, filter, k) && m == l.pending[k] && after == Leaves(l, k)
  }

  class IpcQueue {
    const messages: array<Message>
    var head: nat
    var tail: nat
    var count: nat
    var totalRecv: nat
    var dropped: nat

    ghost var ledger: Ledger

    ghost predicate Shape()
      reads this
    {
      messages.Length == SIZE && head < SIZE && count <= SIZE && tail == Slot(head, count)
    }

    /** The ring holds the pending messages, oldest first. */
    ghost predicate Valid()
      reads this, messages
    {
      Shape() && totalRecv == |ledger.arrived| && count == |ledger.pending| &&
      Logical(messages[..], head, count) == ledger.pending && Balanced(ledger)
    }

    constructor ()
      ensures Valid() && ledger == Ledger([], [], [])
      ensures fresh(messages) && dropped == 0
    {
      messages := new Message[SIZE](_ => Message(0, 0, 0, 0, 0, []));
      head, tail, count, totalRecv, dropped := 0, 0, 0, 0, 0;
      ledger := Ledger([], [], []);
    }

    /** Append a message; a full queue drops it. */
    method Enqueue(m: Message) returns (ok: bool)
      requires Valid()
      modifies this, messages
      ensures Valid() && ok == (old(count) < SIZE)
      ensures ledger == if ok then Arrives(old(ledger), m) else old(ledger)
      ensures dropped == old(dropped) + if ok then 0 else 1
    {
      hide Slot, Balanced;
      if count >= SIZE {
        dropped := dropped + 1;
        return false;
      }
      Append(messages[..], head, count, m);
      NextSlot(head, count);
      ArrivesBalanced(ledger, m);
      messages[tail] := m;
      tail := (tail + 1) % SIZE;
      count := count + 1;
      totalRecv := totalRecv + 1;
      ledger := Arrives(ledger, m);
      return true;
    }

    /** Logical index of the oldest message the filter accepts. */
    method Find(filter: nat) returns (r: int)
      requires Valid()
      ensures r == -1 ==> NoneFrom(ledger.pending, filter)
      ensures r != -1 ==> 0 <= r && OldestFrom(ledger.pending, filter, r)
    {
      hide Slot, Balanced;
      if filter != 0 {
        for i := 0 to count
          invariant forall k :: 0 <= k < i ==> !Accepts(filter, ledger.pending[k])
        {
          var idx := Slot(head, i);
          assert ledger.pending[i] == messages[idx];
          if messages[idx].sender == filter {
            return i;
          }
        }
        return -1;
      } else if count > 0 {
        return 0;
      }
      return -1;
    }

    /** Close the gap at logical index `k`: each later message moves down by one slot. */
    method ShiftDown(k: nat)
      requires Shape() && k < count
      modifies messages
      ensures Logical(messages[..], head, count)[..count - 1] == Without(old(Logical(messages[..], head, count)), k)
    {
      hide Slot;
      ghost var q := Logical(messages[..], head, count);
      for i := k to count - 1
        invariant forall j :: 0 <= j < count ==> messages[Slot(head, j)] == Shifted(q, k, i, j)
      {
        var curr := Slot(head, i);
        var next := Slot(head, i + 1);
        forall j | 0 <= j < count && j != i
          ensures Slot(head, j) != curr
        {
          if Slot(head, j) == Slot(head, i) {
            SlotInjective(head, j, i);
          }
        }
        messages[curr] := messages[next];
      }
    }

    /** Delete the message at logical index `k`; the others keep their order. */
    method Remove(k: nat)
      requires Shape() && k < count
      modifies messages, `tail, `count
      ensures Shape() && count == old(count) - 1
      ensures Logical(messages[..], head, count) == Without(old(Logical(messages[..], head, count)), k)
    {
      hide Slot;
      ShiftDown(k);
      NextSlot(head, count - 1);
      assert Logical(messages[..], head, count - 1) == Logical(messages[..], head, count)[..count - 1];
      count := count - 1;
      tail := (tail - 1 + SIZE) % SIZE;
    }

    /** Receive the oldest message the filter accepts, if any. */
    method Receive(filter: nat) returns (r: Option<Message>)
      requires Valid()
      modifies messages, `tail, `count, `ledger
      ensures Valid() && Receives(old(ledger), filter, r, ledger)
    {
      hide Slot, Balanced;
      var k := Find(filter);
      if k == -1 {
        return None;
      }
      var m := messages[Slot(head, k)];
      assert m == ledger.pending[k];
      LeavesBalanced(ledger, filter, k);
      Remove(k);
      ledger := Leaves(ledger, k);
      return Some(m);
    }
  }
}
