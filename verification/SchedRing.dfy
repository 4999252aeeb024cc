/** The circular ready queue: which sequence it holds, and what the shifting removal does to it. */
module SchedRing {
  import opened Seqs
  import opened Wrappers
  import opened SchedSpec

  type Ring = r: seq<Entry> | |r| == QUEUE_SIZE witness seq(QUEUE_SIZE, _ => Entry(0, 0, 0, 0, false))

  function Slot(base: nat, i: nat): (r: nat)
    ensures r < QUEUE_SIZE
  {
    (base + i) % QUEUE_SIZE
  }

  /** The `count` entries from `head` on. */
  function Logical(r: Ring, head: nat, count: nat): (q: seq<Entry>)
    requires count <= QUEUE_SIZE
    ensures |q| == count
    ensures forall i :: 0 <= i < count ==> q[i] == r[Slot(head, i)]
  {
    seq(count, i requires 0 <= i < count => r[Slot(head, i)])
  }

  lemma SlotInjective(base: nat, i: nat, j: nat)
    requires i < QUEUE_SIZE && j < QUEUE_SIZE && Slot(base, i) == Slot(base, j)
    ensures i == j
  {
    var k := (base + i) / QUEUE_SIZE - (base + j) / QUEUE_SIZE;
    assert i - j == QUEUE_SIZE * k;
  }

  /** The ring after `m` steps of the loop that copies each slot from the one after it. */
  function Moves(r: Ring, best: nat, m: nat): Ring {
    if m == 0 then r
    else
      var s := Moves(r, best, m - 1);
      s[Slot(best, m - 1) := s[Slot(best, m)]]
  }

  /** Content of the slot `j` places after `best` after `m` steps: beyond one full turn the
      slots are shifted a second time. */
  function Moved(r: Ring, best: nat, m: nat, j: nat): Entry
    requires j < QUEUE_SIZE && m <= 2 * QUEUE_SIZE - 2
  {
    if m < QUEUE_SIZE then r[Slot(best, if j < m then j + 1 else j)]
    else if j == QUEUE_SIZE - 1 then r[Slot(best, 1)]
    else r[Slot(best, if j < m - QUEUE_SIZE then j + 2 else j + 1)]
  }

  lemma {:induction false} MovesAt(r: Ring, best: nat, m: nat, j: nat)
    requires j < QUEUE_SIZE && m <= 2 * QUEUE_SIZE - 2
    ensures Moves(r, best, m)[Slot(best, j)] == Moved(r, best, m, j)
  {
    hide Slot;
    if m > 0 {
      var s := Moves(r, best, m - 1);
      var d := if m - 1 < QUEUE_SIZE then m - 1 else m - 1 - QUEUE_SIZE;
      var e := if m < QUEUE_SIZE then m else m - QUEUE_SIZE;
      TurnSlot(best, d);
      TurnSlot(best, e);
      MovesAt(r, best, m - 1, j);
      MovesAt(r, best, m - 1, e);
      if Slot(best, j) == Slot(best, d) {
        SlotInjective(best, j, d);
      }
    }
  }

  lemma TurnSlot(best: nat, j: nat)
    ensures Slot(best, j + QUEUE_SIZE) == Slot(best, j)
  {
  }

  lemma ShiftRemovesAt(r: Ring, head: nat, count: nat, k: nat, i: nat)
    requires head < QUEUE_SIZE && k < count <= QUEUE_SIZE && i < count - 1
    ensures Moves(r, Slot(head, k), count - k - 1)[Slot(head, i)] == r[Slot(head, if i < k then i else i + 1)]
  {
    hide Slot, Moves;
    PlaceOf(head, k, i);
    if i >= k {
      MovesAt(r, Slot(head, k), count - k - 1, i - k);
      PlaceOf(head, k, i + 1);
    } else {
      MovesAt(r, Slot(head, k), count - k - 1, i + QUEUE_SIZE - k);
    }
  }

  /** Shifting down everything behind the entry removes exactly that entry. */
  lemma ShiftRemoves(r: Ring, head: nat, count: nat, k: nat)
    requires head < QUEUE_SIZE && k < count <= QUEUE_SIZE
    ensures Logical(Moves(r, Slot(head, k), count - k - 1), head, count - 1) == Without(Logical(r, head, count), k)
  {
    hide Slot, Moves;
    var s, q := Moves(r, Slot(head, k), count - k - 1), Logical(r, head, count);
    forall i | 0 <= i < count - 1
      ensures s[Slot(head, i)] == Without(q, k)[i]
    {
      ShiftRemovesAt(r, head, count, k, i);
    }
  }

  lemma SlotOfSlot(head: nat, k: nat, d: nat)
    ensures Slot(Slot(head, k), d) == Slot(head, k + d)
  {
  }

  /** Slot `i` of the queue as a distance from the entry at `k`. */
  lemma PlaceOf(head: nat, k: nat, i: nat)
    requires head < QUEUE_SIZE && k < QUEUE_SIZE && i <= QUEUE_SIZE
    ensures i >= k ==> Slot(head, i) == Slot(Slot(head, k), i - k)
    ensures i < k ==> Slot(head, i) == Slot(Slot(head, k), i + QUEUE_SIZE - k)
  {
    hide Slot;
    if i >= k {
      SlotOfSlot(head, k, i - k);
    } else {
      SlotOfSlot(head, k, i + QUEUE_SIZE - k);
      TurnSlot(head, i);
    }
  }

  /** What is left when the shift runs 256 steps too far: the oldest entry is gone, and the slot
      behind the queue has been taken in at the end. */
  function Overrun(r: Ring, head: nat, count: nat, k: nat): (q: seq<Entry>)
    requires 0 < k < count <= QUEUE_SIZE
    ensures |q| == count - 1
  {
    Without(Logical(r, head, count), k)[1..] + [r[Slot(head, count)]]
  }

  lemma ShiftOverruns(r: Ring, head: nat, count: nat, k: nat)
    requires head < QUEUE_SIZE && 0 < k < count <= QUEUE_SIZE
    ensures Logical(Moves(r, Slot(head, k), count - k - 1 + QUEUE_SIZE), head, count - 1) == Overrun(r, head, count, k)
  {
    hide Slot;
    var best, m := Slot(head, k), count - k - 1 + QUEUE_SIZE;
    var s, q := Moves(r, best, m), Logical(r, head, count);
    forall i | 0 <= i < count - 1
      ensures s[Slot(head, i)] == Overrun(r, head, count, k)[i]
    {
      PlaceOf(head, k, i);
      if i >= k {
        MovesAt(r, best, m, i - k);
        PlaceOf(head, k, i + 2);
      } else {
        MovesAt(r, best, m, i + QUEUE_SIZE - k);
        PlaceOf(head, k, i + 1);
        PlaceOf(head, k, k + 1);
      }
    }
  }

  /** Where the scan puts the entry, seen from the head: before the array wraps or after. */
  lemma WrapsIff(head: nat, k: nat)
    requires head < QUEUE_SIZE && k < QUEUE_SIZE
    ensures Slot(head, k) >= head <==> head + k < QUEUE_SIZE
    ensures Slot(head, k) >= head ==> Slot(head, k) == head + k
    ensures Slot(head, k) < head ==> Slot(head, k) == head + k - QUEUE_SIZE && k > 0
  {
  }

  /** The overrunning shift yields the right queue only in one accident: a queue of two whose oldest
      entry also lies, stale, in the slot behind the queue. */
  lemma OverrunRightIff(r: Ring, head: nat, count: nat, k: nat)
    requires head < QUEUE_SIZE && 0 < k < count <= QUEUE_SIZE && Distinct(Logical(r, head, count))
    ensures Overrun(r, head, count, k) == Without(Logical(r, head, count), k) <==>
            count == 2 && r[Slot(head, 2)] == r[head]
  {
    var q := Logical(r, head, count);
    var want, got := Without(q, k), Overrun(r, head, count, k);
    assert q[0] == r[head];
    if count > 2 {
      assert got[0] == want[1];
      assert want[0] == q[0];
      assert want[1] == q[if 1 < k then 1 else 2];
      assert q[0].pid != want[1].pid;
    } else {
      assert want == [q[0]] && got == [r[Slot(head, 2)]];
    }
  }

  // ---- The ring as the kernel steps it ----

  datatype RingState = RingState(ring: Ring, head: nat, count: nat, timer: nat, last: int)

  predicate RingOk(r: RingState) {
    r.head < QUEUE_SIZE && r.count <= QUEUE_SIZE && r.timer < BOOST_INTERVAL
  }

  /** The queued entries, oldest first. */
  function Queue(r: RingState): seq<Entry>
    requires RingOk(r)
  {
    Logical(r.ring, r.head, r.count)
  }

  /** The sequence-level scheduler that a ring stands for. */
  function Abs(r: RingState): Sched
    requires RingOk(r)
  {
    Sched(Queue(r), r.timer, r.last)
  }

  /** How far slot `s` lies behind the head. */
  function Place(head: nat, s: nat): (k: nat)
    requires head < QUEUE_SIZE && s < QUEUE_SIZE
    ensures k < QUEUE_SIZE && Slot(head, k) == s
  {
    if s >= head then s - head else s + QUEUE_SIZE - head
  }

  /** The ring after the first `count` slots from the head were boosted. */
  function Aged(r: Ring, head: nat, count: nat, now: nat): (s: Ring)
    requires head < QUEUE_SIZE
  {
    seq(QUEUE_SIZE, i requires 0 <= i < QUEUE_SIZE => if Place(head, i) < count then Boost(r[i], now) else r[i])
  }

  function RingAge(r: RingState, now: nat): (a: RingState)
    requires RingOk(r)
    ensures RingOk(a)
  {
    if r.timer + 1 < BOOST_INTERVAL then r.(timer := r.timer + 1)
    else r.(ring := Aged(r.ring, r.head, r.count, now), timer := 0)
  }

  /** The iterations of the shift loop: the distance is taken in the array, not from the head. */
  function Steps(head: nat, best: nat, count: nat): nat {
    if count - (best - head + 1) < 0 then 0 else count - (best - head + 1)
  }

  function RingDequeue(r: RingState, now: nat): (p: (RingState, Option<Entry>))
    requires RingOk(r)
    ensures RingOk(p.0)
  {
    if r.count == 0 then (r, None)
    else
      var a := RingAge(r, now);
      var best := Slot(a.head, Best(Queue(a)));
      var next :=
        if best == a.head then a.(head := (a.head + 1) % QUEUE_SIZE)
        else a.(ring := Moves(a.ring, best, Steps(a.head, best, a.count)));
      (next.(count := a.count - 1, last := now), Some(a.ring[best]))
  }

  function RingEnqueue(r: RingState, e: Entry): (s: RingState)
    requires RingOk(r)
    ensures RingOk(s)
  {
    if Queued(Queue(r), e.pid) || r.count >= QUEUE_SIZE then r
    else r.(ring := r.ring[Slot(r.head, r.count) := e], count := r.count + 1)
  }

  /** The entry that a dequeue at `now` selects does not lie before the head of the ring. */
  predicate InOrder(r: RingState, now: nat)
    requires RingOk(r)
  {
    r.count == 0 || r.head + Best(Age(Abs(r), now).q) < QUEUE_SIZE
  }

  lemma PlaceSlot(head: nat, k: nat)
    requires head < QUEUE_SIZE && k < QUEUE_SIZE
    ensures Place(head, Slot(head, k)) == k
  {
    hide Slot;
    SlotInjective(head, Place(head, Slot(head, k)), k);
  }

  lemma AgedQueue(r: Ring, head: nat, count: nat, now: nat)
    requires head < QUEUE_SIZE && count <= QUEUE_SIZE
    ensures Logical(Aged(r, head, count, now), head, count) == BoostAll(Logical(r, head, count), now)
  {
    hide Slot, Place;
    var q, p := Logical(Aged(r, head, count, now), head, count), Logical(r, head, count);
    forall i | 0 <= i < count
      ensures q[i] == Boost(p[i], now)
    {
      PlaceSlot(head, i);
    }
  }

  /** Boosting slot by slot. */
  lemma AgedNext(r: Ring, head: nat, i: nat, now: nat)
    requires head < QUEUE_SIZE && i < QUEUE_SIZE
    ensures Aged(r, head, i, now)[Slot(head, i)] == r[Slot(head, i)]
    ensures Aged(r, head, i + 1, now) == Aged(r, head, i, now)[Slot(head, i) := Boost(r[Slot(head, i)], now)]
  {
    hide Slot, Place;
    PlaceSlot(head, i);
    var s, t := Aged(r, head, i + 1, now), Aged(r, head, i, now)[Slot(head, i) := Boost(r[Slot(head, i)], now)];
    forall j | 0 <= j < QUEUE_SIZE
      ensures s[j] == t[j]
    {
      assert Slot(head, Place(head, j)) == j;
    }
  }

  lemma AgedNone(r: Ring, head: nat, now: nat)
    requires head < QUEUE_SIZE
    ensures Aged(r, head, 0, now) == r
  {
  }

  lemma AgeRefines(r: RingState, now: nat)
    requires RingOk(r)
    ensures Abs(RingAge(r, now)) == Age(Abs(r), now)
  {
    AgedQueue(r.ring, r.head, r.count, now);
  }

  lemma EnqueueRefines(r: RingState, e: Entry)
    requires RingOk(r)
    ensures Abs(RingEnqueue(r, e)) == Enqueue(Abs(r), e)
  {
    hide Slot;
    var s := RingEnqueue(r, e);
    if s != r {
      forall i | 0 <= i < r.count
        ensures Slot(r.head, i) != Slot(r.head, r.count)
      {
        if Slot(r.head, i) == Slot(r.head, r.count) {
          SlotInjective(r.head, i, r.count);
        }
      }
      assert Queue(s) == Queue(r) + [e];
    }
  }

  /** Advancing the head drops the oldest entry. */
  lemma DropHead(r: Ring, head: nat, count: nat)
    requires head < QUEUE_SIZE && 0 < count <= QUEUE_SIZE
    ensures Logical(r, (head + 1) % QUEUE_SIZE, count - 1) == Without(Logical(r, head, count), 0)
    ensures Slot((head + 1) % QUEUE_SIZE, count - 1) == Slot(head, count)
  {
    hide Slot;
    var q, s := Without(Logical(r, head, count), 0), Logical(r, (head + 1) % QUEUE_SIZE, count - 1);
    forall i | 0 <= i < count - 1
      ensures s[i] == q[i]
    {
      FromNext(head, i);
    }
    FromNext(head, count - 1);
  }

  lemma FromNext(head: nat, i: nat)
    ensures Slot((head + 1) % QUEUE_SIZE, i) == Slot(head, i + 1)
  {
  }

  lemma OnlyHead(head: nat, k: nat)
    requires head < QUEUE_SIZE && k < QUEUE_SIZE
    ensures Slot(head, k) == head <==> k == 0
  {
    hide Slot;
    HeadSlot(head);
    if Slot(head, k) == head {
      SlotInjective(head, k, 0);
    }
  }

  lemma HeadSlot(head: nat)
    requires head < QUEUE_SIZE
    ensures Slot(head, 0) == head
  {
  }

  /** What a dequeue leaves, whichever side of the head the selected entry lies on. */
  function Remaining(r: RingState, now: nat): seq<Entry>
    requires RingOk(r) && r.count > 0
  {
    var q := Age(Abs(r), now).q;
    if InOrder(r, now) then Without(q, Best(q)) else Overrun(RingAge(r, now).ring, r.head, r.count, Best(q))
  }

  lemma DequeueQueue(r: RingState, now: nat)
    requires RingOk(r) && r.count > 0
    ensures Queue(RingDequeue(r, now).0) == Remaining(r, now)
    ensures RingDequeue(r, now).1 == Some(Age(Abs(r), now).q[Best(Age(Abs(r), now).q)])
  {
    hide Slot, Logical, Moves, Overrun, Without, Best;
    var a := RingAge(r, now);
    var k := Best(Queue(a));
    AgeRefines(r, now);
    OnlyHead(a.head, k);
    WrapsIff(a.head, k);
    if k == 0 {
      DropHead(a.ring, a.head, a.count);
    } else if InOrder(r, now) {
      ShiftRemoves(a.ring, a.head, a.count, k);
    } else {
      ShiftOverruns(a.ring, a.head, a.count, k);
    }
  }

  /** The dequeue removes exactly the selected entry: it does not lie before the head, or the oldest of two entries
      also lies, stale, in the slot behind the queue. */
  predicate Exact(r: RingState, now: nat)
    requires RingOk(r)
  {
    InOrder(r, now) ||
    (r.count == 2 && RingAge(r, now).ring[Slot(r.head, 2)] == RingAge(r, now).ring[r.head])
  }

  /** A dequeue of the ring is the dequeue of the sequence it holds if and only if it is exact. */
  lemma DequeueExactIff(r: RingState, now: nat)
    requires RingOk(r) && Distinct(Queue(r))
    ensures Abs(RingDequeue(r, now).0) == Dequeue(Abs(r), now).0 <==> Exact(r, now)
    ensures RingDequeue(r, now).1 == Dequeue(Abs(r), now).1
  {
    hide Slot, Overrun, Best;
    if r.count > 0 {
      var a := RingAge(r, now);
      AgeRefines(r, now);
      DequeueQueue(r, now);
      assert Distinct(Queue(a));
      if !InOrder(r, now) {
        OverrunRightIff(a.ring, a.head, a.count, Best(Queue(a)));
      }
    }
  }
}
