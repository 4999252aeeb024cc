/** The ready queue as a sequence: selection, aging, and the bound on waiting that aging gives. */
module SchedSpec {
  import opened Seqs
  import opened Wrappers

  const QUEUE_SIZE: nat := 256
  const BOOST_INTERVAL: nat := 1000
  const BOOST_AMOUNT: nat := 10
  const MAX_BOOST: nat := 200

  type Priority = p: nat | p < 256

  datatype Entry = Entry(pid: nat, priority: Priority, waitStart: nat, slice: nat, thinking: bool)

  /** Index `k` holds the earliest entry of maximal priority. */
  ghost predicate IsBest(q: seq<Entry>, k: nat) {
    k < |q| && (forall i :: 0 <= i < |q| ==> q[i].priority <= q[k].priority) &&
    forall i :: 0 <= i < k ==> q[i].priority < q[k].priority
  }

  /** The scan for the best entry among the first `n`. */
  function BestOf(q: seq<Entry>, n: nat): (k: nat)
    requires 0 < n <= |q|
    ensures IsBest(q[..n], k)
  {
    if n == 1 then 0
    else
      var k := BestOf(q, n - 1);
      if q[n - 1].priority > q[k].priority then n - 1 else k
  }

  function Best(q: seq<Entry>): (k: nat)
    requires q != []
    ensures IsBest(q, k)
  {
    assert q[..|q|] == q;
    BestOf(q, |q|)
  }

  /** The boost one entry gets in an aging round. */
  function Boost(e: Entry, now: nat): (r: Entry)
    ensures r.pid == e.pid && r.waitStart == e.waitStart
    ensures e.priority <= MAX_BOOST ==> e.priority <= r.priority <= MAX_BOOST
    ensures e.priority > MAX_BOOST ==> r == e
  {
    if now - e.waitStart > BOOST_INTERVAL && e.priority < MAX_BOOST then
      e.(priority := if e.priority + BOOST_AMOUNT > MAX_BOOST then MAX_BOOST else e.priority + BOOST_AMOUNT)
    else e
  }

  function BoostAll(q: seq<Entry>, now: nat): (r: seq<Entry>)
    ensures |r| == |q|
    ensures forall i :: 0 <= i < |q| ==> r[i] == Boost(q[i], now)
  {
    seq(|q|, i requires 0 <= i < |q| => Boost(q[i], now))
  }

  /** The queue, the aging timer, and the tick of the last dequeue. */
  datatype Sched = Sched(q: seq<Entry>, timer: nat, last: int)

  /** Every 1000th dequeue boosts the entries that have waited long. */
  function Age(s: Sched, now: nat): Sched {
    if s.timer + 1 < BOOST_INTERVAL then s.(timer := s.timer + 1)
    else s.(q := BoostAll(s.q, now), timer := 0)
  }

  function Dequeue(s: Sched, now: nat): (Sched, Option<Entry>) {
    if s.q == [] then (s, None)
    else
      var a := Age(s, now);
      var k := Best(a.q);
      (a.(q := Without(a.q, k), last := now), Some(a.q[k]))
  }

  predicate Queued(q: seq<Entry>, pid: nat) {
    exists i :: 0 <= i < |q| && q[i].pid == pid
  }

  /** An entry already queued is not added again; a full queue takes no more. */
  function Enqueue(s: Sched, e: Entry): Sched {
    if Queued(s.q, e.pid) || |s.q| >= QUEUE_SIZE then s else s.(q := s.q + [e])
  }

  ghost predicate Distinct(q: seq<Entry>) {
    forall i, j :: 0 <= i < j < |q| ==> q[i].pid != q[j].pid
  }

  /** What every run keeps: a duplicate-free queue of bounded length and a running timer. */
  ghost predicate SchedOk(s: Sched) {
    |s.q| <= QUEUE_SIZE && Distinct(s.q) && s.timer < BOOST_INTERVAL
  }

  /** Moreover, no priority above the boost limit. */
  ghost predicate Fair(s: Sched) {
    SchedOk(s) && forall i :: 0 <= i < |s.q| ==> s.q[i].priority <= MAX_BOOST
  }

  // ---- Waiting is bounded ----

  /** How far an entry that starts waiting at `start` has surely waited, before the next dequeue. */
  function Waited(s: Sched, start: nat): int {
    if s.last >= start then s.last - start else -1
  }

  /** Boosts until the limit. */
  function BoostsLeft(p: nat): nat {
    if p >= MAX_BOOST then 0 else (MAX_BOOST - p + BOOST_AMOUNT - 1) / BOOST_AMOUNT
  }

  /** Aging rounds that may come before the entry has waited long enough to be boosted. */
  function EarlyRounds(s: Sched, start: nat): nat {
    var w := Waited(s, start);
    if w > BOOST_INTERVAL then 0 else (s.timer + BOOST_INTERVAL - w) / BOOST_INTERVAL
  }

  /** A bound on the dequeues that can still go to others before entry `i` is selected. */
  function Patience(s: Sched, i: nat): (n: int)
    requires i < |s.q|
  {
    var e := s.q[i];
    if e.priority >= MAX_BOOST then i
    else BOOST_INTERVAL * (BoostsLeft(e.priority) + EarlyRounds(s, e.waitStart)) - s.timer + QUEUE_SIZE - 1
  }

  const MAX_PATIENCE: nat := 22255

  lemma PatienceBound(s: Sched, i: nat)
    requires Fair(s) && i < |s.q|
    ensures 0 <= Patience(s, i) <= MAX_PATIENCE
  {
    var e := s.q[i];
    if e.priority < MAX_BOOST {
      assert 1 <= BoostsLeft(e.priority) <= 20;
      assert EarlyRounds(s, e.waitStart) <= 2;
    }
  }

  lemma AgeFair(s: Sched, now: nat)
    requires Fair(s)
    ensures Fair(Age(s, now)) && |Age(s, now).q| == |s.q|
    ensures forall i :: 0 <= i < |s.q| ==> Age(s, now).q[i].pid == s.q[i].pid
  {
  }

  /** Where entry `i` is after the entry at `k` was removed. */
  function Shifted(i: nat, k: nat): nat
    requires i != k
  {
    if i < k then i else i - 1
  }

  /** One dequeue that goes to another entry uses up at least one unit of patience. */
  lemma DequeuePatience(s: Sched, now: nat, i: nat)
    requires Fair(s) && i < |s.q| && now > s.last && now >= s.q[i].waitStart
    requires Best(Age(s, now).q) != i
    ensures var k := Best(Age(s, now).q);
            var t := Dequeue(s, now).0;
            Shifted(i, k) < |t.q| && t.q[Shifted(i, k)].pid == s.q[i].pid &&
            t.q[Shifted(i, k)].waitStart == s.q[i].waitStart &&
            Patience(t, Shifted(i, k)) < Patience(s, i)
  {
    var a := Age(s, now);
    var k := Best(a.q);
    var t := Dequeue(s, now).0;
    var j := Shifted(i, k);
    var e, e' := s.q[i], t.q[j];
    assert e' == a.q[i];
    AgeFair(s, now);
    if e'.priority == MAX_BOOST {
      assert k < i by {
        assert a.q[k].priority == MAX_BOOST;
      }
      if e.priority < MAX_BOOST {
        AboutToPeak(s, i);
      }
    } else {
      WaitingPatience(s, t, now, i, e, e');
    }
  }

  lemma AboutToPeak(s: Sched, i: nat)
    requires Fair(s) && i < |s.q| && s.q[i].priority < MAX_BOOST
    ensures Patience(s, i) >= QUEUE_SIZE
  {
  }

  /** The arithmetic of an entry that stays below the limit. */
  lemma WaitingPatience(s: Sched, t: Sched, now: nat, i: nat, e: Entry, e': Entry)
    requires Fair(s) && i < |s.q| && s.q[i] == e && now > s.last && now >= e.waitStart
    requires t.last == now && t.timer == Age(s, now).timer && e' == Age(s, now).q[i]
    requires e'.priority < MAX_BOOST
    ensures BOOST_INTERVAL * (BoostsLeft(e'.priority) + EarlyRounds(t, e.waitStart)) - t.timer <
            BOOST_INTERVAL * (BoostsLeft(e.priority) + EarlyRounds(s, e.waitStart)) - s.timer
  {
    var w, w' := Waited(s, e.waitStart), now - e.waitStart;
    assert w' > w && w' == Waited(t, e.waitStart);
    if s.timer + 1 < BOOST_INTERVAL {
      assert e' == e;
    } else if w' > BOOST_INTERVAL {
      assert BoostsLeft(e'.priority) == BoostsLeft(e.priority) - 1;
    } else {
      assert e' == e;
    }
  }
}
