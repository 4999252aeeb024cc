/** Runs of the scheduler: no process waits forever, and why the priority limit is needed for that. */
module SchedRun {
  import opened Seqs
  import opened Wrappers
  import opened SchedSpec

  datatype Event = Arrive(e: Entry) | Select(now: nat)

  function Apply(s: Sched, ev: Event): Sched {
    match ev
    case Arrive(e) => Enqueue(s, e)
    case Select(now) => Dequeue(s, now).0
  }

  /** Arrivals carry the current tick; ticks strictly increase from one dequeue to the next. */
  ghost predicate Timely(s: Sched, ev: Event) {
    match ev
    case Arrive(e) => e.waitStart >= s.last
    case Select(now) => now > s.last && forall i :: 0 <= i < |s.q| ==> now >= s.q[i].waitStart
  }

  /** The state after the first `n` events. */
  function After(s: Sched, evs: seq<Event>, n: nat): Sched
    requires n <= |evs|
  {
    if n == 0 then s else Apply(After(s, evs, n - 1), evs[n - 1])
  }

  ghost predicate TimelyRun(s: Sched, evs: seq<Event>) {
    forall k :: 0 <= k < |evs| ==> Timely(After(s, evs, k), evs[k])
  }

  /** No arrival is above the boost limit. */
  ghost predicate Moderate(evs: seq<Event>) {
    forall k :: 0 <= k < |evs| && evs[k].Arrive? ==> evs[k].e.priority <= MAX_BOOST
  }

  /** Event `k` of the run hands the processor to `pid`. */
  ghost predicate Selects(s: Sched, evs: seq<Event>, k: nat, pid: nat) {
    k < |evs| && evs[k].Select? &&
    var r := Dequeue(After(s, evs, k), evs[k].now).1;
    r.Some? && r.value.pid == pid
  }

  function CountSelects(evs: seq<Event>, n: nat): nat
    requires n <= |evs|
  {
    if n == 0 then 0 else CountSelects(evs, n - 1) + if evs[n - 1].Select? then 1 else 0
  }

  lemma ApplyOk(s: Sched, ev: Event)
    requires SchedOk(s)
    ensures SchedOk(Apply(s, ev))
    ensures Fair(s) && (ev.Arrive? ==> ev.e.priority <= MAX_BOOST) ==> Fair(Apply(s, ev))
  {
    if ev.Select? && s.q != [] {
      var a := Age(s, ev.now);
      var t := Dequeue(s, ev.now).0;
      assert Distinct(a.q);
      assert t.q == Without(a.q, Best(a.q));
    }
  }

  /** Every run keeps the queue duplicate-free and within its capacity. */
  lemma {:induction false} RunOk(s: Sched, evs: seq<Event>, n: nat)
    requires SchedOk(s) && n <= |evs|
    ensures SchedOk(After(s, evs, n))
    ensures Fair(s) && Moderate(evs) ==> Fair(After(s, evs, n))
  {
    if n > 0 {
      RunOk(s, evs, n - 1);
      ApplyOk(After(s, evs, n - 1), evs[n - 1]);
    }
  }

  /** One event that does not select `pid` leaves it queued; a dequeue uses up patience. */
  lemma PatienceStep(t: Sched, ev: Event, pid: nat, i: nat) returns (j: nat)
    requires Fair(t) && Timely(t, ev) && (ev.Arrive? ==> ev.e.priority <= MAX_BOOST)
    requires i < |t.q| && t.q[i].pid == pid
    requires ev.Select? ==> Dequeue(t, ev.now).1.Some? && Dequeue(t, ev.now).1.value.pid != pid
    ensures Fair(Apply(t, ev)) && j < |Apply(t, ev).q| && Apply(t, ev).q[j].pid == pid
    ensures Patience(Apply(t, ev), j) + (if ev.Select? then 1 else 0) <= Patience(t, i)
  {
    ApplyOk(t, ev);
    match ev
    case Arrive(e) =>
      j := i;
    case Select(now) =>
      AgeFair(t, now);
      DequeuePatience(t, now, i);
      j := Shifted(i, Best(Age(t, now).q));
  }

  /** While `pid` is not selected it stays queued, and each dequeue uses up patience. */
  lemma {:induction false} PatienceRuns(s: Sched, evs: seq<Event>, n: nat, pid: nat, i: nat) returns (j: nat)
    requires Fair(s) && TimelyRun(s, evs) && Moderate(evs) && n <= |evs|
    requires i < |s.q| && s.q[i].pid == pid
    requires forall k: nat :: k < n ==> !Selects(s, evs, k, pid)
    ensures Fair(After(s, evs, n)) && j < |After(s, evs, n).q| && After(s, evs, n).q[j].pid == pid
    ensures Patience(After(s, evs, n), j) + CountSelects(evs, n) <= Patience(s, i)
  {
    hide Fair, Patience, Timely, Apply;
    if n == 0 {
      j := i;
    } else {
      var i' := PatienceRuns(s, evs, n - 1, pid, i);
      var t, ev := After(s, evs, n - 1), evs[n - 1];
      assert Timely(t, ev);
      assert !Selects(s, evs, n - 1, pid);
      j := PatienceStep(t, ev, pid, i');
    }
  }

  /** A queued process is selected within 22256 dequeues, whatever else arrives: an entry that waits
      is lifted to the boost limit, and ties go to the oldest. */
  lemma NoStarvation(s: Sched, evs: seq<Event>, pid: nat, i: nat)
    requires Fair(s) && TimelyRun(s, evs) && Moderate(evs)
    requires i < |s.q| && s.q[i].pid == pid
    requires CountSelects(evs, |evs|) > MAX_PATIENCE
    ensures exists k: nat :: Selects(s, evs, k, pid)
  {
    if forall k: nat :: k < |evs| ==> !Selects(s, evs, k, pid) {
      var j := PatienceRuns(s, evs, |evs|, pid, i);
      PatienceBound(s, i);
      PatienceBound(After(s, evs, |evs|), j);
    }
  }

  // ---- Without the limit on priorities ----

  /** A process above the boost limit, and the victim's queue. */
  function Hog(p: Priority): Entry {
    Entry(7, p, 0, 10, false)
  }

  function Victim(p: Priority): Sched {
    Sched([Entry(2, MAX_BOOST, 0, 10, false), Hog(p)], 0, 0)
  }

  /** The hog is run and queued again over and over. */
  function Hogging(p: Priority, n: nat): (evs: seq<Event>)
    ensures |evs| == 2 * n
  {
    seq(2 * n, i requires 0 <= i < 2 * n =>
      if i % 2 == 0 then Select(i / 2 + 1) else Arrive(Hog(p).(waitStart := i / 2 + 1)))
  }

  /** The victim's entry, and the hog right behind it. */
  ghost predicate Hogged(s: Sched, p: Priority, n: nat) {
    |s.q| == 2 && s.q[0].pid == 2 && s.q[0].priority <= MAX_BOOST && s.q[1].pid == 7 && s.q[1].priority == p &&
    s.q[0].waitStart <= n && s.q[1].waitStart <= n && s.last == n
  }

  lemma HogStep(s: Sched, p: Priority, n: nat)
    requires Hogged(s, p, n) && p > MAX_BOOST
    ensures Dequeue(s, n + 1).1.Some? && Dequeue(s, n + 1).1.value.pid == 7
    ensures Timely(s, Select(n + 1)) && Timely(Dequeue(s, n + 1).0, Arrive(Hog(p).(waitStart := n + 1)))
    ensures Hogged(Enqueue(Dequeue(s, n + 1).0, Hog(p).(waitStart := n + 1)), p, n + 1)
  {
    var a := Age(s, n + 1);
    assert a.q[0].priority <= MAX_BOOST && a.q[1].priority == p;
    assert Best(a.q) == 1;
    assert Without(a.q, 1) == [a.q[0]];
  }

  lemma {:induction false} HogRuns(p: Priority, n: nat, k: nat)
    requires k <= n && p > MAX_BOOST
    ensures Hogged(After(Victim(p), Hogging(p, n), 2 * k), p, k)
    ensures k < n ==>
      After(Victim(p), Hogging(p, n), 2 * k + 1) == Dequeue(After(Victim(p), Hogging(p, n), 2 * k), k + 1).0
  {
    hide Dequeue, Enqueue, Hogged;
    var evs := Hogging(p, n);
    if k > 0 {
      HogRuns(p, n, k - 1);
      HogStep(After(Victim(p), evs, 2 * (k - 1)), p, k - 1);
      assert evs[2 * k - 1] == Arrive(Hog(p).(waitStart := k));
      assert After(Victim(p), evs, 2 * k) == Apply(After(Victim(p), evs, 2 * k - 1), evs[2 * k - 1]);
    } else {
      HogStart(p);
    }
    if k < n {
      assert evs[2 * k] == Select(k + 1);
      assert After(Victim(p), evs, 2 * k + 1) == Apply(After(Victim(p), evs, 2 * k), evs[2 * k]);
    }
  }

  lemma HogStart(p: Priority)
    ensures Hogged(Victim(p), p, 0)
  {
  }

  /** Next to a process of any priority above 200, one at priority 200 is passed over in every dequeue, forever:
      the limit in NoStarvation is exact. */
  lemma HighPriorityStarves(p: Priority, n: nat)
    requires p > MAX_BOOST
    ensures SchedOk(Victim(p)) && Victim(p).q[0] == Entry(2, MAX_BOOST, 0, 10, false)
    ensures TimelyRun(Victim(p), Hogging(p, n)) && CountSelects(Hogging(p, n), 2 * n) == n
    ensures forall k: nat :: !Selects(Victim(p), Hogging(p, n), k, 2)
  {
    hide Dequeue, Enqueue, Hogged, After, Timely;
    var evs := Hogging(p, n);
    forall i: nat | i < |evs|
      ensures Timely(After(Victim(p), evs, i), evs[i]) && !Selects(Victim(p), evs, i, 2)
    {
      var k := i / 2;
      HogRuns(p, n, k);
      HogStep(After(Victim(p), evs, 2 * k), p, k);
      assert evs[2 * k] == Select(k + 1) && evs[2 * k + 1] == Arrive(Hog(p).(waitStart := k + 1));
      assert i == 2 * k || i == 2 * k + 1;
    }
    HogCount(p, n, n);
  }

  lemma {:induction false} HogCount(p: Priority, n: nat, k: nat)
    requires k <= n
    ensures CountSelects(Hogging(p, n), 2 * k) == k
  {
    if k > 0 {
      HogCount(p, n, k - 1);
      var evs := Hogging(p, n);
      assert evs[2 * k - 1].Arrive? && evs[2 * k - 2].Select?;
      assert CountSelects(evs, 2 * k) == CountSelects(evs, 2 * k - 1);
      assert CountSelects(evs, 2 * k - 1) == CountSelects(evs, 2 * k - 2) + 1;
    }
  }
}
