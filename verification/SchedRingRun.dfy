/** Runs of the ring: they are runs of the sequence exactly while no selected entry lies before the head, and without
    that condition a queued process can be lost. */
module SchedRingRun {
  import opened Seqs
  import opened Wrappers
  import opened SchedSpec
  import opened SchedRing
  import opened SchedRun

  function RingApply(r: RingState, ev: Event): (s: RingState)
    requires RingOk(r)
    ensures RingOk(s)
  {
    match ev
    case Arrive(e) => RingEnqueue(r, e)
    case Select(now) => RingDequeue(r, now).0
  }

  /** The ring after the first `n` events. */
  function RingAfter(r: RingState, evs: seq<Event>, n: nat): (s: RingState)
    requires RingOk(r) && n <= |evs|
    ensures RingOk(s)
  {
    if n == 0 then r else RingApply(RingAfter(r, evs, n - 1), evs[n - 1])
  }

  /** Every dequeue of the run removes exactly the entry it selects. */
  ghost predicate ExactRun(r: RingState, evs: seq<Event>)
    requires RingOk(r)
  {
    forall k :: 0 <= k < |evs| && evs[k].Select? ==> Exact(RingAfter(r, evs, k), evs[k].now)
  }

  /** The ring stands for the sequence after every event. */
  ghost predicate Refines(r: RingState, evs: seq<Event>)
    requires RingOk(r)
  {
    forall n :: 0 <= n <= |evs| ==> Abs(RingAfter(r, evs, n)) == After(Abs(r), evs, n)
  }

  /** Event `k` of the run hands the processor to `pid`. */
  ghost predicate RingSelects(r: RingState, evs: seq<Event>, k: nat, pid: nat)
    requires RingOk(r)
  {
    k < |evs| && evs[k].Select? &&
    var p := RingDequeue(RingAfter(r, evs, k), evs[k].now).1;
    p.Some? && p.value.pid == pid
  }

  lemma {:induction false} RunRefines(r: RingState, evs: seq<Event>, n: nat)
    requires RingOk(r) && SchedOk(Abs(r)) && ExactRun(r, evs) && n <= |evs|
    ensures Abs(RingAfter(r, evs, n)) == After(Abs(r), evs, n)
  {
    hide RingDequeue, RingEnqueue, Dequeue, Enqueue, Exact;
    if n > 0 {
      var s := RingAfter(r, evs, n - 1);
      RunRefines(r, evs, n - 1);
      RunOk(Abs(r), evs, n - 1);
      match evs[n - 1]
      case Arrive(e) => EnqueueRefines(s, e);
      case Select(now) => DequeueExactIff(s, now);
    }
  }

  /** A run of the ring is a run of the sequence if and only if each of its dequeues is exact. */
  lemma RunRefinesIff(r: RingState, evs: seq<Event>)
    requires RingOk(r) && SchedOk(Abs(r))
    ensures Refines(r, evs) <==> ExactRun(r, evs)
  {
    hide RingDequeue, RingEnqueue, Dequeue, Enqueue, Exact, Abs;
    if ExactRun(r, evs) {
      forall n | 0 <= n <= |evs|
        ensures Abs(RingAfter(r, evs, n)) == After(Abs(r), evs, n)
      {
        RunRefines(r, evs, n);
      }
    }
    if Refines(r, evs) {
      forall k | 0 <= k < |evs| && evs[k].Select?
        ensures Exact(RingAfter(r, evs, k), evs[k].now)
      {
        StepExact(r, evs, k);
      }
    }
  }

  lemma StepExact(r: RingState, evs: seq<Event>, k: nat)
    requires RingOk(r) && SchedOk(Abs(r)) && Refines(r, evs) && k < |evs| && evs[k].Select?
    ensures Exact(RingAfter(r, evs, k), evs[k].now)
  {
    hide RingDequeue, RingEnqueue, Dequeue, Enqueue, Exact;
    RunOk(Abs(r), evs, k);
    var m := k + 1;
    assert Abs(RingAfter(r, evs, k)) == After(Abs(r), evs, k);
    assert Abs(RingAfter(r, evs, m)) == After(Abs(r), evs, m);
    DequeueExactIff(RingAfter(r, evs, k), evs[k].now);
  }

  lemma SelectsRefines(r: RingState, evs: seq<Event>, k: nat, pid: nat)
    requires RingOk(r) && SchedOk(Abs(r)) && ExactRun(r, evs)
    ensures RingSelects(r, evs, k, pid) <==> Selects(Abs(r), evs, k, pid)
  {
    hide RingDequeue, Dequeue, Exact;
    if k < |evs| && evs[k].Select? {
      RunRefines(r, evs, k);
      RunOk(Abs(r), evs, k);
      DequeueExactIff(RingAfter(r, evs, k), evs[k].now);
    }
  }

  /** Every run of exact dequeues keeps the ready queue duplicate-free. */
  lemma RingRunOk(r: RingState, evs: seq<Event>, n: nat)
    requires RingOk(r) && ExactRun(r, evs) && n <= |evs|
    requires SchedOk(Abs(r))
    ensures SchedOk(Abs(RingAfter(r, evs, n)))
  {
    RunRefines(r, evs, n);
    RunOk(Abs(r), evs, n);
  }

  /** In every run of exact dequeues with priorities up to 200 a queued process is selected within 22256 dequeues. */
  lemma RingNoStarvation(r: RingState, evs: seq<Event>, pid: nat, i: nat)
    requires RingOk(r) && ExactRun(r, evs)
    requires Fair(Abs(r)) && TimelyRun(Abs(r), evs) && Moderate(evs)
    requires i < r.count && Queue(r)[i].pid == pid
    requires CountSelects(evs, |evs|) > MAX_PATIENCE
    ensures exists k: nat :: RingSelects(r, evs, k, pid)
  {
    hide TimelyRun, ExactRun, Selects, RingSelects;
    NoStarvation(Abs(r), evs, pid, i);
    var k: nat :| Selects(Abs(r), evs, k, pid);
    SelectsRefines(r, evs, k, pid);
  }

  // ---- Without the condition ----

  function Boot(): (r: RingState)
    ensures RingOk(r) && r.count == 0 && r.head == 0
  {
    RingState(seq(QUEUE_SIZE, i requires 0 <= i < QUEUE_SIZE => Entry(0, 0, 0, 0, false)), 0, 0, 0, 0)
  }

  function Busy(tick: nat): Entry {
    Entry(7, 5, tick, 10, false)
  }

  /** One process is queued and run, `n` times. */
  function Turns(n: nat): (evs: seq<Event>)
    ensures |evs| == 2 * n
  {
    seq(2 * n, i requires 0 <= i < 2 * n => if i % 2 == 0 then Arrive(Busy(i / 2)) else Select(i / 2 + 1))
  }

  /** The head has moved on by `n` slots, over stale entries. */
  ghost predicate Turned(r: RingState, n: nat) {
    RingOk(r) && r.head == n && r.count == 0 && r.timer == n && r.last == n &&
    forall j :: 0 <= j < n ==> r.ring[j].pid == 7 && r.ring[j].priority == 5 && r.ring[j].waitStart <= n
  }

  lemma TurnStep(r: RingState, n: nat)
    requires n < QUEUE_SIZE - 1 && Turned(r, n)
    ensures Turned(RingDequeue(RingEnqueue(r, Busy(n)), n + 1).0, n + 1)
  {
    var s := RingEnqueue(r, Busy(n));
    assert s.ring == r.ring[n := Busy(n)] && s.count == 1;
    var a := RingAge(s, n + 1);
    assert a.ring == s.ring && Queue(a) == [Busy(n)];
    assert Best(Queue(a)) == 0;
  }

  lemma {:induction false} TurnRuns(n: nat, k: nat)
    requires k <= n < QUEUE_SIZE
    ensures Turned(RingAfter(Boot(), Turns(n), 2 * k), k)
  {
    hide RingDequeue, RingEnqueue, Turned;
    if k == 0 {
      BootTurned();
    } else {
      TurnRuns(n, k - 1);
      var evs := Turns(n);
      assert evs[2 * k - 2] == Arrive(Busy(k - 1)) && evs[2 * k - 1] == Select(k);
      TurnOk(RingAfter(Boot(), evs, 2 * k - 2), k - 1);
      TurnStep(RingAfter(Boot(), evs, 2 * k - 2), k - 1);
      assert RingAfter(Boot(), evs, 2 * k - 1) == RingApply(RingAfter(Boot(), evs, 2 * k - 2), evs[2 * k - 2]);
      assert RingAfter(Boot(), evs, 2 * k) == RingApply(RingAfter(Boot(), evs, 2 * k - 1), evs[2 * k - 1]);
    }
  }

  lemma TurnOk(r: RingState, n: nat)
    requires Turned(r, n)
    ensures RingOk(r)
  {
  }

  lemma BootTurned()
    ensures Turned(Boot(), 0)
  {
  }

  /** The process that will be lost, and one of higher priority behind it. */
  const Lost: Entry := Entry(2, 5, 255, 10, false)
  const Winner: Entry := Entry(3, 9, 255, 10, false)

  /** The ring after 255 turns and the arrival of both: they lie in slots 255 and 0. */
  function Doomed(): (r: RingState)
    ensures RingOk(r)
  {
    RingAfter(Boot(), Turns(255) + [Arrive(Lost), Arrive(Winner)], 512)
  }

  lemma {:induction false} AfterPrefix(r: RingState, evs: seq<Event>, more: seq<Event>, n: nat)
    requires RingOk(r) && n <= |evs|
    ensures RingAfter(r, evs + more, n) == RingAfter(r, evs, n)
  {
    if n > 0 {
      AfterPrefix(r, evs, more, n - 1);
    }
  }

  lemma DoomedIs()
    ensures Doomed().head == 255 && Doomed().timer == 255 && Doomed().last == 255
    ensures Doomed().count == 2 && Queue(Doomed()) == [Lost, Winner]
    ensures Doomed().ring[1].pid == 7 && Doomed().ring[1].priority == 5 && Doomed().ring[1].waitStart <= 255
  {
    hide RingAfter;
    var more := [Arrive(Lost), Arrive(Winner)];
    var evs := Turns(255) + more;
    TurnRuns(255, 255);
    AfterPrefix(Boot(), Turns(255), more, 510);
    var r := RingAfter(Boot(), evs, 510);
    DoomedSteps(evs);
    BothArrive(r);
  }

  lemma DoomedSteps(evs: seq<Event>)
    requires |evs| == 512 && evs[510] == Arrive(Lost) && evs[511] == Arrive(Winner)
    ensures RingAfter(Boot(), evs, 512) == RingEnqueue(RingEnqueue(RingAfter(Boot(), evs, 510), Lost), Winner)
  {
    assert RingAfter(Boot(), evs, 511) == RingApply(RingAfter(Boot(), evs, 510), evs[510]);
    assert RingAfter(Boot(), evs, 512) == RingApply(RingAfter(Boot(), evs, 511), evs[511]);
  }

  lemma BothArrive(r: RingState)
    requires Turned(r, 255)
    ensures
      var s := RingEnqueue(RingEnqueue(r, Lost), Winner);
      s.head == 255 && s.timer == 255 && s.last == 255 && s.count == 2 && Queue(s) == [Lost, Winner] &&
      s.ring[1].pid == 7 && s.ring[1].priority == 5 && s.ring[1].waitStart <= 255
  {
    var a := RingEnqueue(r, Lost);
    assert a.ring == r.ring[255 := Lost] && Queue(a) == [Lost];
    var s := RingEnqueue(a, Winner);
    assert s.ring == a.ring[0 := Winner];
    assert Queue(s) == [Lost, Winner];
  }

  /** Nothing but dequeues, one at each tick. */
  function Drain(n: nat): (evs: seq<Event>)
    ensures |evs| == n && forall k :: 0 <= k < n ==> evs[k] == Select(256 + k)
  {
    seq(n, k requires 0 <= k < n => Select(256 + k))
  }

  /** The first dequeue selects the winner, and leaves a stale entry in place of the process queued before it. */
  lemma DoomedLoses()
    ensures RingDequeue(Doomed(), 256).1 == Some(Winner) && !Exact(Doomed(), 256)
    ensures
      var s := RingDequeue(Doomed(), 256).0;
      s.count == 1 && s.head == 255 && s.timer == 256 && |Queue(s)| == 1 && Queue(s)[0].pid == 7
  {
    hide Doomed, RingDequeue, Moves;
    DoomedIs();
    var r := Doomed();
    var q := Age(Abs(r), 256).q;
    assert q == [Lost, Winner] && Best(q) == 1;
    DequeueQueue(r, 256);
    assert Without(q, 1) == [Lost];
    assert Queue(RingDequeue(r, 256).0) == Overrun(RingAge(r, 256).ring, 255, 2, 1);
    DequeueShape(r, 256);
  }

  lemma DequeueShape(r: RingState, now: nat)
    requires RingOk(r) && r.count > 0
    ensures RingDequeue(r, now).0.count == r.count - 1
    ensures r.timer + 1 < BOOST_INTERVAL ==> RingDequeue(r, now).0.timer == r.timer + 1
    ensures Slot(r.head, Best(Queue(RingAge(r, now)))) != r.head ==> RingDequeue(r, now).0.head == r.head
  {
  }

  /** After that the stale entry is selected, and then no one. */
  ghost predicate Emptied(s: RingState, k: nat) {
    RingOk(s) && if k == 1 then s.count == 1 && Queue(s)[0].pid == 7 else s.count == 0
  }

  lemma EmptiedStep(s: RingState, k: nat, now: nat)
    requires k > 0 && Emptied(s, k)
    ensures Emptied(RingDequeue(s, now).0, k + 1)
    ensures RingDequeue(s, now).1.Some? ==> RingDequeue(s, now).1.value.pid == 7
  {
    if s.count > 0 {
      DequeueQueue(s, now);
      DequeueShape(s, now);
      assert Age(Abs(s), now).q[0].pid == 7;
    }
  }

  lemma {:induction false} DrainRuns(n: nat, k: nat)
    requires 0 < k <= n
    ensures Emptied(RingAfter(Doomed(), Drain(n), k), k)
  {
    hide Doomed, RingDequeue, Emptied;
    var evs := Drain(n);
    if k == 1 {
      DoomedLoses();
      DoomedFirst(n);
    } else {
      DrainRuns(n, k - 1);
      EmptiedStep(RingAfter(Doomed(), evs, k - 1), k - 1, 256 + k - 1);
      assert evs[k - 1] == Select(256 + k - 1);
    }
  }

  lemma DoomedFirst(n: nat)
    requires n > 0
    ensures Emptied(RingAfter(Doomed(), Drain(n), 1), 1)
  {
    hide Doomed, RingDequeue;
    DoomedLoses();
    assert Drain(n)[0] == Select(256);
    assert RingAfter(Doomed(), Drain(n), 1) == RingApply(Doomed(), Drain(n)[0]);
  }

  /** No entry waits since after tick 255, and no dequeue has happened later than at tick `last`. */
  ghost predicate Early(s: Sched, last: nat) {
    s.last <= last && forall i :: 0 <= i < |s.q| ==> s.q[i].waitStart <= 255
  }

  lemma EarlyStep(s: Sched, now: nat)
    requires Early(s, now)
    ensures Early(Dequeue(s, now + 1).0, now + 1)
  {
    if s.q != [] {
      var a := Age(s, now + 1);
      assert forall i :: 0 <= i < |a.q| ==> a.q[i].waitStart <= 255;
    }
  }

  lemma {:induction false} DrainTimely(s: Sched, n: nat, k: nat)
    requires k <= n && Early(s, 255)
    ensures Early(After(s, Drain(n), k), 255 + k)
  {
    hide Dequeue, Early;
    if k > 0 {
      DrainTimely(s, n, k - 1);
      EarlyStep(After(s, Drain(n), k - 1), 254 + k);
      assert Drain(n)[k - 1] == Select(255 + k);
    }
  }

  lemma {:induction false} DrainCounts(n: nat, k: nat)
    requires k <= n
    ensures CountSelects(Drain(n), k) == k
  {
    if k > 0 {
      DrainCounts(n, k - 1);
    }
  }

  /** A reachable ring that meets every hypothesis of NoStarvation but the condition on the ring, and in which a queued
      process is selected by none of any number of dequeues. */
  lemma LostProcess(n: nat)
    ensures Fair(Abs(Doomed())) && Queue(Doomed())[0] == Lost
    ensures TimelyRun(Abs(Doomed()), Drain(n)) && Moderate(Drain(n)) && CountSelects(Drain(n), n) == n
    ensures forall k: nat :: !RingSelects(Doomed(), Drain(n), k, Lost.pid)
  {
    hide Doomed, RingDequeue, After;
    DoomedIs();
    var evs, s := Drain(n), Abs(Doomed());
    assert s == Sched([Lost, Winner], 255, 255);
    DrainCounts(n, n);
    forall k | 0 <= k < n
      ensures Timely(After(s, evs, k), evs[k])
    {
      DrainTimely(s, n, k);
    }
    forall k: nat | k < n
      ensures !RingSelects(Doomed(), evs, k, Lost.pid)
    {
      NotSelected(n, k);
    }
  }

  lemma NotSelected(n: nat, k: nat)
    requires k < n
    ensures !RingSelects(Doomed(), Drain(n), k, Lost.pid)
  {
    hide Doomed, RingDequeue;
    if k == 0 {
      DoomedLoses();
      assert RingAfter(Doomed(), Drain(n), 0) == Doomed();
    } else {
      DrainRuns(n, k);
      EmptiedStep(RingAfter(Doomed(), Drain(n), k), k, 256 + k);
    }
  }

  /** Out of order, a dequeue can also queue one entry twice. */
  lemma OverrunDuplicates(r: RingState, e: Entry, now: nat)
    requires RingOk(r) && r.count == 3 && r.timer + 1 < BOOST_INTERVAL && r.ring[Slot(r.head, 3)] == e
    requires Queue(r)[1] == e && !InOrder(r, now) && Best(Queue(r)) == 2
    ensures Queue(RingDequeue(r, now).0) == [e, e]
  {
    hide RingDequeue, Slot;
    DequeueQueue(r, now);
    var q := Queue(r);
    assert Without(q, 2) == [q[0], q[1]];
  }
}
