/** Physical pages: which are in use, runs of free ones, and allocation over whole runs. */
module PageSpec {

  const PAGE: nat := 4096
  /** 64 MB of simulated memory. */
  const PAGES: nat := 16384
  const WRAP64: nat := 0x1_0000_0000_0000_0000
  const WRAP32: nat := 0x1_0000_0000

  /** In-use flag of every page. */
  type Use = u: seq<bool> | |u| == PAGES witness seq(PAGES, _ => false)

  /** Conversion of an unsigned value to a 32-bit signed int. */
  function ToInt(x: nat): (r: int)
    ensures x < WRAP32 / 2 ==> r == x
  {
    var y := x % WRAP32;
    if y < WRAP32 / 2 then y else y - WRAP32
  }

  /** The page count the allocator computes: the sum wraps at 64 bits and the quotient is cut to an int. */
  function PagesFor(size: nat): int {
    ToInt((size + PAGE - 1) % WRAP64 / PAGE)
  }

  function CeilPages(size: nat): nat {
    (size + PAGE - 1) / PAGE
  }

  /** The computed count is the number of pages that hold `size` bytes exactly when that number fits an int. */
  lemma PagesForExactIff(size: nat)
    requires size < WRAP64
    ensures PagesFor(size) == CeilPages(size) <==> CeilPages(size) < WRAP32 / 2
  {
    var c := CeilPages(size);
    if size + PAGE - 1 < WRAP64 {
      assert c == (size + PAGE - 1) % WRAP64 / PAGE;
    } else {
      assert (size + PAGE - 1) % WRAP64 < PAGE;
    }
  }

  /** A request for 2^44 + 4096 bytes is taken for one page. */
  lemma HugeRequestIsOnePage()
    ensures PagesFor(0x1000_0000_1000) == 1 && CeilPages(0x1000_0000_1000) == WRAP32 + 1
  {
  }

  predicate FreeRun(u: Use, s: int, n: int) {
    1 <= s && s + n <= PAGES && forall p :: s <= p < s + n ==> !u[p]
  }

  /** The lowest run of `n` free pages above page 0. */
  predicate FirstFit(u: Use, s: int, n: int) {
    FreeRun(u, s, n) && forall t :: 1 <= t < s ==> !FreeRun(u, t, n)
  }

  ghost predicate NoRun(u: Use, n: int) {
    forall t: int :: !FreeRun(u, t, n)
  }

  /** Pages from `s` on, `n` of them, set to `b`; those outside memory are ignored. */
  function Mark(u: Use, s: int, n: int, b: bool): (r: Use)
    ensures forall p :: 0 <= p < PAGES ==> r[p] == if s <= p < s + n then b else u[p]
  {
    var r := seq(PAGES, p requires 0 <= p < PAGES => if s <= p < s + n then b else u[p]);
    r
  }

  function CountFree(u: seq<bool>): (n: nat)
    ensures n <= |u|
  {
    if u == [] then 0 else CountFree(u[..|u| - 1]) + if u[|u| - 1] then 0 else 1
  }

  lemma CountStep(u: seq<bool>, i: nat)
    requires i < |u|
    ensures CountFree(u[..i + 1]) == CountFree(u[..i]) + if u[i] then 0 else 1
  {
    assert u[..i + 1][..i] == u[..i];
  }

  /** Taking `n` free pages lowers the count by `n`. */
  lemma {:induction false} CountRange(u: seq<bool>, v: seq<bool>, s: nat, n: nat)
    requires |u| == |v| && s + n <= |u|
    requires forall p :: 0 <= p < |u| ==> if s <= p < s + n then !u[p] && v[p] else v[p] == u[p]
    ensures CountFree(u) == CountFree(v) + n
    decreases |u|
  {
    if u != [] {
      var k := |u| - 1;
      if s + n == |u| && n > 0 {
        CountRange(u[..k], v[..k], s, n - 1);
      } else if n == 0 {
        assert u == v;
      } else {
        CountRange(u[..k], v[..k], s, n);
      }
    }
  }

  // ---- clients ----

  datatype Extent = Extent(start: nat, pages: nat)

  predicate Covers(e: Extent, p: int) {
    e.start <= p < e.start + e.pages
  }

  predicate Disjoint(d: Extent, e: Extent) {
    d.start + d.pages <= e.start || e.start + e.pages <= d.start
  }

  /** The live extents are disjoint and the pages in use are page 0 and theirs. */
  ghost predicate Consistent(u: Use, live: seq<Extent>) {
    (forall i :: 0 <= i < |live| ==> Placed(live[i])) &&
    (forall i, j :: 0 <= i < j < |live| ==> Disjoint(live[i], live[j])) &&
    forall p :: 0 <= p < PAGES ==> (u[p] <==> p == 0 || Taken(live, p))
  }

  predicate Placed(e: Extent) {
    1 <= e.start && e.pages > 0 && e.start + e.pages <= PAGES
  }

  ghost predicate Taken(live: seq<Extent>, p: int) {
    exists i :: 0 <= i < |live| && Covers(live[i], p)
  }

  function Total(live: seq<Extent>): nat {
    if live == [] then 0 else Total(live[..|live| - 1]) + live[|live| - 1].pages
  }

  lemma {:induction false} TotalWithout(live: seq<Extent>, k: nat)
    requires k < |live|
    ensures Total(live[..k] + live[k + 1..]) == Total(live) - live[k].pages
    decreases |live|
  {
    var n := |live| - 1;
    var rest := live[..k] + live[k + 1..];
    if k < n {
      TotalWithout(live[..n], k);
      assert rest[..n - 1] == live[..n][..k] + live[..n][k + 1..];
    } else {
      assert rest == live[..n];
    }
  }

  /** Every page is free, page 0, or part of one live extent. */
  ghost predicate Conserved(u: Use, live: seq<Extent>) {
    CountFree(u) + Total(live) == PAGES - 1
  }

  lemma AllocKeeps(u: Use, live: seq<Extent>, s: nat, n: nat)
    requires Consistent(u, live) && Conserved(u, live) && FreeRun(u, s, n) && n > 0
    ensures Consistent(Mark(u, s, n, true), live + [Extent(s, n)])
    ensures Conserved(Mark(u, s, n, true), live + [Extent(s, n)])
    ensures forall i :: 0 <= i < |live| ==> Disjoint(live[i], Extent(s, n))
  {
    var e, v, all := Extent(s, n), Mark(u, s, n, true), live + [Extent(s, n)];
    forall i | 0 <= i < |live|
      ensures Disjoint(live[i], e)
    {
      FreeRunMisses(u, live, s, n, i);
    }
    forall p | 0 <= p < PAGES
      ensures v[p] <==> p == 0 || Taken(all, p)
    {
      TakenAppend(live, e, p);
    }
    CountRange(u, v, s, n);
    assert all[..|live|] == live;
  }

  lemma FreeRunMisses(u: Use, live: seq<Extent>, s: nat, n: nat, i: nat)
    requires Consistent(u, live) && FreeRun(u, s, n) && n > 0 && i < |live|
    ensures Disjoint(live[i], Extent(s, n))
  {
    assert forall p :: 0 <= p < PAGES && Covers(live[i], p) ==> u[p];
    if !Disjoint(live[i], Extent(s, n)) {
      var p := if live[i].start < s then s else live[i].start;
      assert Placed(live[i]) && Covers(live[i], p);
      assert false;
    }
  }

  lemma TakenAppend(live: seq<Extent>, e: Extent, p: int)
    ensures Taken(live + [e], p) <==> Taken(live, p) || Covers(e, p)
  {
    var all := live + [e];
    if Taken(live, p) {
      var i :| 0 <= i < |live| && Covers(live[i], p);
      assert Covers(all[i], p);
    }
    if Covers(e, p) {
      assert Covers(all[|live|], p);
    }
  }

  /** Freeing a live extent makes exactly its pages free again. */
  lemma FreeKeeps(u: Use, live: seq<Extent>, k: nat)
    requires Consistent(u, live) && Conserved(u, live) && k < |live|
    ensures
      var e, rest := live[k], live[..k] + live[k + 1..];
      Consistent(Mark(u, e.start, e.pages, false), rest) && Conserved(Mark(u, e.start, e.pages, false), rest)
  {
    var e, rest := live[k], live[..k] + live[k + 1..];
    var v := Mark(u, e.start, e.pages, false);
    assert Placed(e);
    forall i | 0 <= i < |rest|
      ensures Placed(rest[i]) && Disjoint(rest[i], e)
    {
      assert rest[i] == live[if i < k then i else i + 1];
    }
    forall p | 0 <= p < PAGES
      ensures v[p] <==> p == 0 || Taken(rest, p)
    {
      TakenWithout(live, k, p);
      if Covers(e, p) {
        DisjointNotTaken(rest, e, p);
      }
    }
    forall p | 0 <= p < PAGES && Covers(e, p)
      ensures u[p]
    {
      assert Covers(live[k], p);
    }
    CountRange(v, u, e.start, e.pages);
    TotalWithout(live, k);
  }

  lemma DisjointNotTaken(live: seq<Extent>, e: Extent, p: int)
    requires Covers(e, p) && forall i :: 0 <= i < |live| ==> Disjoint(live[i], e)
    ensures !Taken(live, p)
  {
  }

  lemma TakenWithout(live: seq<Extent>, k: nat, p: int)
    requires k < |live|
    ensures Taken(live, p) <==> Taken(live[..k] + live[k + 1..], p) || Covers(live[k], p)
  {
    var rest := live[..k] + live[k + 1..];
    if Taken(live, p) && !Covers(live[k], p) {
      var i :| 0 <= i < |live| && Covers(live[i], p);
      assert Covers(rest[if i < k then i else i - 1], p);
    }
    if Taken(rest, p) {
      var i :| 0 <= i < |rest| && Covers(rest[i], p);
      assert Covers(live[if i < k then i else i + 1], p);
    }
  }

  // ---- runs ----

  datatype Step = Alloc(size: nat) | Free(k: nat)

  /** One client step: an allocation of a positive int-sized request, or a matching free. */
  ghost predicate Stepped(u: Use, live: seq<Extent>, step: Step, v: Use, live': seq<Extent>) {
    match step
    case Alloc(size) =>
      var n := PagesFor(size);
      n > 0 &&
      if NoRun(u, n) then v == u && live' == live
      else exists s: nat :: FirstFit(u, s, n) && v == Mark(u, s, n, true) && live' == live + [Extent(s, n)]
    case Free(k) =>
      k < |live| && v == Mark(u, live[k].start, live[k].pages, false) && live' == live[..k] + live[k + 1..]
  }

  datatype State = State(use: Use, live: seq<Extent>)

  ghost predicate IsRun(states: seq<State>, steps: seq<Step>) {
    |states| == |steps| + 1 &&
    forall i :: 0 <= i < |steps| ==>
      Stepped(states[i].use, states[i].live, steps[i], states[i + 1].use, states[i + 1].live)
  }

  lemma StepKeeps(u: Use, live: seq<Extent>, step: Step, v: Use, live': seq<Extent>)
    requires Consistent(u, live) && Conserved(u, live) && Stepped(u, live, step, v, live')
    ensures Consistent(v, live') && Conserved(v, live')
  {
    hide Consistent, Conserved, Mark, FreeRun;
    match step
    case Alloc(size) =>
      var n := PagesFor(size);
      if !NoRun(u, n) {
        var s: nat :| FirstFit(u, s, n) && v == Mark(u, s, n, true) && live' == live + [Extent(s, n)];
        AllocKeeps(u, live, s, n);
      }
    case Free(k) => FreeKeeps(u, live, k);
  }

  /** Over any run the live extents stay disjoint and no page is lost or gained. */
  lemma {:induction false} RunsKeep(states: seq<State>, steps: seq<Step>, i: nat)
    requires IsRun(states, steps) && i <= |steps|
    requires Consistent(states[0].use, states[0].live) && Conserved(states[0].use, states[0].live)
    ensures Consistent(states[i].use, states[i].live) && Conserved(states[i].use, states[i].live)
  {
    if i > 0 {
      RunsKeep(states, steps, i - 1);
      hide Consistent, Conserved, Stepped;
      assert Stepped(states[i - 1].use, states[i - 1].live, steps[i - 1], states[i].use, states[i].live);
      StepKeeps(states[i - 1].use, states[i - 1].live, steps[i - 1], states[i].use, states[i].live);
    }
  }

  /** The initial state: only page 0 is in use. */
  lemma InitialOk(u: Use)
    requires u[0] && forall p :: 0 < p < PAGES ==> !u[p]
    ensures Consistent(u, []) && Conserved(u, [])
  {
    var empty: Use := seq(PAGES, _ => false);
    AllFree(empty);
    CountRange(empty, u, 0, 1);
  }

  lemma {:induction false} AllFree(u: seq<bool>)
    requires forall p :: 0 <= p < |u| ==> !u[p]
    ensures CountFree(u) == |u|
  {
    if u != [] {
      AllFree(u[..|u| - 1]);
    }
  }
}
