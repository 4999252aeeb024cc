/** The kernel heap as a sequence of blocks: what allocation, splitting, freeing and coalescing do,
    and what holds after every run of them. */
module HeapSpec {

  const ALIGN: nat := 16
  const WORD: nat := 0x1_0000_0000_0000_0000

  /** A block: the address of its header, the bytes after the header, and whether it is in use. */
  datatype Blk = Blk(addr: nat, size: nat, used: bool)

  /** Round up to the alignment, in 64-bit arithmetic. */
  function AlignUp(size: nat): (r: nat)
    ensures r % ALIGN == 0
    ensures size + ALIGN - 1 < WORD ==> size <= r < size + ALIGN
    ensures WORD <= size + ALIGN - 1 && size < WORD ==> r == 0
  {
    (size + ALIGN - 1) % WORD / ALIGN * ALIGN
  }

  /** Rounding yields enough room exactly when the sum does not leave the 64-bit word. */
  lemma EnoughRoomIff(size: nat)
    requires 0 < size < WORD
    ensures AlignUp(size) >= size <==> size + ALIGN - 1 < WORD
  {
  }

  function Min(a: nat, b: nat): nat {
    if a < b then a else b
  }

  function End(b: Blk, h: nat): nat {
    b.addr + h + b.size
  }

  /** Each block starts where the one before it ends. */
  ghost predicate Chain(bs: seq<Blk>, h: nat) {
    forall i :: 0 <= i < |bs| - 1 ==> bs[i + 1].addr == End(bs[i], h)
  }

  /** The blocks cover the heap `[0, n)` exactly, each behind a header of `h` bytes. */
  ghost predicate Tiled(bs: seq<Blk>, h: nat, n: nat) {
    |bs| > 0 && bs[0].addr == 0 && End(bs[|bs| - 1], h) == n && Chain(bs, h)
  }

  ghost predicate NoAdjacentFree(bs: seq<Blk>) {
    forall i :: 0 <= i < |bs| - 1 ==> bs[i].used || bs[i + 1].used
  }

  ghost predicate HeapOk(bs: seq<Blk>, h: nat, n: nat) {
    Tiled(bs, h, n) && NoAdjacentFree(bs)
  }

  predicate Fits(b: Blk, need: nat) {
    !b.used && b.size >= need
  }

  /** Block `i` is the smallest free block that fits, and the lowest of those. */
  ghost predicate BestFit(bs: seq<Blk>, need: nat, i: nat) {
    i < |bs| && Fits(bs[i], need) &&
    forall j :: 0 <= j < |bs| && Fits(bs[j], need) ==>
      bs[i].size < bs[j].size || (bs[i].size == bs[j].size && i <= j)
  }

  lemma BestFitUnique(bs: seq<Blk>, need: nat, i: nat, j: nat)
    requires BestFit(bs, need, i) && BestFit(bs, need, j)
    ensures i == j
  {
  }

  /** Block `i` cut down to `need` bytes when what is left over can hold a block of its own. */
  function Split(bs: seq<Blk>, i: nat, need: nat, h: nat): (r: seq<Blk>)
    requires i < |bs| && bs[i].size >= need
    ensures i < |r| && r[i].addr == bs[i].addr && r[i].used == bs[i].used
  {
    var b := bs[i];
    if b.size - need >= h + ALIGN then
      bs[..i] + [b.(size := need), Blk(b.addr + h + need, b.size - need - h, false)] + bs[i + 1..]
    else bs
  }

  /** Block `i` after `need` bytes of it were handed out. */
  function Take(bs: seq<Blk>, i: nat, need: nat, h: nat): seq<Blk>
    requires i < |bs| && bs[i].size >= need
  {
    var r := Split(bs, i, need, h);
    r[i := r[i].(used := true)]
  }

  /** Merge free block `i` with the free block after it. */
  function MergeAt(bs: seq<Blk>, i: nat, h: nat): seq<Blk>
    requires i + 1 < |bs|
  {
    bs[..i] + [Blk(bs[i].addr, bs[i].size + h + bs[i + 1].size, bs[i].used)] + bs[i + 2..]
  }

  /** Merge every run of free blocks into one. */
  function Coalesce(bs: seq<Blk>, h: nat): (r: seq<Blk>)
    ensures |r| <= |bs| && (|bs| > 0 ==> |r| > 0 && r[0].addr == bs[0].addr && r[0].used == bs[0].used)
  {
    if |bs| <= 1 then bs
    else
      var rest := Coalesce(bs[1..], h);
      if !bs[0].used && !rest[0].used then
        [Blk(bs[0].addr, bs[0].size + h + rest[0].size, false)] + rest[1..]
      else [bs[0]] + rest
  }

  /** Give back block `i`. */
  function Release(bs: seq<Blk>, i: nat, h: nat): seq<Blk>
    requires i < |bs|
  {
    Coalesce(bs[i := bs[i].(used := false)], h)
  }

  // ---- What holds of every heap ----

  lemma {:induction false} Ordered(bs: seq<Blk>, h: nat, n: nat, i: nat, j: nat)
    requires Tiled(bs, h, n) && i < j < |bs|
    ensures End(bs[i], h) <= bs[j].addr
    decreases j
  {
    if i < j - 1 {
      Ordered(bs, h, n, i, j - 1);
    }
  }

  lemma Within(bs: seq<Blk>, h: nat, n: nat, i: nat)
    requires Tiled(bs, h, n) && i < |bs|
    ensures End(bs[i], h) <= n
  {
    if i < |bs| - 1 {
      Ordered(bs, h, n, i, |bs| - 1);
    }
  }

  lemma SplitTiled(bs: seq<Blk>, i: nat, need: nat, h: nat, n: nat)
    requires Tiled(bs, h, n) && i < |bs| && bs[i].size >= need
    ensures Tiled(Split(bs, i, need, h), h, n)
  {
    var r := Split(bs, i, need, h);
    if |r| == |bs| + 1 {
      forall k | 0 <= k < |r| - 1
        ensures r[k + 1].addr == End(r[k], h)
      {
        if k > i {
          assert r[k + 1] == bs[k];
          if k > i + 1 {
            assert r[k] == bs[k - 1];
          }
        }
      }
    }
  }

  lemma MergeTiled(bs: seq<Blk>, i: nat, h: nat, n: nat)
    requires Tiled(bs, h, n) && i + 1 < |bs|
    ensures Tiled(MergeAt(bs, i, h), h, n)
  {
    var r := MergeAt(bs, i, h);
    forall k | 0 <= k < |r| - 1
      ensures r[k + 1].addr == End(r[k], h)
    {
      if k >= i {
        assert r[k + 1] == bs[k + 1 + 1];
        assert bs[k + 1].addr == End(bs[k], h) && bs[k + 1 + 1].addr == End(bs[k + 1], h);
      }
    }
  }

  lemma TakeTiled(bs: seq<Blk>, i: nat, need: nat, h: nat, n: nat)
    requires Tiled(bs, h, n) && i < |bs| && bs[i].size >= need
    ensures Tiled(Take(bs, i, need, h), h, n)
  {
    SplitTiled(bs, i, need, h, n);
    var s, r := Split(bs, i, need, h), Take(bs, i, need, h);
    forall k | 0 <= k < |r| - 1
      ensures r[k + 1].addr == End(r[k], h)
    {
      assert s[k + 1].addr == End(s[k], h);
    }
  }

  /** Allocation keeps the heap tiled and never leaves two free blocks side by side. */
  lemma TakeOk(bs: seq<Blk>, i: nat, need: nat, h: nat, n: nat)
    requires HeapOk(bs, h, n) && i < |bs| && Fits(bs[i], need)
    ensures HeapOk(Take(bs, i, need, h), h, n)
  {
    TakeTiled(bs, i, need, h, n);
    var r := Take(bs, i, need, h);
    if |r| == |bs| + 1 {
      forall k | 0 <= k < |r| - 1
        ensures r[k].used || r[k + 1].used
      {
        if k > i {
          assert r[k + 1] == bs[k];
          if k > i + 1 {
            assert r[k] == bs[k - 1];
          } else {
            assert bs[i].used || bs[i + 1].used;
          }
        } else if k < i {
          assert r[k] == bs[k] && r[k + 1].used == (if k + 1 == i then true else bs[k + 1].used);
        }
      }
    }
  }

  lemma ChainTail(bs: seq<Blk>, h: nat)
    requires |bs| > 0
    ensures Chain(bs, h) ==> Chain(bs[1..], h)
    ensures NoAdjacentFree(bs) ==> NoAdjacentFree(bs[1..])
  {
    var tail := bs[1..];
    forall i | 0 <= i < |tail| - 1
      ensures Chain(bs, h) ==> tail[i + 1].addr == End(tail[i], h)
      ensures NoAdjacentFree(bs) ==> tail[i].used || tail[i + 1].used
    {
      assert tail[i] == bs[i + 1] && tail[i + 1] == bs[i + 1 + 1];
    }
  }

  lemma ChainCons(b: Blk, bs: seq<Blk>, h: nat)
    requires Chain(bs, h) && (|bs| > 0 ==> bs[0].addr == End(b, h))
    ensures Chain([b] + bs, h)
    ensures NoAdjacentFree(bs) && (|bs| > 0 ==> b.used || bs[0].used) ==> NoAdjacentFree([b] + bs)
    ensures ([b] + bs)[|bs|] == if |bs| > 0 then bs[|bs| - 1] else b
  {
    var r := [b] + bs;
    forall i | 0 <= i < |r| - 1
      ensures r[i + 1].addr == End(r[i], h)
      ensures NoAdjacentFree(bs) && (|bs| > 0 ==> b.used || bs[0].used) ==> r[i].used || r[i + 1].used
    {
      assert r[i + 1] == bs[i];
      if i > 0 {
        assert r[i] == bs[i - 1];
        assert bs[i - 1 + 1].addr == End(bs[i - 1], h);
        assert NoAdjacentFree(bs) ==> bs[i - 1].used || bs[i - 1 + 1].used;
      }
    }
  }

  lemma {:induction false} CoalesceTiled(bs: seq<Blk>, h: nat)
    requires |bs| > 0 && Chain(bs, h)
    ensures Chain(Coalesce(bs, h), h) && NoAdjacentFree(Coalesce(bs, h))
    ensures End(Coalesce(bs, h)[|Coalesce(bs, h)| - 1], h) == End(bs[|bs| - 1], h)
    decreases |bs|
  {
    if |bs| > 1 {
      var tail := bs[1..];
      ChainTail(bs, h);
      CoalesceTiled(tail, h);
      var rest := Coalesce(tail, h);
      assert tail[|tail| - 1] == bs[|bs| - 1] && tail[0] == bs[1];
      assert bs[0 + 1].addr == End(bs[0], h);
      if !bs[0].used && !rest[0].used {
        ChainTail(rest, h);
        var b := Blk(bs[0].addr, bs[0].size + h + rest[0].size, false);
        if |rest| > 1 {
          assert rest[0 + 1].addr == End(rest[0], h) && (rest[0].used || rest[0 + 1].used);
        }
        ChainCons(b, rest[1..], h);
      } else {
        ChainCons(bs[0], rest, h);
      }
    }
  }

  /** Freeing keeps the heap tiled and leaves no two free blocks side by side. */
  lemma ReleaseOk(bs: seq<Blk>, i: nat, h: nat, n: nat)
    requires Tiled(bs, h, n) && i < |bs|
    ensures HeapOk(Release(bs, i, h), h, n)
  {
    CoalesceTiled(bs[i := bs[i].(used := false)], h);
  }

  lemma {:induction false} CoalesceDone(bs: seq<Blk>, h: nat)
    requires NoAdjacentFree(bs)
    ensures Coalesce(bs, h) == bs
    decreases |bs|
  {
    if |bs| > 1 {
      ChainTail(bs, h);
      CoalesceDone(bs[1..], h);
      assert bs[0].used || bs[0 + 1].used;
    }
  }

  /** Merging one pair first does not change the outcome of merging everything. */
  lemma {:induction false} CoalesceMerge(bs: seq<Blk>, i: nat, h: nat)
    requires i + 1 < |bs| && !bs[i].used && !bs[i + 1].used
    ensures Coalesce(MergeAt(bs, i, h), h) == Coalesce(bs, h)
    decreases i
  {
    var m := MergeAt(bs, i, h);
    if i == 0 {
      assert m[1..] == bs[2..] == bs[1..][1..];
      assert bs[1..][0] == bs[1];
      var rest := Coalesce(bs[1..], h);
      if |bs| > 2 {
        var deep := Coalesce(bs[2..], h);
        if !deep[0].used {
          assert rest[1..] == deep[1..];
          assert Coalesce(m, h) == [Blk(bs[0].addr, m[0].size + h + deep[0].size, false)] + deep[1..];
        } else {
          assert rest[1..] == deep;
        }
      } else {
        assert bs[1..] == [bs[1]];
        assert rest[1..] == [];
      }
    } else {
      assert m[0] == bs[0];
      assert m[1..] == MergeAt(bs[1..], i - 1, h);
      CoalesceMerge(bs[1..], i - 1, h);
    }
  }

  /** Once everything is free, the heap is one block again. */
  lemma AllFree(bs: seq<Blk>, h: nat, n: nat)
    requires HeapOk(bs, h, n) && forall i :: 0 <= i < |bs| ==> !bs[i].used
    ensures n >= h && bs == [Blk(0, n - h, false)]
  {
    if |bs| > 1 {
      NeighbourUsed(bs, 0);
    }
  }

  lemma NeighbourUsed(bs: seq<Blk>, i: nat)
    requires NoAdjacentFree(bs) && i + 1 < |bs|
    ensures bs[i].used || bs[i + 1].used
  {
  }

  /** Payloads of distinct blocks do not overlap, and no payload meets a header. */
  lemma PayloadsDisjoint(bs: seq<Blk>, h: nat, n: nat, i: nat, j: nat, x: nat)
    requires Tiled(bs, h, n) && i < |bs| && j < |bs|
    requires bs[i].addr + h <= x < End(bs[i], h)
    ensures x < n && !(bs[j].addr <= x < bs[j].addr + h)
    ensures i != j ==> !(bs[j].addr + h <= x < End(bs[j], h))
  {
    Within(bs, h, n, i);
    if i < j {
      Ordered(bs, h, n, i, j);
    } else if j < i {
      Ordered(bs, h, n, j, i);
    }
  }

  /** Byte `x` lies in the payload of a block in use. */
  ghost predicate Live(bs: seq<Blk>, x: int, h: nat) {
    exists i :: 0 <= i < |bs| && InPayload(bs[i], x, h) && bs[i].used
  }

  predicate InPayload(b: Blk, x: int, h: nat) {
    b.addr + h <= x < End(b, h)
  }

  /** A block in use is untouched by handing out another one. */
  lemma TakeKeeps(bs: seq<Blk>, i: nat, need: nat, h: nat, k: nat)
    requires i < |bs| && bs[i].size >= need && k < |bs| && k != i
    ensures exists j :: 0 <= j < |Take(bs, i, need, h)| && j != i && Take(bs, i, need, h)[j] == bs[k]
  {
    var r := Take(bs, i, need, h);
    assert r[if k < i || |r| == |bs| then k else k + 1] == bs[k];
  }

  /** What is handed out is not live before, and what was live stays live. */
  lemma TakeLive(bs: seq<Blk>, i: nat, need: nat, h: nat, n: nat, x: int)
    requires HeapOk(bs, h, n) && i < |bs| && Fits(bs[i], need) && Live(bs, x, h)
    ensures Live(Take(bs, i, need, h), x, h) && !InPayload(Take(bs, i, need, h)[i], x, h)
  {
    var k :| 0 <= k < |bs| && InPayload(bs[k], x, h) && bs[k].used;
    TakeKeeps(bs, i, need, h, k);
    var r := Take(bs, i, need, h);
    var j :| 0 <= j < |r| && j != i && r[j] == bs[k];
    TakeTiled(bs, i, need, h, n);
    PayloadsDisjoint(r, h, n, j, i, x);
  }

  lemma {:induction false} CoalesceKeeps(bs: seq<Blk>, h: nat, b: Blk)
    requires b in bs && b.used
    ensures b in Coalesce(bs, h)
    decreases |bs|
  {
    if |bs| > 1 && b != bs[0] {
      CoalesceKeeps(bs[1..], h, b);
      var rest := Coalesce(bs[1..], h);
      assert rest == [rest[0]] + rest[1..];
    }
  }

  /** Freeing one block keeps every other block in use exactly as it was. */
  lemma ReleaseKeeps(bs: seq<Blk>, i: nat, h: nat, k: nat)
    requires i < |bs| && k < |bs| && k != i && bs[k].used
    ensures bs[k] in Release(bs, i, h)
  {
    var s := bs[i := bs[i].(used := false)];
    assert s[k] == bs[k];
    CoalesceKeeps(s, h, bs[k]);
  }

  // ---- Runs ----

  datatype Op = Alloc(size: nat) | Free(addr: int)

  /** One operation, as a relation between heaps. A request for 0 bytes or without a fitting block,
      and a free of anything but a block in use, change nothing. */
  ghost predicate Step(bs: seq<Blk>, op: Op, h: nat, out: seq<Blk>) {
    match op
    case Alloc(size) =>
      var need := AlignUp(size);
      if size > 0 && exists i: nat :: BestFit(bs, need, i)
      then exists i: nat :: BestFit(bs, need, i) && out == Take(bs, i, need, h)
      else out == bs
    case Free(addr) =>
      if exists i: nat :: InUse(bs, addr, i)
      then exists i: nat :: InUse(bs, addr, i) && out == Release(bs, i, h)
      else out == bs
  }

  ghost predicate InUse(bs: seq<Blk>, addr: int, i: nat) {
    i < |bs| && bs[i].addr == addr && bs[i].used
  }

  /** `heaps` is a run of the operations `ops`. */
  ghost predicate IsRun(heaps: seq<seq<Blk>>, ops: seq<Op>, h: nat) {
    |heaps| == |ops| + 1 &&
    forall k :: 0 <= k < |ops| ==> Step(heaps[k], ops[k], h, heaps[k + 1])
  }

  lemma StepOk(bs: seq<Blk>, op: Op, h: nat, n: nat, out: seq<Blk>)
    requires HeapOk(bs, h, n) && Step(bs, op, h, out)
    ensures HeapOk(out, h, n)
  {
    match op
    case Alloc(size) =>
      var need := AlignUp(size);
      if size > 0 && exists i: nat :: BestFit(bs, need, i) {
        var i: nat :| BestFit(bs, need, i) && out == Take(bs, i, need, h);
        TakeOk(bs, i, need, h, n);
      }
    case Free(addr) =>
      if exists i: nat :: InUse(bs, addr, i) {
        var i: nat :| InUse(bs, addr, i) && out == Release(bs, i, h);
        ReleaseOk(bs, i, h, n);
      }
  }

  lemma InitialOk(h: nat, n: nat)
    requires n >= h
    ensures HeapOk([Blk(0, n - h, false)], h, n)
  {
  }

  /** After any run from the initial heap the blocks tile it and no two free blocks are adjacent;
      and whenever nothing is in use, the heap is the initial block again. */
  lemma {:induction false} RunOk(heaps: seq<seq<Blk>>, ops: seq<Op>, h: nat, n: nat, k: nat)
    requires n >= h && IsRun(heaps, ops, h) && heaps[0] == [Blk(0, n - h, false)] && k <= |ops|
    ensures HeapOk(heaps[k], h, n)
    ensures (forall i :: 0 <= i < |heaps[k]| ==> !heaps[k][i].used) ==> heaps[k] == heaps[0]
    decreases k
  {
    hide Step, HeapOk, Coalesce;
    if k == 0 {
      InitialOk(h, n);
    } else {
      RunOk(heaps, ops, h, n, k - 1);
      StepOk(heaps[k - 1], ops[k - 1], h, n, heaps[k]);
    }
    if forall i :: 0 <= i < |heaps[k]| ==> !heaps[k][i].used {
      AllFree(heaps[k], h, n);
    }
  }

  lemma NoneFits(bs: seq<Blk>, need: nat)
    requires forall i: nat :: !BestFit(bs, need, i)
    ensures forall i: nat :: i < |bs| ==> !Fits(bs[i], need)
  {
    forall i: nat | i < |bs|
      ensures !Fits(bs[i], need)
    {
      if Fits(bs[i], need) {
        BestExists(bs, need, i);
      }
    }
  }

  /** If some block fits there is a best one. */
  lemma {:induction false} BestExists(bs: seq<Blk>, need: nat, i: nat)
    requires i < |bs| && Fits(bs[i], need)
    ensures exists k: nat :: BestFit(bs, need, k)
    decreases bs[i].size, i
  {
    if !BestFit(bs, need, i) {
      var j: nat :| j < |bs| && Fits(bs[j], need) && (bs[j].size < bs[i].size || (bs[j].size == bs[i].size && j < i));
      BestExists(bs, need, j);
    }
  }

  /** The block handed out lies where the chosen one did and has at least the bytes needed. */
  lemma AllocatedBytes(bs: seq<Blk>, i: nat, need: nat, h: nat, n: nat)
    requires HeapOk(bs, h, n) && i < |bs| && Fits(bs[i], need)
    ensures var r := Take(bs, i, need, h);
            i < |r| && r[i].addr == bs[i].addr && r[i].used && need <= r[i].size && End(r[i], h) <= n
    ensures need <= Take(bs, i, need, h)[i].size < need + h + ALIGN
  {
    TakeTiled(bs, i, need, h, n);
    Within(Take(bs, i, need, h), h, n, i);
  }

  lemma BestFits(bs: seq<Blk>, need: nat, i: nat)
    requires BestFit(bs, need, i)
    ensures i < |bs| && Fits(bs[i], need)
  {
  }

  /** `out` is `bs` after its best block `i` was handed out as the payload at `ptr`. */
  ghost predicate TookFor(bs: seq<Blk>, out: seq<Blk>, need: nat, ptr: int, h: nat, i: nat) {
    BestFit(bs, need, i) && out == Take(bs, i, need, h) && ptr == bs[i].addr + h
  }

  /** Moving `total` from one 64-bit counter to the other keeps their sum, modulo the word. */
  lemma ChargeConserves(a: nat, b: nat, total: int)
    ensures ((a + total) % WORD + (b - total) % WORD) % WORD == (a + b) % WORD
  {
  }

  /** Every payload byte of a block in use is live and inside the heap. */
  lemma PayloadLive(bs: seq<Blk>, i: nat, h: nat, n: nat)
    requires Tiled(bs, h, n) && i < |bs| && bs[i].used
    ensures End(bs[i], h) <= n
    ensures forall x :: bs[i].addr + h <= x < End(bs[i], h) ==> Live(bs, x, h)
  {
    Within(bs, h, n, i);
    forall x | bs[i].addr + h <= x < End(bs[i], h)
      ensures Live(bs, x, h)
    {
      assert InPayload(bs[i], x, h);
    }
  }

  /** Where the old block and the new one lie after an allocation, and that they are apart. */
  lemma MoveGeometry(bs: seq<Blk>, mid: seq<Blk>, i: nat, j: nat, need: nat, r: int, h: nat, n: nat)
    returns (i': nat, j': nat)
    requires HeapOk(bs, h, n) && h > 0 && i < |bs| && bs[i].used && TookFor(bs, mid, need, r, h, j)
    ensures i' < |mid| && j' < |mid| && i' != j' && mid[i'] == bs[i]
    ensures mid[j'].used && mid[j'].addr == r - h && mid[j'].size >= need
    ensures End(mid[i'], h) <= n && End(mid[j'], h) <= n
    ensures End(mid[i'], h) <= mid[j'].addr || End(mid[j'], h) <= mid[i'].addr
    ensures r != bs[i].addr + h
  {
    TakeKeeps(bs, j, need, h, i);
    i' :| 0 <= i' < |mid| && i' != j && mid[i'] == bs[i];
    j' := j;
    TakeTiled(bs, j, need, h, n);
    Within(mid, h, n, i');
    Within(mid, h, n, j');
    if i' < j' {
      Ordered(mid, h, n, i', j');
    } else {
      Ordered(mid, h, n, j', i');
    }
  }

  lemma TakeLiveFor(bs: seq<Blk>, mid: seq<Blk>, need: nat, r: int, h: nat, n: nat, j: nat, x: int)
    requires HeapOk(bs, h, n) && TookFor(bs, mid, need, r, h, j) && Live(bs, x, h)
    ensures Live(mid, x, h) && !(r <= x < r + need)
  {
    TakeLive(bs, j, need, h, n, x);
  }

  /** Freeing one block in use leaves another one in use. */
  lemma FreeKeepsOther(bs: seq<Blk>, out: seq<Blk>, addr: int, i: nat, j: nat, h: nat)
    requires Step(bs, Free(addr), h, out) && InUse(bs, addr, i)
    requires j < |bs| && bs[j].used && bs[j].addr != addr
    ensures Handed(out, bs[j].addr + h, h)
  {
    var l: nat :| InUse(bs, addr, l) && out == Release(bs, l, h);
    ReleaseKeeps(bs, l, h, j);
    var k :| 0 <= k < |out| && out[k] == bs[j];
    assert InUse(out, bs[j].addr, k);
  }

  /** The block whose payload starts at `ptr` is in use. */
  ghost predicate Handed(bs: seq<Blk>, ptr: int, h: nat) {
    var addr := ptr - h; exists i: nat :: InUse(bs, addr, i)
  }

  /** `out` is `bs` after an allocation for `size` bytes followed by the release of `ptr`. */
  ghost predicate AllocThenFree(bs: seq<Blk>, out: seq<Blk>, size: nat, ptr: int, h: nat) {
    exists mid :: Step(bs, Alloc(size), h, mid) && Step(mid, Free(ptr - h), h, out)
  }

  /** Size of the block in use whose payload starts at `ptr`, and 0 if there is none. */
  ghost function SizeAt(bs: seq<Blk>, ptr: int, h: nat): nat {
    var addr := ptr - h;
    if Handed(bs, ptr, h) then var i: nat :| InUse(bs, addr, i); bs[i].size else 0
  }

  lemma SizeAtIs(bs: seq<Blk>, i: nat, h: nat, n: nat)
    requires Tiled(bs, h, n) && h > 0 && i < |bs| && bs[i].used
    ensures Handed(bs, bs[i].addr + h, h) && SizeAt(bs, bs[i].addr + h, h) == bs[i].size
  {
    var addr := bs[i].addr;
    assert InUse(bs, addr, i);
    forall j: nat | InUse(bs, addr, j)
      ensures j == i
    {
      if j < i {
        Ordered(bs, h, n, j, i);
      } else if i < j {
        Ordered(bs, h, n, i, j);
      }
    }
  }
}
