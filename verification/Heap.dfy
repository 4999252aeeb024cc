/** The kernel heap allocator: headers in memory, a sorted doubly linked free list, best fit,
    splitting and coalescing, all updated in place. */
module KernelHeap {
  import opened Seqs
  import opened HeapSpec
  import opened HeapLists

  /** `len` bytes at `to` now are the bytes that were at `from`. */
  ghost predicate Copied(before: seq<bv8>, after: seq<bv8>, from: int, to: int, len: nat) {
    0 <= from && from + len <= |before| && 0 <= to && to + len <= |after| &&
    after[to..to + len] == before[from..from + len]
  }

  /** A copy survives a step that leaves the bytes of its target alone. */
  lemma CopyStays(first: seq<bv8>, mid: seq<bv8>, last: seq<bv8>, from: int, to: int, len: nat)
    requires Copied(first, mid, from, to, len) && |mid| == |last|
    requires forall x :: to <= x < to + len ==> last[x] == mid[x]
    ensures Copied(first, last, from, to, len)
  {
    assert last[to..to + len] == mid[to..to + len];
  }

  lemma CopyFrom(first: seq<bv8>, mid: seq<bv8>, last: seq<bv8>, from: int, to: int, len: nat)
    requires Copied(mid, last, from, to, len) && |mid| == |first|
    requires forall x :: from <= x < from + len ==> first[x] == mid[x]
    ensures Copied(first, last, from, to, len)
  {
    assert first[from..from + len] == mid[from..from + len];
  }

  class Heap {
    /** Bytes in a block header, and in the whole heap. */
    const h: nat
    const n: nat
    /** How a header looks as bytes; nothing depends on it. */
    const image: (Header, nat) -> bv8
    const bytes: array<bv8>

    var hdr: Headers
    var head: int
    var usedHeap: nat
    var freeHeap: nat

    ghost var tiles: seq<int>
    ghost var frees: seq<int>

    /** The blocks tile the heap and the list threads some of the free ones. */
    ghost predicate Shape()
      reads this
    {
      bytes.Length == n && TilesOk(hdr, tiles, h, n) && ListOk(hdr, tiles, frees, head)
    }

    ghost function Bs(): seq<Blk>
      requires TilesIn(hdr, tiles)
      reads this
    {
      Blocks(hdr, tiles)
    }

    /** Between calls, moreover: the list holds every free block and no two of them are adjacent. */
    ghost predicate Valid()
      reads this
    {
      Shape() && Complete(hdr, tiles, frees) && NoAdjacentFree(Bs())
    }

    constructor (h: nat, n: nat, image: (Header, nat) -> bv8)
      requires 0 < h <= n
      ensures Valid() && this.h == h && this.n == n && fresh(bytes)
      ensures Bs() == [Blk(0, n - h, false)]
      ensures usedHeap == 0 && freeHeap == n
    {
      this.h, this.n, this.image := h, n, image;
      bytes := new bv8[n];
      hdr := map[0 := Header(MAGIC, false, n - h, NULL, NULL)];
      head := 0;
      usedHeap, freeHeap := 0, n;
      tiles, frees := [0], [0];
    }

    /** Store a header: its bytes and any header it overlaps are overwritten. */
    method WriteHeader(a: int, hd: Header)
      requires 0 <= a && a + h <= n && bytes.Length == n
      modifies `hdr, bytes
      ensures hdr == Put(old(hdr), a, hd, h)
      ensures forall x :: 0 <= x < n && !(a <= x < a + h) ==> bytes[x] == old(bytes[x])
    {
      for x := a to a + h
        invariant hdr == old(hdr)
        invariant forall y :: 0 <= y < n && !(a <= y < a + h) ==> bytes[y] == old(bytes[y])
      {
        bytes[x] := image(hd, x - a);
      }
      hdr := Put(hdr, a, hd, h);
    }

    /** Set the links of block `a`. */
    method SetLinks(a: int, next: int, prev: int)
      requires bytes.Length == n && TilesOk(hdr, tiles, h, n) && a in tiles && a in hdr
      modifies `hdr, bytes
      ensures TilesOk(hdr, tiles, h, n) && Bs() == old(Bs())
      ensures forall t :: t in tiles ==>
        t in hdr && hdr[t] == if t == a then old(hdr)[t].(next := next, prev := prev) else old(hdr)[t]
      ensures forall x :: 0 <= x < n && !InHeader(tiles, x, h) ==> bytes[x] == old(bytes[x])
    {
      var hd := hdr[a].(next := next, prev := prev);
      TileWithin(hdr, tiles, h, n, a);
      PutTile(hdr, tiles, h, n, a, hd);
      PutKeepsTiles(hdr, tiles, h, n, a, hd);
      WriteHeader(a, hd);
    }

    /** Set the flag of block `tiles[i]`. */
    method SetUsed(a: int, used: bool, ghost i: nat)
      requires bytes.Length == n && TilesOk(hdr, tiles, h, n) && i < |tiles| && a == tiles[i] && a in hdr
      modifies `hdr, bytes
      ensures TilesOk(hdr, tiles, h, n) && Bs() == old(Bs())[i := old(Bs())[i].(used := used)]
      ensures forall t :: t in tiles ==>
        t in hdr && hdr[t] == if t == a then old(hdr)[t].(used := used) else old(hdr)[t]
      ensures forall x :: 0 <= x < n && !InHeader(tiles, x, h) ==> bytes[x] == old(bytes[x])
    {
      var hd := hdr[a].(used := used);
      TileWithin(hdr, tiles, h, n, a);
      PutTile(hdr, tiles, h, n, a, hd);
      PutKeepsTiles(hdr, tiles, h, n, a, hd);
      WriteHeader(a, hd);
    }

    /** The smallest free block of at least `size` bytes, the lowest one on ties. */
    method FindFreeBlock(size: nat) returns (best: int)
      requires Shape()
      ensures BestOf(hdr, frees, size, best)
    {
      hide TilesOk, ListOk, BestOf;
      ListStart(hdr, tiles, frees, head, size);
      ListPositive(hdr, tiles, frees, head);
      best := NULL;
      var block := head;
      ghost var i := 0;
      while block != NULL
        invariant 0 <= i <= |frees| && block == LinkTo(frees, i)
        invariant BestOf(hdr, frees[..i], size, best)
        decreases |frees| - i
      {
        ListAt(hdr, tiles, frees, head, i);
        BestStep(hdr, frees[..i], size, best, block);
        if !hdr[block].used && hdr[block].size >= size {
          if best == NULL || hdr[block].size < hdr[best].size {
            best := block;
          }
        }
        block := hdr[block].next;
        i := i + 1;
      }
      assert frees[..i] == frees;
    }

    /** Take node `i` off the list. */
    method RemoveFromFreeList(block: int, ghost i: nat)
      requires Shape() && i < |frees| && frees[i] == block
      modifies `hdr, `head, `frees, bytes
      ensures Shape() && Bs() == old(Bs()) && frees == Without(old(frees), i)
      ensures forall t :: t in frees <==> t in old(frees) && t != block
      ensures forall x :: 0 <= x < n && !InHeader(tiles, x, h) ==> bytes[x] == old(bytes[x])
    {
      hide Tiled, Blocks, InHeader, ListOk, TilesOk;
      ghost var m := hdr;
      ListAt(hdr, tiles, frees, head, i);
      if i > 0 {
        ListAt(hdr, tiles, frees, head, i - 1);
      }
      var next, prev := hdr[block].next, hdr[block].prev;
      if prev != NULL {
        SetLinks(prev, next, hdr[prev].prev);
      } else {
        head := next;
      }
      if next != NULL {
        ListAt(m, tiles, frees, old(head), i + 1);
        SetLinks(next, hdr[next].next, prev);
      }
      SetLinks(block, NULL, NULL);
      forall j | 0 <= j < |frees| && j != i
        ensures Bypassed(m, hdr, frees, i, j)
      {
        ListAt(m, tiles, frees, old(head), j);
        ListDistinct(m, tiles, frees, old(head));
      }
      Unlink(m, hdr, tiles, frees, old(head), i, head);
      frees := Without(frees, i);
    }

    /** The neighbours a block gets on the list: the last node below it and the first one above. */
    method FindPlace(block: int) returns (prev: int, curr: int, ghost i: nat)
      requires ListOk(hdr, tiles, frees, head)
      ensures i <= |frees| && curr == LinkTo(frees, i) && prev == LinkBack(frees, i)
      ensures forall k :: 0 <= k < i ==> frees[k] < block
      ensures i < |frees| ==> frees[i] >= block
    {
      hide Increasing;
      ListPositive(hdr, tiles, frees, head);
      prev, curr, i := NULL, head, 0;
      while curr != NULL && curr < block
        invariant i <= |frees| && curr == LinkTo(frees, i) && prev == LinkBack(frees, i)
        invariant forall k :: 0 <= k < i ==> frees[k] < block
        decreases |frees| - i
      {
        ListAt(hdr, tiles, frees, head, i);
        prev := curr;
        curr := hdr[curr].next;
        i := i + 1;
      }
    }

    /** Link `block` in between `prev` and `curr`. */
    method LinkBetween(block: int, prev: int, curr: int, ghost i: nat)
      requires Shape() && block >= 0 && block in tiles && block in hdr && !hdr[block].used && block !in frees
      requires hdr[block].next == NULL && hdr[block].prev == NULL
      requires i <= |frees| && curr == LinkTo(frees, i) && prev == LinkBack(frees, i)
      requires forall k :: 0 <= k < i ==> frees[k] < block
      requires i < |frees| ==> frees[i] >= block
      modifies `hdr, `head, `frees, bytes
      ensures Shape() && Bs() == old(Bs()) && frees == WithAt(old(frees), i, block)
      ensures forall t :: t in frees <==> t in old(frees) || t == block
      ensures forall x :: 0 <= x < n && !InHeader(tiles, x, h) ==> bytes[x] == old(bytes[x])
    {
      hide Tiled, Blocks, InHeader, Increasing;
      ghost var m := hdr;
      ListPositive(hdr, tiles, frees, head);
      if prev != NULL {
        ListAt(hdr, tiles, frees, head, i - 1);
        SetLinks(prev, block, hdr[prev].prev);
        SetLinks(block, hdr[block].next, prev);
      } else {
        head := block;
      }
      SetLinks(block, curr, hdr[block].prev);
      if curr != NULL {
        ListAt(m, tiles, frees, old(head), i);
        SetLinks(curr, hdr[curr].next, block);
      }
      forall j | 0 <= j < |frees|
        ensures MadeRoom(m, hdr, frees, i, block, j)
      {
        ListAt(m, tiles, frees, old(head), j);
        ListDistinct(m, tiles, frees, old(head));
      }
      LaterHigher(m, tiles, frees, old(head), i, block);
      LinkIn(m, hdr, tiles, frees, old(head), i, block, head);
      frees := WithAt(frees, i, block);
    }

    /** Put block `block` on the list, at its place by address. */
    method AddToFreeList(block: int) returns (ghost i: nat)
      requires Shape() && block in tiles && block in hdr && !hdr[block].used && block !in frees
      modifies `hdr, `head, `frees, bytes
      ensures Shape() && Bs() == old(Bs())
      ensures i <= |old(frees)| && frees == WithAt(old(frees), i, block)
      ensures (forall k :: 0 <= k < i ==> old(frees)[k] < block) && (i < |old(frees)| ==> old(frees)[i] > block)
      ensures forall t :: t in frees <==> t in old(frees) || t == block
      ensures forall x :: 0 <= x < n && !InHeader(tiles, x, h) ==> bytes[x] == old(bytes[x])
    {
      hide Tiled, Blocks, InHeader, Increasing;
      TileWithin(hdr, tiles, h, n, block);
      SetLinks(block, NULL, NULL);
      ListKept(old(hdr), hdr, tiles, frees, head, block);
      var prev, curr;
      prev, curr, i := FindPlace(block);
      LinkBetween(block, prev, curr, i);
    }

    /** The two header writes of a cut. */
    method WriteCut(block: int, needed: nat, rest: int)
      requires 0 <= block && block in hdr && hdr[block].size >= needed + h && rest == block + h + needed
      requires h > 0 && rest + h <= n && bytes.Length == n
      modifies `hdr, bytes
      ensures hdr == CutHeaders(old(hdr), block, needed, h)
      ensures forall x :: 0 <= x < n && !(block <= x < block + h) && !(rest <= x < rest + h) ==>
        bytes[x] == old(bytes[x])
    {
      WriteHeader(rest, Header(MAGIC, false, hdr[block].size - needed - h, NULL, NULL));
      assert block in hdr && hdr[block] == old(hdr)[block];
      WriteHeader(block, hdr[block].(size := needed));
    }

    /** Write the two headers that cut block `tiles[i]` at `rest`. */
    method CutBlock(block: int, needed: nat, rest: int, ghost i: nat)
      requires Shape() && i < |tiles| && tiles[i] == block && block !in frees && !hdr[block].used
      requires hdr[block].size >= needed + h + ALIGN && rest == block + h + needed
      requires CompleteBut(hdr, tiles, frees, block)
      modifies `hdr, `tiles, bytes
      ensures Shape() && Bs() == Split(old(Bs()), i, needed, h)
      ensures tiles == WithAt(old(tiles), i + 1, rest)
      ensures rest !in frees && rest in hdr && !hdr[rest].used
      ensures forall t :: t in tiles && t in hdr && !hdr[t].used ==> t in frees || t == block || t == rest
      ensures forall x :: 0 <= x < n && !InHeader(tiles, x, h) ==> bytes[x] == old(bytes[x])
    {
      hide Tiled, Split, Increasing, ListOk, IsCut, CompleteBut, CutHeaders, Blocks;
      ghost var m := hdr;
      CutOthers(hdr, tiles, h, n, i, needed);
      WriteCut(block, needed, rest);
      CutChain(m, hdr, tiles, h, n, i, needed, rest);
      CutComplete(m, hdr, tiles, frees, head, h, i, needed, rest);
      CutMembers(tiles, i + 1, rest);
      tiles := WithAt(tiles, i + 1, rest);
    }

    /** Cut block `tiles[i]`, which is off the list, down to `needed` bytes if the rest can be a block. */
    method SplitBlock(block: int, needed: nat, ghost i: nat)
      requires Shape() && i < |tiles| && tiles[i] == block && block !in frees
      requires !hdr[block].used && hdr[block].size >= needed
      requires CompleteBut(hdr, tiles, frees, block)
      modifies `hdr, `head, `frees, `tiles, bytes
      ensures Shape() && Bs() == Split(old(Bs()), i, needed, h)
      ensures i < |tiles| && tiles[i] == block && block !in frees
      ensures CompleteBut(hdr, tiles, frees, block)
      ensures forall t :: t in old(tiles) ==> t in tiles
      ensures forall x :: 0 <= x < n && !InHeader(tiles, x, h) ==> bytes[x] == old(bytes[x])
    {
      hide Tiled, ListOk, IsCut, Increasing, InHeader, Blocks;
      var remainder := hdr[block].size - needed;
      if remainder >= h + ALIGN {
        var rest := block + h + needed;
        CutBlock(block, needed, rest, i);
        CutMembers(old(tiles), i + 1, rest);
        ghost var cut := hdr;
        ghost var at := AddToFreeList(rest);
        FlagsOf(cut, hdr, tiles);
      }
    }

    /** The two header writes of a merge. */
    method WriteJoin(block: int, next: int)
      requires 0 <= block && 0 <= next && block in hdr && next in hdr && bytes.Length == n
      requires h > 0 && block + h <= next && next + h <= n
      modifies `hdr, bytes
      ensures hdr == JoinHeaders(old(hdr), block, next, h)
      ensures forall x :: 0 <= x < n && !(block <= x < block + h) && !(next <= x < next + h) ==>
        bytes[x] == old(bytes[x])
    {
      WriteHeader(block, hdr[block].(size := hdr[block].size + h + hdr[next].size));
      assert next in hdr && hdr[next] == old(hdr)[next];
      WriteHeader(next, hdr[next].(magic := 0));
    }

    /** Take the node after node `j` off the list, as a merge does: the merged header keeps its links. */
    method BypassNext(ghost j: nat, block: int, next: int)
      requires Shape() && j + 1 < |frees| && frees[j] == block && frees[j + 1] == next
      modifies `hdr, `frees, bytes
      ensures Shape() && Bs() == old(Bs()) && frees == Without(old(frees), j + 1)
      ensures forall t :: t in frees <==> t in old(frees) && t != next
      ensures forall x :: 0 <= x < n && !InHeader(tiles, x, h) ==> bytes[x] == old(bytes[x])
    {
      hide Tiled, Blocks, InHeader, Increasing;
      ghost var m := hdr;
      ListAt(hdr, tiles, frees, head, j);
      ListAt(hdr, tiles, frees, head, j + 1);
      var after := hdr[next].next;
      SetLinks(block, after, hdr[block].prev);
      if after != NULL {
        ListAt(m, tiles, frees, head, j + 2);
        SetLinks(after, hdr[after].next, block);
      }
      ghost var i := j + 1;
      forall k | 0 <= k < |frees| && k != i
        ensures Bypassed(m, hdr, frees, i, k)
      {
        ListAt(m, tiles, frees, head, k);
        ListDistinct(m, tiles, frees, head);
      }
      Unlink(m, hdr, tiles, frees, head, i, head);
      frees := Without(frees, i);
    }

    /** Merge block `tiles[i]` with the free block right after it. */
    method MergeNext(block: int, next: int, ghost i: nat, ghost j: nat)
      requires Shape() && Complete(hdr, tiles, frees)
      requires i + 1 < |tiles| && tiles[i] == block && tiles[i + 1] == next
      requires j + 1 < |frees| && frees[j] == block && frees[j + 1] == next
      modifies `hdr, `frees, `tiles, bytes
      ensures Shape() && Complete(hdr, tiles, frees) && Bs() == MergeAt(old(Bs()), i, h)
      ensures |tiles| == |old(tiles)| - 1
      ensures forall t :: t in tiles ==> t in old(tiles)
      ensures forall x :: 0 <= x < n && !InHeader(old(tiles), x, h) ==> bytes[x] == old(bytes[x])
    {
      hide Tiled, Blocks, Increasing, ListOk, IsJoin, MergeAt, Complete;
      BypassNext(j, block, next);
      ghost var m := hdr;
      FlagsOf(old(hdr), m, tiles);
      TileOrder(hdr, tiles, h, n, i, i + 1);
      TileWithin(hdr, tiles, h, n, next);
      JoinOthers(hdr, tiles, h, n, i);
      WriteJoin(block, next);
      JoinChain(m, hdr, tiles, h, n, i);
      TilesIncreasing(m, tiles, h, n);
      JoinComplete(old(hdr), m, hdr, tiles, old(frees), frees, head, h, i);
      WithoutMembers(tiles, i + 1);
      tiles := Without(tiles, i + 1);
    }

    /** The first free block followed directly by another one. */
    method FindAdjacent() returns (found: bool, block: int, next: int, ghost j: nat)
      requires Shape()
      ensures found ==> Adjacent(hdr, frees, j, h) && frees[j] == block && frees[j + 1] == next
      ensures !found ==> forall k :: 0 <= k < |frees| ==> !Adjacent(hdr, frees, k, h)
    {
      hide TilesOk, Increasing;
      ListPositive(hdr, tiles, frees, head);
      block, j := head, 0;
      while block != NULL
        invariant j <= |frees| && block == LinkTo(frees, j)
        invariant forall k :: 0 <= k < j ==> !Adjacent(hdr, frees, k, h)
        decreases |frees| - j
      {
        ListAt(hdr, tiles, frees, head, j);
        if !hdr[block].used {
          next := hdr[block].next;
          if next != NULL && next == block + h + hdr[block].size {
            ListAt(hdr, tiles, frees, head, j + 1);
            if !hdr[next].used {
              return true, block, next, j;
            }
          }
        }
        block := hdr[block].next;
        j := j + 1;
      }
      return false, NULL, NULL, 0;
    }

    /** Merge adjacent free blocks until there are none. */
    method CoalesceFree()
      requires Shape() && Complete(hdr, tiles, frees)
      modifies `hdr, `frees, `tiles, bytes
      ensures Shape() && Complete(hdr, tiles, frees) && NoAdjacentFree(Bs())
      ensures Bs() == Coalesce(old(Bs()), h)
      ensures forall t :: t in tiles ==> t in old(tiles)
      ensures forall x :: 0 <= x < n && !InHeader(old(tiles), x, h) ==> bytes[x] == old(bytes[x])
    {
      hide Tiled, Blocks, ListOk, MergeAt, Coalesce, Increasing;
      var merged := true;
      while merged
        invariant Shape() && Complete(hdr, tiles, frees)
        invariant Coalesce(Bs(), h) == Coalesce(old(Bs()), h)
        invariant !merged ==> NoAdjacentFree(Bs())
        invariant forall t :: t in tiles ==> t in old(tiles)
        invariant forall x :: 0 <= x < n && !InHeader(old(tiles), x, h) ==> bytes[x] == old(bytes[x])
        decreases |tiles|, merged
      {
        var block, next;
        ghost var j;
        merged, block, next, j := FindAdjacent();
        if merged {
          ghost var i := AdjacentTiles(hdr, tiles, frees, head, h, n, j);
          CoalesceMerge(Bs(), i, h);
          ghost var before := |tiles|;
          MergeNext(block, next, i, j);
          assert |tiles| == before - 1;
        } else {
          NoneAdjacent(hdr, tiles, frees, head, h, n);
        }
      }
      CoalesceDone(Bs(), h);
    }

    method Zero(from: int, count: nat)
      requires 0 <= from && from + count <= bytes.Length
      modifies bytes
      ensures forall x :: 0 <= x < bytes.Length ==>
        bytes[x] == if from <= x < from + count then 0 else old(bytes[x])
    {
      for x := from to from + count
        invariant forall y :: 0 <= y < bytes.Length ==>
          bytes[y] == if from <= y < x then 0 else old(bytes[y])
      {
        bytes[x] := 0;
      }
    }

    /** Hand out block `frees[j] == tiles[i]`, cut to `need` bytes. */
    method TakeBlock(block: int, need: nat, ghost i: nat, ghost j: nat)
      requires Valid() && i < |tiles| && tiles[i] == block && j < |frees| && frees[j] == block
      requires block in hdr && hdr[block].size >= need
      modifies `hdr, `head, `frees, `tiles, bytes
      ensures Valid() && Bs() == Take(old(Bs()), i, need, h)
      ensures forall x :: 0 <= x < n && !InHeader(tiles, x, h) ==> bytes[x] == old(bytes[x])
    {
      hide Tiled, ListOk, Split, Increasing, NoAdjacentFree;
      ghost var bs, m, all := Bs(), hdr, frees;
      ListAt(hdr, tiles, frees, head, j);
      assert bs[i] == BlockOf(hdr, block);
      TakeOk(bs, i, need, h, n);
      RemoveFromFreeList(block, j);
      FlagsOf(m, hdr, tiles);
      TakenComplete(m, hdr, tiles, all, frees, block);
      SplitBlock(block, need, i);
      ghost var cut := hdr;
      SetUsed(block, true, i);
      ListKept(cut, hdr, tiles, frees, head, block);
      UsedComplete(cut, hdr, tiles, frees, block);
    }

    /** Find and hand out the best block for `need` bytes. */
    method AllocBlock(need: nat) returns (block: int, ghost i: nat)
      requires Valid()
      modifies `hdr, `head, `frees, `tiles, bytes
      ensures Valid()
      ensures block == NULL ==> Bs() == old(Bs()) && forall k: nat :: !BestFit(old(Bs()), need, k)
      ensures block == NULL ==> forall x :: 0 <= x < n ==> bytes[x] == old(bytes[x])
      ensures block != NULL ==> BestFit(old(Bs()), need, i) && Bs() == Take(old(Bs()), i, need, h)
      ensures block != NULL ==> block == old(Bs())[i].addr
      ensures forall x :: 0 <= x < n && !InHeader(tiles, x, h) ==> bytes[x] == old(bytes[x])
    {
      hide Tiled, ListOk, Take, Increasing, NoAdjacentFree, Complete, BestOf, InHeader;
      i := 0;
      block := FindFreeBlock(need);
      BestIsBestFit(hdr, tiles, frees, head, h, n, need, block);
      if block != NULL {
        i :| BestFit(Bs(), need, i) && tiles[i] == block;
        ghost var j: nat :| j < |frees| && frees[j] == block;
        TakeBlock(block, need, i, j);
      }
    }

    /** Allocate `size` bytes: NULL, or the address of a zeroed payload. */
    method Alloc(size: nat) returns (ptr: int)
      requires Valid() && size < WORD
      modifies `hdr, `head, `frees, `tiles, `usedHeap, `freeHeap, bytes
      ensures Valid()
      ensures Step(old(Bs()), Op.Alloc(size), h, Bs())
      ensures ptr == NULL <==> (size == 0 || forall i: nat :: i < |old(Bs())| ==> !Fits(old(Bs())[i], AlignUp(size)))
      ensures ptr == NULL ==> Bs() == old(Bs()) && forall x :: 0 <= x < n ==> bytes[x] == old(bytes[x])
      ensures ptr != NULL ==> exists i: nat :: TookFor(old(Bs()), Bs(), AlignUp(size), ptr, h, i)
      ensures ptr != NULL ==> forall x :: ptr <= x < ptr + AlignUp(size) ==> 0 <= x < n && bytes[x] == 0
      ensures forall x :: 0 <= x < n && Live(old(Bs()), x, h) ==> bytes[x] == old(bytes[x])
      ensures (usedHeap + freeHeap) % WORD == (old(usedHeap) + old(freeHeap)) % WORD
    {
      hide Tiled, ListOk, Take, Increasing, NoAdjacentFree, Complete, Blocks, BestFit, InHeader, Live;
      if size == 0 {
        return NULL;
      }
      ghost var bs := Bs();
      var need := AlignUp(size);
      var block;
      ghost var i;
      block, i := AllocBlock(need);
      if block == NULL {
        NoneFits(bs, need);
        return NULL;
      }
      BestFits(bs, need, i);
      AllocatedBytes(bs, i, need, h, n);
      var total := h + need;
      ChargeConserves(usedHeap, freeHeap, total);
      usedHeap, freeHeap := (usedHeap + total) % WORD, (freeHeap - total) % WORD;
      ptr := block + h;
      assert TookFor(bs, Bs(), need, ptr, h, i);
      forall x | 0 <= x < n && Live(bs, x, h)
        ensures !(ptr <= x < ptr + need) && !InHeader(tiles, x, h)
      {
        TakeLive(bs, i, need, h, n, x);
        LiveNotHeader(hdr, tiles, h, n, x);
      }
      Zero(ptr, need);
    }

    /** Free the payload at `ptr`. NULL, a header without the magic number and a block that is
        not in use are ignored. */
    method Free(ptr: int)
      requires Valid() && (ptr == NULL || (ptr >= h && ptr - h in hdr))
      modifies `hdr, `head, `frees, `tiles, `usedHeap, `freeHeap, bytes
      ensures Valid()
      ensures ptr == NULL ==> Bs() == old(Bs())
      ensures ptr != NULL ==> Step(old(Bs()), Op.Free(ptr - h), h, Bs())
      ensures forall x :: 0 <= x < n && Live(old(Bs()), x, h) ==> bytes[x] == old(bytes[x])
      ensures (usedHeap + freeHeap) % WORD == (old(usedHeap) + old(freeHeap)) % WORD
    {
      hide Tiled, ListOk, Coalesce, Increasing, NoAdjacentFree, Blocks, InHeader, Live;
      if ptr == NULL {
        return;
      }
      var block := ptr - h;
      ghost var bs := Bs();
      if hdr[block].magic != MAGIC || !hdr[block].used {
        NotInUse(hdr, tiles, h, n, block);
        return;
      }
      assert block in tiles;
      ghost var i: nat :| i < |tiles| && tiles[i] == block;
      assert bs[i] == BlockOf(hdr, block);
      assert InUse(bs, block, i);
      var total := h + hdr[block].size;
      ChargeConserves(usedHeap, freeHeap, -total);
      usedHeap, freeHeap := (usedHeap - total) % WORD, (freeHeap + total) % WORD;
      forall x | 0 <= x < n && Live(bs, x, h)
        ensures !InHeader(tiles, x, h)
      {
        LiveNotHeader(hdr, tiles, h, n, x);
      }
      ReleaseBlock(block, i);
    }

    /** Put block `tiles[i]` back on the list and merge around it. */
    method ReleaseBlock(block: int, ghost i: nat)
      requires Valid() && i < |tiles| && tiles[i] == block && block in hdr && hdr[block].used
      modifies `hdr, `head, `frees, `tiles, bytes
      ensures Valid() && Bs() == Release(old(Bs()), i, h)
      ensures forall x :: 0 <= x < n && !InHeader(old(tiles), x, h) ==> bytes[x] == old(bytes[x])
    {
      hide Tiled, ListOk, Coalesce, Increasing, NoAdjacentFree, Blocks, InHeader;
      ghost var m := hdr;
      NotOnList(hdr, tiles, frees, head, block);
      SetUsed(block, false, i);
      ListKept(m, hdr, tiles, frees, head, block);
      ghost var freed, all := hdr, frees;
      ghost var at := AddToFreeList(block);
      FlagsOf(freed, hdr, tiles);
      FreedComplete(m, hdr, tiles, all, frees, block);
      CoalesceFree();
    }

    /** Resize the payload at `ptr`: in place when it is large enough, otherwise by moving it. */
    method Realloc(ptr: int, newSize: nat) returns (r: int)
      requires Valid() && newSize < WORD && (ptr == NULL || (ptr >= h && ptr - h in hdr))
      modifies `hdr, `head, `frees, `tiles, `usedHeap, `freeHeap, bytes
      ensures Valid()
      ensures ptr == NULL ==> Step(old(Bs()), Op.Alloc(newSize), h, Bs())
      ensures ptr != NULL && newSize == 0 ==> r == NULL && Step(old(Bs()), Op.Free(ptr - h), h, Bs())
      ensures ptr != NULL && newSize > 0 && r in {NULL, ptr} ==> Bs() == old(Bs())
      ensures ptr != NULL && newSize > 0 && r == ptr ==> AlignUp(newSize) <= SizeAt(Bs(), ptr, h)
      ensures ptr != NULL && newSize > 0 && r !in {NULL, ptr} ==>
        AllocThenFree(old(Bs()), Bs(), newSize, ptr, h) && Handed(Bs(), r, h) && Handed(old(Bs()), ptr, h)
      ensures ptr != NULL && newSize > 0 && r !in {NULL, ptr} ==>
        Copied(old(bytes[..]), bytes[..], ptr, r, SizeAt(old(Bs()), ptr, h))
      ensures forall x :: 0 <= x < n && Live(old(Bs()), x, h) ==> bytes[x] == old(bytes[x])
    {
      hide Tiled, ListOk, Coalesce, Increasing, NoAdjacentFree, Blocks, InHeader, Live, Step, Complete,
           AllocThenFree, Copied, Handed;
      if ptr == NULL {
        r := Alloc(newSize);
        return;
      }
      if newSize == 0 {
        Free(ptr);
        return NULL;
      }
      var block := ptr - h;
      if hdr[block].magic != MAGIC || !hdr[block].used {
        return NULL;
      }
      ghost var i: nat :| i < |tiles| && tiles[i] == block;
      BlockHeader(hdr, tiles, i);
      SizeAtIs(Bs(), i, h, n);
      if hdr[block].size >= AlignUp(newSize) {
        return ptr;
      }
      r := Move(ptr, newSize, i);
    }

    /** Allocate anew, copy the payload of block `tiles[i]` over, and free it. */
    method Move(ptr: int, newSize: nat, ghost i: nat) returns (r: int)
      requires Valid() && 0 < newSize < WORD && i < |tiles| && tiles[i] == ptr - h && ptr >= h
      requires ptr - h in hdr && hdr[ptr - h].used && hdr[ptr - h].size < AlignUp(newSize)
      modifies `hdr, `head, `frees, `tiles, `usedHeap, `freeHeap, bytes
      ensures Valid() && r != ptr
      ensures r == NULL ==> Bs() == old(Bs())
      ensures r != NULL ==> AllocThenFree(old(Bs()), Bs(), newSize, ptr, h) && Handed(Bs(), r, h)
      ensures r != NULL ==> Copied(old(bytes[..]), bytes[..], ptr, r, old(hdr)[ptr - h].size)
      ensures forall x :: 0 <= x < n && Live(old(Bs()), x, h) ==> bytes[x] == old(bytes[x])
    {
      hide Tiled, ListOk, NoAdjacentFree, Blocks, Live, Step, Complete, Take, BestFit, Handed, Copied, InUse;
      ghost var i', j';
      r, i', j' := AllocCopy(ptr, newSize, i);
      if r == NULL {
        return;
      }
      ghost var mid := Bs();
      ghost var before := bytes[..];
      PayloadLive(mid, j', h, n);
      Free(ptr);
      CopyStays(old(bytes[..]), before, bytes[..], ptr, r, old(hdr)[ptr - h].size);
      FreeKeepsOther(mid, Bs(), ptr - h, i', j', h);
    }

    /** The first half of a move: the new block holds a copy of the payload of block `tiles[i]`. */
    method AllocCopy(ptr: int, newSize: nat, ghost i: nat) returns (r: int, ghost i': nat, ghost j': nat)
      requires Valid() && 0 < newSize < WORD && i < |tiles| && tiles[i] == ptr - h && ptr >= h
      requires ptr - h in hdr && hdr[ptr - h].used && hdr[ptr - h].size < AlignUp(newSize)
      modifies `hdr, `head, `frees, `tiles, `usedHeap, `freeHeap, bytes
      ensures Valid() && r != ptr
      ensures Step(old(Bs()), Op.Alloc(newSize), h, Bs())
      ensures r == NULL ==> Bs() == old(Bs())
      ensures r != NULL ==> ptr - h in hdr && InUse(Bs(), ptr - h, i') && j' < |Bs()| && Bs()[j'].used
      ensures r != NULL ==> Bs()[j'].addr == r - h != ptr - h && old(hdr)[ptr - h].size <= Bs()[j'].size
      ensures r != NULL ==> Copied(old(bytes[..]), bytes[..], ptr, r, old(hdr)[ptr - h].size)
      ensures forall x :: 0 <= x < n && Live(old(Bs()), x, h) ==>
        bytes[x] == old(bytes[x]) && (r != NULL ==> Live(Bs(), x, h))
    {
      hide Tiled, ListOk, NoAdjacentFree, Blocks, Live, Step, Complete, Take, BestFit, TookFor;
      ghost var bs := Bs();
      BlockHeader(hdr, tiles, i);
      PayloadLive(bs, i, h, n);
      ghost var before := bytes[..];
      r := Alloc(newSize);
      i', j' := 0, 0;
      if r != NULL {
        ghost var j: nat :| TookFor(bs, Bs(), AlignUp(newSize), r, h, j);
        i', j' := MoveGeometry(bs, Bs(), i, j, AlignUp(newSize), r, h, n);
        BlockHeader(hdr, tiles, i');
        BlockHeader(hdr, tiles, j');
        ghost var mid := bytes[..];
        CopyPayload(ptr, r, i', j', bs, AlignUp(newSize), j);
        CopyFrom(before, mid, bytes[..], ptr, r, old(hdr)[ptr - h].size);
      }
    }

    /** Copy the payload of block `tiles[i]` to the one of `tiles[j]`, which `bs` did not have in use. */
    method CopyPayload(ptr: int, r: int, ghost i: nat, ghost j: nat, ghost bs: seq<Blk>, ghost need: nat, ghost k: nat)
      requires Valid() && HeapOk(bs, h, n) && TookFor(bs, Bs(), need, r, h, k)
      requires i < |tiles| && j < |tiles| && tiles[i] == ptr - h && tiles[j] == r - h
      requires ptr - h in hdr && r - h in hdr && hdr[ptr - h].size < need <= hdr[r - h].size
      requires ptr + hdr[ptr - h].size <= n && r + hdr[r - h].size <= n && ptr >= h && r >= h
      requires ptr + hdr[ptr - h].size <= r || r + hdr[r - h].size <= ptr
      modifies bytes
      ensures Copied(old(bytes[..]), bytes[..], ptr, r, hdr[ptr - h].size)
      ensures forall x :: 0 <= x < n && Live(bs, x, h) ==> Live(Bs(), x, h) && bytes[x] == old(bytes[x])
    {
      hide HeapOk, TookFor, Tiled, ListOk, Complete, NoAdjacentFree, Live;
      var block, newBlock := ptr - h, r - h;
      var copySize := Min(hdr[block].size, hdr[newBlock].size);
      forall x | 0 <= x < n && Live(bs, x, h)
        ensures Live(Bs(), x, h) && !(r <= x < r + need)
      {
        TakeLiveFor(bs, Bs(), need, r, h, n, k, x);
      }
      CopyBytes(ptr, r, copySize);
    }

    method CopyBytes(from: int, to: int, count: nat)
      requires 0 <= from && from + count <= bytes.Length && 0 <= to && to + count <= bytes.Length
      requires from + count <= to || to + count <= from
      modifies bytes
      ensures forall x :: 0 <= x < bytes.Length ==>
        bytes[x] == old(bytes[if to <= x < to + count then from + (x - to) else x])
    {
      for c := 0 to count
        invariant forall x :: 0 <= x < bytes.Length ==>
          bytes[x] == old(bytes[if to <= x < to + c then from + (x - to) else x])
      {
        bytes[to + c] := bytes[from + c];
      }
    }
  }
}
