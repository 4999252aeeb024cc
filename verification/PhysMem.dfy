/** The physical page bitmap: first-fit allocation of page runs, freeing and counting. */
module PhysMem {
  import opened PageSpec

  const BYTES: nat := PAGES / 8 + 1

  /** The byte with only bit `k` set. */
  function Mask(k: nat): bv8
    requires k < 8
  {
    match k
    case 0 => 0x01
    case 1 => 0x02
    case 2 => 0x04
    case 3 => 0x08
    case 4 => 0x10
    case 5 => 0x20
    case 6 => 0x40
    case 7 => 0x80
  }

  predicate Bit(b: bv8, k: nat)
    requires k < 8
  {
    b & Mask(k) != 0
  }

  function WithBit(b: bv8, k: nat): bv8
    requires k < 8
  {
    b | Mask(k)
  }

  function WithoutBit(b: bv8, k: nat): bv8
    requires k < 8
  {
    b & !Mask(k)
  }

  lemma MaskDisjoint(k: nat, j: nat)
    requires k < 8 && j < 8
    ensures Mask(k) != 0 && (j != k ==> Mask(k) & Mask(j) == 0)
  {
  }

  lemma OrMask(b: bv8, m: bv8, n: bv8)
    ensures m & n == 0 ==> (b | m) & n == b & n
    ensures m != 0 ==> (b | m) & m != 0
  {
  }

  lemma AndNotMask(b: bv8, m: bv8, n: bv8)
    ensures m & n == 0 ==> (b & !m) & n == b & n
    ensures (b & !m) & m == 0
  {
  }

  lemma SetOneBit(b: bv8, k: nat, j: nat)
    requires k < 8 && j < 8
    ensures Bit(WithBit(b, k), j) <==> j == k || Bit(b, j)
  {
    MaskDisjoint(k, j);
    hide Mask;
    OrMask(b, Mask(k), Mask(j));
  }

  lemma ClearOneBit(b: bv8, k: nat, j: nat)
    requires k < 8 && j < 8
    ensures Bit(WithoutBit(b, k), j) <==> j != k && Bit(b, j)
  {
    MaskDisjoint(k, j);
    hide Mask;
    AndNotMask(b, Mask(k), Mask(j));
  }

  /** A page in use stops a run of `n` pages at `t`, below page `i`. */
  ghost predicate Blocked(u: Use, t: int, n: int, i: int)
    requires i <= PAGES
  {
    exists p :: 0 <= t <= p < t + n && p < i && u[p]
  }

  ghost predicate AllBlocked(u: Use, m: int, n: int, i: int)
    requires i <= PAGES
  {
    forall t :: 1 <= t < m ==> Blocked(u, t, n, i)
  }

  /** Looking at page `i`: if it is in use, it blocks every run that could have started before it. */
  lemma AllBlockedStep(u: Use, m: int, n: int, i: int)
    requires 1 <= m <= i < PAGES && i - m < n && AllBlocked(u, m, n, i)
    ensures AllBlocked(u, m, n, i + 1) && (u[i] ==> AllBlocked(u, i + 1, n, i + 1))
  {
    var j := i + 1;
    forall t | 1 <= t < m
      ensures Blocked(u, t, n, j)
    {
      assert Blocked(u, t, n, i);
      var p :| 0 <= t <= p < t + n && p < i && u[p];
      assert u[p];
    }
  }

  lemma BlockedNotFree(u: Use, t: int, n: int, i: int)
    requires i <= PAGES && Blocked(u, t, n, i)
    ensures !FreeRun(u, t, n)
  {
  }

  lemma NoRunLeft(u: Use, m: int, n: int)
    requires 1 <= m && PAGES - m < n && AllBlocked(u, m, n, PAGES)
    ensures NoRun(u, n)
  {
    forall t: int
      ensures !FreeRun(u, t, n)
    {
      if 1 <= t < m {
        BlockedNotFree(u, t, n, PAGES);
      }
    }
  }

  lemma LowestRun(u: Use, s: int, n: int, i: int)
    requires i <= PAGES && FreeRun(u, s, n) && AllBlocked(u, s, n, i)
    ensures FirstFit(u, s, n)
  {
    forall t | 1 <= t < s
      ensures !FreeRun(u, t, n)
    {
      BlockedNotFree(u, t, n, i);
    }
  }

  lemma CountEmpty()
    ensures CountFree([]) == 0
  {
  }

  lemma FitIsRun(u: Use, s: int, n: int)
    requires FirstFit(u, s, n)
    ensures !NoRun(u, n)
  {
    assert FreeRun(u, s, n);
  }

  lemma FitBounds(u: Use, s: int, n: int)
    requires FirstFit(u, s, n)
    ensures 1 <= s && s + n <= PAGES
  {
  }

  /** Freeing what an allocation returned, with the same size, restores the bitmap. */
  lemma FreeUndoesAlloc(u: Use, addr: nat, size: nat)
    requires size < WRAP64 && PagesFor(size) > 0 && addr % PAGE == 0 && FirstFit(u, addr / PAGE, PagesFor(size))
    ensures Mark(Mark(u, addr / PAGE, PagesFor(size), true), ToInt(addr / PAGE), PagesFor(size), false) == u
  {
    FitBounds(u, addr / PAGE, PagesFor(size));
  }

  class PageMap {
    const bitmap: array<bv8>
    ghost var use: Use

    /** The bitmap shows which pages are in use. */
    ghost predicate Valid()
      reads this, bitmap
    {
      bitmap.Length == BYTES && forall p :: 0 <= p < PAGES ==> (Bit(bitmap[p / 8], p % 8) <==> use[p])
    }

    constructor ()
      ensures Valid() && fresh(bitmap)
      ensures Consistent(use, []) && Conserved(use, [])
    {
      bitmap := new bv8[BYTES](_ => 0);
      use := seq(PAGES, p => p == 0);
      new;
      bitmap[0] := Mask(0);
      assert forall k :: 0 <= k < 8 ==> (Bit(Mask(0), k) <==> k == 0);
      InitialOk(use);
    }

    method Test(page: nat) returns (r: bool)
      requires Valid() && page < PAGES
      ensures r == use[page]
    {
      return bitmap[page / 8] & Mask(page % 8) != 0;
    }

    method Set(page: nat)
      requires Valid() && page < PAGES
      modifies this, bitmap
      ensures Valid() && use == old(use)[page := true]
    {
      hide Bit, Mask, WithBit, WithoutBit;
      ghost var b := bitmap[page / 8];
      forall j | 0 <= j < 8
        ensures Bit(WithBit(b, page % 8), j) <==> j == page % 8 || Bit(b, j)
      {
        SetOneBit(b, page % 8, j);
      }
      bitmap[page / 8] := WithBit(bitmap[page / 8], page % 8);
      use := use[page := true];
    }

    method Clear(page: nat)
      requires Valid() && page < PAGES
      modifies this, bitmap
      ensures Valid() && use == old(use)[page := false]
    {
      hide Bit, Mask, WithBit, WithoutBit;
      ghost var b := bitmap[page / 8];
      forall j | 0 <= j < 8
        ensures Bit(WithoutBit(b, page % 8), j) <==> j != page % 8 && Bit(b, j)
      {
        ClearOneBit(b, page % 8, j);
      }
      bitmap[page / 8] := WithoutBit(bitmap[page / 8], page % 8);
      use := use[page := false];
    }

    method FreeBytes() returns (n: nat)
      requires Valid()
      ensures n == CountFree(use) * PAGE
    {
      hide Valid, CountFree;
      var pages := 0;
      CountEmpty();
      for i := 0 to PAGES
        invariant pages == CountFree(use[..i])
      {
        CountStep(use, i);
        var t := Test(i);
        if !t {
          pages := pages + 1;
        }
      }
      assert use[..PAGES] == use;
      return pages * PAGE;
    }

    /** The first of `n` consecutive free pages at or above page 1, -1 if there are none. */
    method FindRun(n: int) returns (start: int)
      requires Valid()
      ensures n <= 0 ==> start == -1
      ensures n > 0 && start == -1 ==> NoRun(use, n)
      ensures n > 0 && start != -1 ==> FirstFit(use, start, n)
    {
      hide Valid;
      var consecutive := 0;
      start := -1;
      var i := 1;
      while i < PAGES && consecutive < n
        invariant 1 <= i <= PAGES && 0 <= consecutive && (consecutive <= n || n <= 0 == consecutive)
        invariant start == if consecutive == 0 then -1 else i - consecutive
        invariant i - consecutive >= 1 && forall p :: i - consecutive <= p < i ==> !use[p]
        invariant AllBlocked(use, i - consecutive, n, i)
      {
        var t := Test(i);
        AllBlockedStep(use, i - consecutive, n, i);
        if !t {
          if consecutive == 0 {
            start := i;
          }
          consecutive := consecutive + 1;
        } else {
          consecutive := 0;
          start := -1;
        }
        i := i + 1;
      }
      if consecutive < n {
        NoRunLeft(use, i - consecutive, n);
        return -1;
      }
      if n > 0 {
        LowestRun(use, start, n, i);
      }
    }

    /** Allocate the lowest run of pages; 0 when there is none. */
    method AllocPhys(size: nat) returns (addr: nat)
      requires Valid() && size < WRAP64
      modifies this, bitmap
      ensures Valid()
      ensures PagesFor(size) <= 0 ==> addr == WRAP64 - PAGE && use == old(use)
      ensures PagesFor(size) > 0 ==> (addr == 0 <==> NoRun(old(use), PagesFor(size)))
      ensures PagesFor(size) > 0 && addr == 0 ==> use == old(use)
      ensures PagesFor(size) > 0 && addr != 0 ==>
        addr % PAGE == 0 && FirstFit(old(use), addr / PAGE, PagesFor(size)) &&
        use == Mark(old(use), addr / PAGE, PagesFor(size), true)
    {
      hide Valid, Mark, FirstFit, NoRun;
      var n := PagesFor(size);
      var start := FindRun(n);
      if n > 0 && start == -1 {
        return 0;
      }
      if n > 0 {
        FitBounds(use, start, n);
        FitIsRun(use, start, n);
        MarkAll(start, n);
      }
      return if start < 0 then WRAP64 - PAGE else start * PAGE;
    }

    method MarkAll(start: nat, n: nat)
      requires Valid() && start + n <= PAGES
      modifies this, bitmap
      ensures Valid() && use == Mark(old(use), start, n, true)
    {
      hide Valid;
      for i := 0 to n
        invariant Valid() && use == Mark(old(use), start, i, true)
      {
        Set(start + i);
        assert use == Mark(old(use), start, i + 1, true);
      }
    }

    /** Free the pages of an address range; pages outside memory are ignored. */
    method FreePhys(addr: nat, size: nat)
      requires Valid() && addr < WRAP64 && size < WRAP64
      modifies this, bitmap
      ensures Valid() && use == Mark(old(use), ToInt(addr / PAGE), PagesFor(size), false)
    {
      hide Valid;
      var start, n := ToInt(addr / PAGE), PagesFor(size);
      var i := 0;
      while i < n
        invariant 0 <= i && (i <= n || n < 0 == i)
        invariant Valid() && use == Mark(old(use), start, i, false)
      {
        var page := start + i;
        if 0 <= page < PAGES {
          Clear(page);
        }
        i := i + 1;
        assert use == Mark(old(use), start, i, false);
      }
      assert use == Mark(old(use), start, n, false);
    }
  }
}
