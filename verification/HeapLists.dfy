/** Block headers as they lie in memory, the free list threaded through them, and the sequence of
    blocks they stand for. */
module HeapLists {
  import opened Seqs
  import opened HeapSpec

  const NULL: int := -1
  const MAGIC: nat := 0x464C5558

  datatype Header = Header(magic: nat, used: bool, size: nat, next: int, prev: int)

  /** The headers that are intact in memory, by address. */
  type Headers = map<int, Header>

  /** Writing a header destroys every header it overlaps. */
  function Put(m: Headers, a: int, hd: Header, h: nat): Headers {
    (map k | k in m && (k + h <= a || a + h <= k) :: m[k])[a := hd]
  }

  function BlockOf(m: Headers, a: int): Blk
    requires a in m && a >= 0
  {
    Blk(a, m[a].size, m[a].used)
  }

  ghost predicate TilesIn(m: Headers, tiles: seq<int>) {
    forall i :: 0 <= i < |tiles| ==> tiles[i] >= 0 && tiles[i] in m && m[tiles[i]].magic == MAGIC
  }

  ghost function Blocks(m: Headers, tiles: seq<int>): (r: seq<Blk>)
    requires TilesIn(m, tiles)
    ensures |r| == |tiles|
    ensures forall i :: 0 <= i < |r| ==> r[i] == BlockOf(m, tiles[i])
  {
    seq(|tiles|, i requires 0 <= i < |tiles| => BlockOf(m, tiles[i]))
  }

  /** `tiles` lists the blocks of the heap in address order, and every valid header is one of them. */
  ghost predicate TilesOk(m: Headers, tiles: seq<int>, h: nat, n: nat) {
    h > 0 && TilesIn(m, tiles) && Tiled(Blocks(m, tiles), h, n) &&
    forall a :: a in m && m[a].magic == MAGIC ==> a in tiles
  }

  function LinkTo(frees: seq<int>, i: nat): int {
    if i < |frees| then frees[i] else NULL
  }

  function LinkBack(frees: seq<int>, i: nat): int
    requires i <= |frees|
  {
    if i == 0 then NULL else frees[i - 1]
  }

  ghost predicate Increasing(s: seq<int>) {
    forall i, j :: 0 <= i < j < |s| ==> s[i] < s[j]
  }

  /** Node `i` of the list is a free block linked to its neighbours. */
  ghost predicate NodeOk(m: Headers, tiles: seq<int>, frees: seq<int>, i: nat)
    requires i < |frees|
  {
    frees[i] >= 0 && frees[i] in tiles && frees[i] in m && !m[frees[i]].used && m[frees[i]].magic == MAGIC &&
    m[frees[i]].next == LinkTo(frees, i + 1) && m[frees[i]].prev == LinkBack(frees, i)
  }

  /** `frees` is the doubly linked list from `head`, in increasing address order. */
  ghost predicate ListOk(m: Headers, tiles: seq<int>, frees: seq<int>, head: int) {
    Increasing(frees) && head == LinkTo(frees, 0) &&
    forall i :: 0 <= i < |frees| ==> NodeOk(m, tiles, frees, i)
  }

  /** Every free block is on the list. */
  ghost predicate Complete(m: Headers, tiles: seq<int>, frees: seq<int>) {
    forall t :: t in tiles && t in m && !m[t].used ==> t in frees
  }

  /** Every free block but possibly `a` is on the list. */
  ghost predicate CompleteBut(m: Headers, tiles: seq<int>, frees: seq<int>, a: int) {
    forall t :: t in tiles && t in m && !m[t].used ==> t in frees || t == a
  }

  /** Equal block sequences over the same tiles have the same flags. */
  lemma FlagsOf(m: Headers, m': Headers, tiles: seq<int>)
    requires TilesIn(m, tiles) && TilesIn(m', tiles) && Blocks(m, tiles) == Blocks(m', tiles)
    ensures forall t :: t in tiles ==> m'[t].used == m[t].used && m'[t].size == m[t].size
  {
    forall t | t in tiles
      ensures m'[t].used == m[t].used && m'[t].size == m[t].size
    {
      var i :| 0 <= i < |tiles| && tiles[i] == t;
      assert Blocks(m, tiles)[i] == Blocks(m', tiles)[i];
    }
  }

  ghost predicate InHeader(tiles: seq<int>, x: int, h: nat) {
    exists t :: t in tiles && t <= x < t + h
  }

  lemma TileOrder(m: Headers, tiles: seq<int>, h: nat, n: nat, i: nat, j: nat)
    requires TilesOk(m, tiles, h, n) && i < j < |tiles|
    ensures tiles[i] + h + m[tiles[i]].size <= tiles[j]
  {
    Ordered(Blocks(m, tiles), h, n, i, j);
  }

  lemma TileWithin(m: Headers, tiles: seq<int>, h: nat, n: nat, t: int)
    requires TilesOk(m, tiles, h, n) && t in tiles
    ensures 0 <= t && t in m && t + h + m[t].size <= n
  {
    var i :| 0 <= i < |tiles| && tiles[i] == t;
    Within(Blocks(m, tiles), h, n, i);
  }

  lemma TilesApart(m: Headers, tiles: seq<int>, h: nat, n: nat, t: int, u: int)
    requires TilesOk(m, tiles, h, n) && t in tiles && u in tiles && t != u
    ensures t + h + m[t].size <= u || u + h + m[u].size <= t
  {
    var i :| 0 <= i < |tiles| && tiles[i] == t;
    var j :| 0 <= j < |tiles| && tiles[j] == u;
    if i < j {
      TileOrder(m, tiles, h, n, i, j);
    } else {
      TileOrder(m, tiles, h, n, j, i);
    }
  }

  lemma TilesIncreasing(m: Headers, tiles: seq<int>, h: nat, n: nat)
    requires TilesOk(m, tiles, h, n)
    ensures Increasing(tiles)
  {
    forall i, j | 0 <= i < j < |tiles|
      ensures tiles[i] < tiles[j]
    {
      TileOrder(m, tiles, h, n, i, j);
    }
  }

  /** Rewriting the header of a tile leaves the other tiles' headers intact. */
  lemma PutTile(m: Headers, tiles: seq<int>, h: nat, n: nat, a: int, hd: Header)
    requires TilesOk(m, tiles, h, n) && a in tiles
    ensures forall t :: t in tiles ==> t in Put(m, a, hd, h) && Put(m, a, hd, h)[t] == if t == a then hd else m[t]
    ensures forall k :: k in Put(m, a, hd, h) && k != a ==> k in m && Put(m, a, hd, h)[k] == m[k]
  {
    forall t | t in tiles
      ensures t in Put(m, a, hd, h)
    {
      if t != a {
        TilesApart(m, tiles, h, n, t, a);
      }
    }
  }

  /** Rewriting links and the in-use flag of a tile keeps the tiling. */
  lemma PutKeepsTiles(m: Headers, tiles: seq<int>, h: nat, n: nat, a: int, hd: Header)
    requires TilesOk(m, tiles, h, n) && a in tiles && hd.magic == MAGIC && hd.size == m[a].size
    ensures TilesOk(Put(m, a, hd, h), tiles, h, n)
    ensures hd.used == m[a].used ==> Blocks(Put(m, a, hd, h), tiles) == Blocks(m, tiles)
    ensures forall i :: 0 <= i < |tiles| && tiles[i] == a ==>
      Blocks(Put(m, a, hd, h), tiles) == Blocks(m, tiles)[i := Blocks(m, tiles)[i].(used := hd.used)]
  {
    PutTile(m, tiles, h, n, a, hd);
    TilesIncreasing(m, tiles, h, n);
    var bs, cs := Blocks(m, tiles), Blocks(Put(m, a, hd, h), tiles);
    forall i | 0 <= i < |tiles|
      ensures cs[i].addr == bs[i].addr && cs[i].size == bs[i].size
      ensures tiles[i] != a ==> cs[i] == bs[i]
      ensures tiles[i] == a ==> cs[i].used == hd.used
    {
      assert tiles[i] in tiles;
    }
    assert Chain(cs, h) by {
      forall i | 0 <= i < |cs| - 1
        ensures cs[i + 1].addr == End(cs[i], h)
      {
        assert bs[i + 1].addr == End(bs[i], h);
      }
    }
  }

  /** `best` is the smallest block of `s` with `size` bytes, the lowest on ties; NULL if none has. */
  ghost predicate BestOf(m: Headers, s: seq<int>, size: nat, best: int) {
    (forall a :: a in s ==> a in m && a >= 0) &&
    (best == NULL ==> forall a :: a in s ==> m[a].size < size) &&
    (best != NULL ==> best in s && m[best].size >= size && forall a :: a in s && m[a].size >= size ==>
      m[best].size < m[a].size || (m[best].size == m[a].size && best <= a))
  }

  lemma ListAt(m: Headers, tiles: seq<int>, frees: seq<int>, head: int, i: nat)
    requires ListOk(m, tiles, frees, head) && i < |frees|
    ensures NodeOk(m, tiles, frees, i)
    ensures frees[..i + 1] == frees[..i] + [frees[i]] && forall b :: b in frees[..i] ==> b < frees[i]
  {
  }

  lemma ListDistinct(m: Headers, tiles: seq<int>, frees: seq<int>, head: int)
    requires ListOk(m, tiles, frees, head)
    ensures forall i, j :: 0 <= i < j < |frees| ==> frees[i] != frees[j]
  {
  }

  lemma ListPositive(m: Headers, tiles: seq<int>, frees: seq<int>, head: int)
    requires ListOk(m, tiles, frees, head)
    ensures head == LinkTo(frees, 0)
    ensures forall i :: 0 <= i < |frees| ==> frees[i] >= 0
  {
    forall i | 0 <= i < |frees|
      ensures frees[i] >= 0
    {
      assert NodeOk(m, tiles, frees, i);
    }
  }

  lemma ListInTiles(m: Headers, tiles: seq<int>, frees: seq<int>, head: int)
    requires ListOk(m, tiles, frees, head)
    ensures forall t :: t in frees ==> t in tiles && t in m && !m[t].used
  {
    forall t | t in frees
      ensures t in tiles && t in m && !m[t].used
    {
      var j :| 0 <= j < |frees| && frees[j] == t;
      assert NodeOk(m, tiles, frees, j);
    }
  }

  /** The list does not depend on a header that is not on it. */
  lemma ListKept(m: Headers, m': Headers, tiles: seq<int>, frees: seq<int>, head: int, a: int)
    requires ListOk(m, tiles, frees, head) && a !in frees
    requires forall t :: t in tiles && t != a ==> t in m && t in m' && m'[t] == m[t]
    ensures ListOk(m', tiles, frees, head)
  {
    forall i | 0 <= i < |frees|
      ensures NodeOk(m', tiles, frees, i)
    {
      assert NodeOk(m, tiles, frees, i);
    }
  }

  /** The list stays a list when blocks that are not on it come or go. */
  lemma ListMore(m: Headers, tiles: seq<int>, tiles': seq<int>, frees: seq<int>, head: int)
    requires ListOk(m, tiles, frees, head) && forall t :: t in frees ==> t in tiles'
    ensures ListOk(m, tiles', frees, head)
  {
    forall i | 0 <= i < |frees|
      ensures NodeOk(m, tiles', frees, i)
    {
      assert NodeOk(m, tiles, frees, i);
    }
  }

  lemma LaterHigher(m: Headers, tiles: seq<int>, frees: seq<int>, head: int, i: nat, a: int)
    requires ListOk(m, tiles, frees, head) && i <= |frees| && a !in frees
    requires i < |frees| ==> frees[i] >= a
    ensures forall k :: i <= k < |frees| ==> a < frees[k]
  {
    if i < |frees| {
      assert frees[i] in frees;
    }
  }

  /** How looking at one more block, at a higher address, updates the best one. */
  lemma BestStep(m: Headers, s: seq<int>, size: nat, best: int, a: int)
    requires BestOf(m, s, size, best) && a in m && a >= 0 && forall b :: b in s ==> b < a
    ensures best != NULL ==> best in m
    ensures BestOf(m, s + [a], size,
                   if m[a].size >= size && (best == NULL || m[a].size < m[best].size) then a else best)
  {
  }

  lemma ListStart(m: Headers, tiles: seq<int>, frees: seq<int>, head: int, size: nat)
    requires ListOk(m, tiles, frees, head)
    ensures BestOf(m, frees[..0], size, NULL)
  {
  }

  function WithAt(s: seq<int>, i: nat, a: int): (r: seq<int>)
    requires i <= |s|
    ensures |r| == |s| + 1 && r[i] == a
    ensures forall k :: 0 <= k < |r| && k != i ==> r[k] == s[if k < i then k else k - 1]
  {
    s[..i] + [a] + s[i..]
  }

  /** The header `t` is as before but for its links. */
  ghost predicate Relinked(m: Headers, m': Headers, t: int, next: int, prev: int) {
    t in m && t in m' && m'[t] == m[t].(next := next, prev := prev)
  }

  /** Node `j` as it is after node `i` was bypassed. */
  ghost predicate Bypassed(m: Headers, m': Headers, frees: seq<int>, i: nat, j: nat)
    requires i < |frees| && j < |frees|
  {
    Relinked(m, m', frees[j], LinkTo(frees, if j + 1 == i then i + 1 else j + 1),
             LinkBack(frees, if j == i + 1 then i else j))
  }

  /** Node `j` as it is after `a` was linked in before node `i`. */
  ghost predicate MadeRoom(m: Headers, m': Headers, frees: seq<int>, i: nat, a: int, j: nat)
    requires i <= |frees| && j < |frees|
  {
    Relinked(m, m', frees[j], if j + 1 == i then a else LinkTo(frees, j + 1),
             if j == i then a else LinkBack(frees, j))
  }

  lemma WithoutMembers(s: seq<int>, i: nat)
    requires Increasing(s) && i < |s|
    ensures Increasing(Without(s, i))
    ensures forall t :: t in Without(s, i) <==> t in s && t != s[i]
  {
    var r := Without(s, i);
    forall t | t in s && t != s[i]
      ensures t in r
    {
      var j :| 0 <= j < |s| && s[j] == t;
      assert r[if j < i then j else j - 1] == t;
    }
  }

  lemma WithMembers(s: seq<int>, i: nat, a: int)
    requires Increasing(s) && i <= |s|
    requires forall k :: 0 <= k < i ==> s[k] < a
    requires forall k :: i <= k < |s| ==> a < s[k]
    ensures Increasing(WithAt(s, i, a))
    ensures forall t :: t in WithAt(s, i, a) <==> t in s || t == a
  {
    var r := WithAt(s, i, a);
    forall t | t in s
      ensures t in r
    {
      var j :| 0 <= j < |s| && s[j] == t;
      assert r[if j < i then j else j + 1] == t;
    }
  }

  /** Bypassing node `i` in both directions takes it off the list. */
  lemma Unlink(m: Headers, m': Headers, tiles: seq<int>, frees: seq<int>, head: int, i: nat, head': int)
    requires ListOk(m, tiles, frees, head) && i < |frees|
    requires forall j :: 0 <= j < |frees| && j != i ==> Bypassed(m, m', frees, i, j)
    requires head' == if i == 0 then LinkTo(frees, 1) else head
    ensures ListOk(m', tiles, Without(frees, i), head')
    ensures forall t :: t in Without(frees, i) <==> t in frees && t != frees[i]
  {
    hide Increasing;
    var r := Without(frees, i);
    forall k | 0 <= k < |r|
      ensures NodeOk(m', tiles, r, k)
    {
      var j := if k < i then k else k + 1;
      assert NodeOk(m, tiles, frees, j) && Bypassed(m, m', frees, i, j);
    }
    WithoutMembers(frees, i);
  }

  /** A node linked in between its neighbours by address is on the list. */
  lemma LinkIn(m: Headers, m': Headers, tiles: seq<int>, frees: seq<int>, head: int, i: nat, a: int, head': int)
    requires ListOk(m, tiles, frees, head) && i <= |frees|
    requires a >= 0 && a in tiles && a in m' && !m'[a].used && m'[a].magic == MAGIC
    requires m'[a].next == LinkTo(frees, i) && m'[a].prev == LinkBack(frees, i)
    requires forall k :: 0 <= k < i ==> frees[k] < a
    requires forall k :: i <= k < |frees| ==> a < frees[k]
    requires forall j :: 0 <= j < |frees| ==> MadeRoom(m, m', frees, i, a, j)
    requires head' == if i == 0 then a else head
    ensures ListOk(m', tiles, WithAt(frees, i, a), head')
    ensures forall t :: t in WithAt(frees, i, a) <==> t in frees || t == a
  {
    hide Increasing;
    var r := WithAt(frees, i, a);
    forall k | 0 <= k < |r|
      ensures NodeOk(m', tiles, r, k)
    {
      if k != i {
        var j := if k < i then k else k - 1;
        assert NodeOk(m, tiles, frees, j) && MadeRoom(m, m', frees, i, a, j);
      }
    }
    WithMembers(frees, i, a);
  }

  // ---- Cutting and joining blocks ----

  /** Two headers written to cut tile `i` in two. */
  function CutHeaders(m: Headers, a: int, need: nat, h: nat): Headers
    requires a in m && m[a].size >= need + h
  {
    var cut := Put(m, a + h + need, Header(MAGIC, false, m[a].size - need - h, NULL, NULL), h);
    Put(cut, a, m[a].(size := need), h)
  }

  /** `m'` is `m` after tile `i` was cut to `need` bytes and its rest became the block `b`. */
  ghost predicate IsCut(m: Headers, m': Headers, tiles: seq<int>, h: nat, i: nat, need: nat, b: int)
    requires i < |tiles| && tiles[i] in m
  {
    var a := tiles[i];
    b == a + h + need && b !in tiles && m[a].size >= need + h && !m[a].used &&
    (forall t :: t in tiles && t != a ==> t in m && t in m' && m'[t] == m[t]) &&
    a in m' && m'[a] == m[a].(size := need) &&
    b in m' && m'[b] == Header(MAGIC, false, m[a].size - need - h, NULL, NULL) &&
    forall k :: k in m' && k != a && k != b ==> k in m && m'[k] == m[k]
  }

  lemma CutOthers(m: Headers, tiles: seq<int>, h: nat, n: nat, i: nat, need: nat)
    requires TilesOk(m, tiles, h, n) && i < |tiles| && m[tiles[i]].size >= need + h && !m[tiles[i]].used
    ensures IsCut(m, CutHeaders(m, tiles[i], need, h), tiles, h, i, need, tiles[i] + h + need)
    ensures tiles[i] + h + need + h <= n
  {
    var a := tiles[i];
    assert a in tiles;
    TileWithin(m, tiles, h, n, a);
    forall t | t in tiles && t != a
      ensures t + h <= a || a + h + m[a].size <= t
    {
      TilesApart(m, tiles, h, n, t, a);
    }
  }

  /** The block at index `k` after the cut. */
  lemma CutAt(m: Headers, m': Headers, tiles: seq<int>, h: nat, i: nat, need: nat, b: int, k: nat)
    requires TilesIn(m, tiles) && Increasing(tiles) && i < |tiles| && IsCut(m, m', tiles, h, i, need, b)
    requires k <= |tiles|
    ensures var t := WithAt(tiles, i + 1, b)[k];
            t >= 0 && t in m' && m'[t].magic == MAGIC &&
            (k < i ==> t == tiles[k] && m'[t] == m[t]) &&
            (k == i ==> t == tiles[i] && m'[t] == m[t].(size := need)) &&
            (k == i + 1 ==> t == b == tiles[i] + h + need && m'[t] == Header(MAGIC, false, m[tiles[i]].size - need - h, NULL, NULL)) &&
            (k > i + 1 ==> t == tiles[k - 1] && m'[t] == m[t])
  {
    if k != i + 1 {
      var j := if k <= i then k else k - 1;
      assert tiles[j] in tiles;
      assert j != i ==> tiles[j] != tiles[i];
    }
  }

  lemma CutBlocks(m: Headers, m': Headers, tiles: seq<int>, h: nat, i: nat, need: nat, b: int)
    requires TilesIn(m, tiles) && Increasing(tiles) && i < |tiles| && IsCut(m, m', tiles, h, i, need, b)
    requires m[tiles[i]].size >= need + h + ALIGN
    ensures TilesIn(m', WithAt(tiles, i + 1, b))
    ensures Blocks(m', WithAt(tiles, i + 1, b)) == Split(Blocks(m, tiles), i, need, h)
  {
    hide IsCut, Increasing;
    var tiles' := WithAt(tiles, i + 1, b);
    forall k | 0 <= k < |tiles'|
      ensures tiles'[k] >= 0 && tiles'[k] in m' && m'[tiles'[k]].magic == MAGIC
      ensures BlockOf(m', tiles'[k]) == Split(Blocks(m, tiles), i, need, h)[k]
    {
      CutAt(m, m', tiles, h, i, need, b, k);
    }
  }

  lemma CutChain(m: Headers, m': Headers, tiles: seq<int>, h: nat, n: nat, i: nat, need: nat, b: int)
    requires TilesOk(m, tiles, h, n) && i < |tiles| && IsCut(m, m', tiles, h, i, need, b)
    requires m[tiles[i]].size >= need + h + ALIGN
    ensures TilesOk(m', WithAt(tiles, i + 1, b), h, n)
    ensures Blocks(m', WithAt(tiles, i + 1, b)) == Split(Blocks(m, tiles), i, need, h)
  {
    var tiles' := WithAt(tiles, i + 1, b);
    TilesIncreasing(m, tiles, h, n);
    CutBlocks(m, m', tiles, h, i, need, b);
    SplitTiled(Blocks(m, tiles), i, need, h, n);
    CutMembers(tiles, i + 1, b);
    CutOnly(m, m', tiles, h, i, need, b);
  }

  lemma CutOnly(m: Headers, m': Headers, tiles: seq<int>, h: nat, i: nat, need: nat, b: int)
    requires i < |tiles| && tiles[i] in m && IsCut(m, m', tiles, h, i, need, b)
    requires forall a :: a in m && m[a].magic == MAGIC ==> a in tiles
    ensures forall a :: a in m' && m'[a].magic == MAGIC ==> a in tiles || a == b
  {
    assert tiles[i] in tiles;
  }

  lemma CutMembers(s: seq<int>, i: nat, a: int)
    requires i <= |s|
    ensures forall t :: t in WithAt(s, i, a) <==> t in s || t == a
  {
    var r := WithAt(s, i, a);
    forall t | t in s
      ensures t in r
    {
      var j :| 0 <= j < |s| && s[j] == t;
      assert r[if j < i then j else j + 1] == t;
    }
  }

  /** Two headers written to join tile `a` with the tile `b` right after it. */
  function JoinHeaders(m: Headers, a: int, b: int, h: nat): Headers
    requires a in m && b in m
  {
    var grown := Put(m, a, m[a].(size := m[a].size + h + m[b].size), h);
    Put(grown, b, m[b].(magic := 0), h)
  }

  /** `m'` is `m` after tile `i` swallowed tile `i + 1`. */
  ghost predicate IsJoin(m: Headers, m': Headers, tiles: seq<int>, h: nat, i: nat)
    requires i + 1 < |tiles| && tiles[i] in m && tiles[i + 1] in m
  {
    var a, b := tiles[i], tiles[i + 1];
    (forall t :: t in tiles && t != a && t != b ==> t in m && t in m' && m'[t] == m[t]) &&
    a in m' && m'[a] == m[a].(size := m[a].size + h + m[b].size) &&
    b in m' && m'[b] == m[b].(magic := 0) &&
    forall k :: k in m' && k != a && k != b ==> k in m && m'[k] == m[k]
  }

  lemma JoinOthers(m: Headers, tiles: seq<int>, h: nat, n: nat, i: nat)
    requires TilesOk(m, tiles, h, n) && i + 1 < |tiles|
    ensures IsJoin(m, JoinHeaders(m, tiles[i], tiles[i + 1], h), tiles, h, i)
  {
    var a, b := tiles[i], tiles[i + 1];
    assert a in tiles && b in tiles;
    TileOrder(m, tiles, h, n, i, i + 1);
    forall t | t in tiles
      ensures (t == a || t + h <= a || a + h <= t) && (t == b || t + h <= b || b + h <= t)
    {
      if t != a {
        TilesApart(m, tiles, h, n, t, a);
      }
      if t != b {
        TilesApart(m, tiles, h, n, t, b);
      }
    }
  }

  /** The block at index `k` after the join. */
  lemma JoinAt(m: Headers, m': Headers, tiles: seq<int>, h: nat, i: nat, k: nat)
    requires TilesIn(m, tiles) && Increasing(tiles) && i + 1 < |tiles| && IsJoin(m, m', tiles, h, i)
    requires k < |tiles| - 1
    ensures var t := Without(tiles, i + 1)[k];
            t >= 0 && t in m' && m'[t].magic == MAGIC &&
            (k < i ==> t == tiles[k] && m'[t] == m[t]) &&
            (k == i ==> t == tiles[i] && m'[t] == m[t].(size := m[t].size + h + m[tiles[i + 1]].size)) &&
            (k > i ==> t == tiles[k + 1] && m'[t] == m[t])
  {
    var j := if k <= i then k else k + 1;
    assert tiles[j] in tiles;
    assert j != i ==> tiles[j] != tiles[i];
    assert tiles[j] != tiles[i + 1];
  }

  lemma JoinBlocks(m: Headers, m': Headers, tiles: seq<int>, h: nat, i: nat)
    requires TilesIn(m, tiles) && Increasing(tiles) && i + 1 < |tiles| && IsJoin(m, m', tiles, h, i)
    ensures TilesIn(m', Without(tiles, i + 1))
    ensures Blocks(m', Without(tiles, i + 1)) == MergeAt(Blocks(m, tiles), i, h)
  {
    hide IsJoin, Increasing;
    var tiles' := Without(tiles, i + 1);
    forall k | 0 <= k < |tiles'|
      ensures tiles'[k] >= 0 && tiles'[k] in m' && m'[tiles'[k]].magic == MAGIC
      ensures BlockOf(m', tiles'[k]) == MergeAt(Blocks(m, tiles), i, h)[k]
    {
      JoinAt(m, m', tiles, h, i, k);
    }
  }

  lemma JoinChain(m: Headers, m': Headers, tiles: seq<int>, h: nat, n: nat, i: nat)
    requires TilesOk(m, tiles, h, n) && i + 1 < |tiles| && IsJoin(m, m', tiles, h, i)
    ensures TilesOk(m', Without(tiles, i + 1), h, n)
    ensures Blocks(m', Without(tiles, i + 1)) == MergeAt(Blocks(m, tiles), i, h)
  {
    TilesIncreasing(m, tiles, h, n);
    JoinBlocks(m, m', tiles, h, i);
    MergeTiled(Blocks(m, tiles), i, h, n);
    WithoutMembers(tiles, i + 1);
    JoinOnly(m, m', tiles, h, i);
  }

  lemma JoinOnly(m: Headers, m': Headers, tiles: seq<int>, h: nat, i: nat)
    requires i + 1 < |tiles| && tiles[i] in m && tiles[i + 1] in m && IsJoin(m, m', tiles, h, i)
    requires forall a :: a in m && m[a].magic == MAGIC ==> a in tiles
    ensures forall a :: a in m' && m'[a].magic == MAGIC ==> a in tiles && a != tiles[i + 1]
  {
    assert tiles[i] in tiles && tiles[i + 1] in tiles;
  }

  /** After a cut the new block is the only further free block off the list. */
  lemma CutComplete(m: Headers, m': Headers, tiles: seq<int>, frees: seq<int>, head: int, h: nat, i: nat, need: nat, b: int)
    requires i < |tiles| && tiles[i] in m && IsCut(m, m', tiles, h, i, need, b)
    requires CompleteBut(m, tiles, frees, tiles[i]) && ListOk(m, tiles, frees, head) && tiles[i] !in frees
    ensures b !in frees && b in m' && !m'[b].used
    ensures ListOk(m', WithAt(tiles, i + 1, b), frees, head)
    ensures forall t :: t in WithAt(tiles, i + 1, b) && t in m' && !m'[t].used ==> t in frees || t == tiles[i] || t == b
  {
    CutMembers(tiles, i + 1, b);
    ListInTiles(m, tiles, frees, head);
    ListKept(m, m', tiles, frees, head, tiles[i]);
    ListMore(m', tiles, WithAt(tiles, i + 1, b), frees, head);
  }

  /** After a join the list is still a list and holds every free block. */
  lemma JoinComplete(was: Headers, m: Headers, m': Headers, tiles: seq<int>, all: seq<int>, frees: seq<int>,
                     head: int, h: nat, i: nat)
    requires i + 1 < |tiles| && tiles[i] in m && tiles[i + 1] in m && IsJoin(m, m', tiles, h, i)
    requires TilesIn(was, tiles) && TilesIn(m, tiles) && Increasing(tiles)
    requires Complete(was, tiles, all) && ListOk(m, tiles, frees, head)
    requires forall t :: t in tiles ==> t in was && m[t].used == was[t].used
    requires forall t :: t in frees <==> t in all && t != tiles[i + 1]
    ensures ListOk(m', Without(tiles, i + 1), frees, head)
    ensures Complete(m', Without(tiles, i + 1), frees)
  {
    WithoutMembers(tiles, i + 1);
    assert tiles[i] in tiles && tiles[i] != tiles[i + 1];
    ListInTiles(m, tiles, frees, head);
    ListResized(m, m', tiles, frees, head);
    ListMore(m', tiles, Without(tiles, i + 1), frees, head);
    forall t | t in Without(tiles, i + 1) && t in m' && !m'[t].used
      ensures t in frees
    {
      assert t in was && !was[t].used;
    }
  }

  /** The list does not depend on the sizes in the headers. */
  lemma ListResized(m: Headers, m': Headers, tiles: seq<int>, frees: seq<int>, head: int)
    requires ListOk(m, tiles, frees, head)
    requires forall t :: t in frees ==> t in m && t in m' && m'[t] == m[t].(size := m'[t].size)
    ensures ListOk(m', tiles, frees, head)
  {
    forall k | 0 <= k < |frees|
      ensures NodeOk(m', tiles, frees, k)
    {
      assert NodeOk(m, tiles, frees, k) && frees[k] in frees;
    }
  }

  /** Free block `k` of the list ends where the next one starts. */
  ghost predicate Adjacent(m: Headers, frees: seq<int>, k: nat, h: nat) {
    k + 1 < |frees| && frees[k] in m && frees[k + 1] == frees[k] + h + m[frees[k]].size
  }

  lemma {:induction false} NextAfter(m: Headers, tiles: seq<int>, h: nat, n: nat, i: nat, u: int)
    requires TilesOk(m, tiles, h, n) && i < |tiles| && u in tiles && tiles[i] < u
    ensures i + 1 < |tiles| && tiles[i + 1] == tiles[i] + h + m[tiles[i]].size && tiles[i + 1] <= u
  {
    var j :| 0 <= j < |tiles| && tiles[j] == u;
    if j <= i {
      if j < i {
        TileOrder(m, tiles, h, n, j, i);
      }
    } else {
      var bs := Blocks(m, tiles);
      assert bs[i + 1].addr == End(bs[i], h);
      if i + 1 < j {
        TileOrder(m, tiles, h, n, i + 1, j);
      }
    }
  }

  lemma AdjacentTiles(m: Headers, tiles: seq<int>, frees: seq<int>, head: int, h: nat, n: nat, j: nat) returns (i: nat)
    requires TilesOk(m, tiles, h, n) && ListOk(m, tiles, frees, head) && Adjacent(m, frees, j, h)
    ensures i + 1 < |tiles| && tiles[i] == frees[j] && tiles[i + 1] == frees[j + 1]
    ensures !m[tiles[i]].used && !m[tiles[i + 1]].used
  {
    ListAt(m, tiles, frees, head, j);
    ListAt(m, tiles, frees, head, j + 1);
    i :| 0 <= i < |tiles| && tiles[i] == frees[j];
    NextAfter(m, tiles, h, n, i, frees[j + 1]);
  }

  /** If no two list neighbours touch, no two free blocks do. */
  lemma NoneAdjacent(m: Headers, tiles: seq<int>, frees: seq<int>, head: int, h: nat, n: nat)
    requires TilesOk(m, tiles, h, n) && ListOk(m, tiles, frees, head) && Complete(m, tiles, frees)
    requires forall k :: 0 <= k < |frees| ==> !Adjacent(m, frees, k, h)
    ensures NoAdjacentFree(Blocks(m, tiles))
  {
    var bs := Blocks(m, tiles);
    forall i | 0 <= i < |bs| - 1
      ensures bs[i].used || bs[i + 1].used
    {
      if !bs[i].used && !bs[i + 1].used {
        TouchingFree(m, tiles, frees, head, h, n, i);
      }
    }
  }

  lemma TouchingFree(m: Headers, tiles: seq<int>, frees: seq<int>, head: int, h: nat, n: nat, i: nat)
    requires TilesOk(m, tiles, h, n) && ListOk(m, tiles, frees, head) && Complete(m, tiles, frees)
    requires i + 1 < |tiles| && !m[tiles[i]].used && !m[tiles[i + 1]].used
    ensures exists k :: 0 <= k < |frees| && Adjacent(m, frees, k, h)
  {
    assert tiles[i] in tiles && tiles[i + 1] in tiles;
    var k :| 0 <= k < |frees| && frees[k] == tiles[i];
    var l :| 0 <= l < |frees| && frees[l] == tiles[i + 1];
    TileOrder(m, tiles, h, n, i, i + 1);
    assert k < l;
    ListAt(m, tiles, frees, head, k + 1);
    NextAfter(m, tiles, h, n, i, frees[k + 1]);
    NextAfter(m, tiles, h, n, i, tiles[i + 1]);
    assert Adjacent(m, frees, k, h);
  }

  lemma TakenComplete(m: Headers, m': Headers, tiles: seq<int>, all: seq<int>, frees: seq<int>, a: int)
    requires Complete(m, tiles, all) && forall t :: t in frees <==> t in all && t != a
    requires forall t :: t in tiles ==> t in m && t in m' && m'[t].used == m[t].used
    ensures CompleteBut(m', tiles, frees, a)
  {
  }

  lemma UsedComplete(m: Headers, m': Headers, tiles: seq<int>, frees: seq<int>, a: int)
    requires CompleteBut(m, tiles, frees, a) && a in m' && m'[a].used
    requires forall t :: t in tiles && t != a ==> t in m && t in m' && m'[t] == m[t]
    ensures Complete(m', tiles, frees)
  {
  }

  /** The best block on a complete list is the best fit among all blocks. */
  lemma BestIsBestFit(m: Headers, tiles: seq<int>, frees: seq<int>, head: int, h: nat, n: nat, need: nat, best: int)
    requires TilesOk(m, tiles, h, n) && ListOk(m, tiles, frees, head) && Complete(m, tiles, frees)
    requires BestOf(m, frees, need, best)
    ensures best == NULL ==> forall i: nat :: !BestFit(Blocks(m, tiles), need, i)
    ensures best != NULL ==> best in m && m[best].size >= need && best in frees &&
                             exists i: nat :: BestFit(Blocks(m, tiles), need, i) && tiles[i] == best
  {
    var bs := Blocks(m, tiles);
    ListInTiles(m, tiles, frees, head);
    forall j | 0 <= j < |bs| && Fits(bs[j], need)
      ensures tiles[j] in frees && m[tiles[j]].size >= need
    {
      assert tiles[j] in tiles;
    }
    if best != NULL {
      var i :| 0 <= i < |tiles| && tiles[i] == best;
      TilesIncreasing(m, tiles, h, n);
      assert BestFit(bs, need, i);
    }
  }

  /** No live payload byte lies in a header. */
  lemma LiveNotHeader(m: Headers, tiles: seq<int>, h: nat, n: nat, x: int)
    requires TilesOk(m, tiles, h, n) && Live(Blocks(m, tiles), x, h)
    ensures !InHeader(tiles, x, h) && 0 <= x < n
  {
    var bs := Blocks(m, tiles);
    var i :| 0 <= i < |bs| && InPayload(bs[i], x, h) && bs[i].used;
    forall t | t in tiles
      ensures !(t <= x < t + h)
    {
      var j :| 0 <= j < |tiles| && tiles[j] == t;
      PayloadsDisjoint(bs, h, n, i, j, x);
    }
    PayloadsDisjoint(bs, h, n, i, i, x);
  }

  /** A header that is not that of a block in use stands for no block in use. */
  lemma NotInUse(m: Headers, tiles: seq<int>, h: nat, n: nat, a: int)
    requires TilesOk(m, tiles, h, n) && a in m && a >= 0 && (m[a].magic != MAGIC || !m[a].used)
    ensures forall i: nat :: !InUse(Blocks(m, tiles), a, i)
  {
  }

  lemma NotOnList(m: Headers, tiles: seq<int>, frees: seq<int>, head: int, a: int)
    requires ListOk(m, tiles, frees, head) && a in m && m[a].used
    ensures a !in frees
  {
    ListInTiles(m, tiles, frees, head);
  }

  lemma FreedComplete(m: Headers, m': Headers, tiles: seq<int>, all: seq<int>, frees: seq<int>, a: int)
    requires Complete(m, tiles, all) && forall t :: t in frees <==> t in all || t == a
    requires forall t :: t in tiles && t != a ==> t in m && t in m' && m'[t].used == m[t].used
    ensures Complete(m', tiles, frees)
  {
  }

  lemma BlockHeader(m: Headers, tiles: seq<int>, i: nat)
    requires TilesIn(m, tiles) && i < |tiles|
    ensures tiles[i] in m && Blocks(m, tiles)[i] == BlockOf(m, tiles[i])
  {
  }
}
