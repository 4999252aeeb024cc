/** The two passes together: dead-code elimination keeps strict SSA form and opens no folding
    opportunity, so a second round of optimisation has nothing to do. */
module FirOptimize {
  import opened Seqs
  import opened Wrappers
  import opened FirSyntax
  import opened FirSemantics
  import opened FirSsa
  import opened FirEquiv
  import opened FirDeadCode
  import opened FirFold
  import opened FirFoldLoop

  /** Every effect-free value that is left is used. */
  ghost predicate NoDeadCode(f: Func) {
    forall b: nat, j: nat :: IsPos(f, b, j) && Removable(At(f, b, j)) ==> Used(f, At(f, b, j).id)
  }

  /** No folding rule applies anywhere. */
  ghost predicate Settled(f: Func) {
    Saturated(f) && !HasCopy(f)
  }

  /** Index in `f` of the value at `(d, k)` after the value at `(b, j)` was removed. */
  function OldIndex(b: nat, j: nat, d: nat, k: nat): nat {
    if d == b && k >= j then k + 1 else k
  }

  function NewIndex(b: nat, j: nat, d: nat, k: nat): nat {
    if d == b && k > j then k - 1 else k
  }

  lemma RemovedAt(f: Func, b: nat, j: nat)
    requires IsPos(f, b, j)
    ensures forall d: nat, k: nat :: IsPos(RemoveAt(f, b, j), d, k) ==>
      IsPos(f, d, OldIndex(b, j, d, k)) && At(RemoveAt(f, b, j), d, k) == At(f, d, OldIndex(b, j, d, k))
    ensures forall d: nat, k: nat :: IsPos(f, d, k) && (d != b || k != j) ==>
      IsPos(RemoveAt(f, b, j), d, NewIndex(b, j, d, k)) &&
      At(RemoveAt(f, b, j), d, NewIndex(b, j, d, k)) == At(f, d, k)
  {
    var g := RemoveAt(f, b, j);
    assert g.blocks[b].values == Without(f.blocks[b].values, j);
  }

  lemma RemovedEdges(f: Func, b: nat, j: nat, p: nat, s: nat)
    requires IsPos(f, b, j) && Removable(At(f, b, j))
    ensures Edge(RemoveAt(f, b, j), p, s) == Edge(f, p, s)
  {
    var g := RemoveAt(f, b, j);
    RemovedAt(f, b, j);
    forall id: int {
      FindBlockSame(f, g, id);
    }
    if Edge(f, p, s) {
      var k: nat, t: int :| IsPos(f, p, k) && t in Targets(At(f, p, k)) && FindBlock(f, t) == s;
      assert IsTerminator(At(f, p, k).op);
      assert t in Targets(At(g, p, NewIndex(b, j, p, k)));
    }
    if Edge(g, p, s) {
      var k: nat, t: int :| IsPos(g, p, k) && t in Targets(At(g, p, k)) && FindBlock(g, t) == s;
      assert t in Targets(At(f, p, OldIndex(b, j, p, k)));
    }
  }

  lemma RemovedAvailable(f: Func, c: Cert, b: nat, j: nat, o: nat, d: nat, k: nat)
    requires IsPos(f, b, j) && o != At(f, b, j).id && Available(f, c, o, d, OldIndex(b, j, d, k))
    ensures Available(RemoveAt(f, b, j), c, o, d, k)
  {
    RemovedAt(f, b, j);
    var d': nat, k': nat :| Reaches(f, c, d', k', d, OldIndex(b, j, d, k)) && At(f, d', k').id == o;
    assert Reaches(RemoveAt(f, b, j), c, d', NewIndex(b, j, d', k'), d, k);
  }

  lemma RemovedUnique(f: Func, b: nat, j: nat)
    requires UniqueIds(f) && IsPos(f, b, j)
    ensures UniqueIds(RemoveAt(f, b, j))
  {
    var g := RemoveAt(f, b, j);
    RemovedAt(f, b, j);
    forall d: nat, k: nat, d': nat, k': nat |
      IsPos(g, d, k) && IsPos(g, d', k') && At(g, d, k).id == At(g, d', k').id
      ensures d == d' && k == k'
    {
      assert At(f, d, OldIndex(b, j, d, k)).id == At(f, d', OldIndex(b, j, d', k')).id;
    }
  }

  /** Dead-code elimination keeps strict SSA form, under the same certificate. */
  lemma RemovalKeepsStrict(f: Func, c: Cert, b: nat, j: nat)
    requires StrictSsa(f, c) && IsPos(f, b, j)
    requires Removable(At(f, b, j)) && !Used(f, At(f, b, j).id)
    ensures StrictSsa(RemoveAt(f, b, j), c)
  {
    hide UniqueIds;
    var g, x := RemoveAt(f, b, j), At(f, b, j).id;
    RemovedAt(f, b, j);
    RemovedUnique(f, b, j);
    forall p: nat, s: nat
      ensures Edge(g, p, s) == Edge(f, p, s)
    {
      RemovedEdges(f, b, j, p, s);
    }
    forall d: nat, k: nat | d in c.live && IsPos(g, d, k) && IsTerminator(At(g, d, k).op)
      ensures k == |g.blocks[d].values| - 1
    {
      assert IsTerminator(At(f, d, OldIndex(b, j, d, k)).op);
    }
    forall d: nat, k: nat, o: nat | d in c.live && IsPos(g, d, k) && o in ReadOps(At(g, d, k))
      ensures Available(g, c, o, d, k)
    {
      var i := OldIndex(b, j, d, k);
      assert Mentions(At(f, d, i), o);
      RemovedAvailable(f, c, b, j, o, d, k);
    }
    forall p: nat, d: nat, k: nat | p in c.live && Edge(g, p, d) && IsPos(g, d, k) && At(g, d, k).op.Phi?
      ensures var phi := At(g, d, k).phi;
              var e := PhiEdge(phi, Some(g.blocks[p].id), 0);
              e < |phi| ==> Available(g, c, phi[e].src, p, |g.blocks[p].values|)
    {
      assert Edge(f, p, d);
      var phi := At(f, d, OldIndex(b, j, d, k)).phi;
      var e := PhiEdge(phi, Some(f.blocks[p].id), 0);
      if e < |phi| {
        assert Mentions(At(f, d, OldIndex(b, j, d, k)), phi[e].src);
        var end := |g.blocks[p].values|;
        assert OldIndex(b, j, p, end) == |f.blocks[p].values|;
        RemovedAvailable(f, c, b, j, phi[e].src, p, end);
      }
    }
  }

  lemma ConstBefore(f: Func, b: nat, j: nat, d: nat, k: nat, o: nat)
    requires IsPos(f, b, j) && IsConstAt(RemoveAt(f, b, j), d, k, o)
    ensures IsConstAt(f, d, OldIndex(b, j, d, k), o)
    ensures At(f, d, OldIndex(b, j, d, k)).datum == At(RemoveAt(f, b, j), d, k).datum
  {
    RemovedAt(f, b, j);
  }

  lemma ConstAfter(f: Func, b: nat, j: nat, d: nat, k: nat, o: nat)
    requires IsPos(f, b, j) && o != At(f, b, j).id && IsConstAt(f, d, k, o)
    ensures IsConstAt(RemoveAt(f, b, j), d, NewIndex(b, j, d, k), o)
  {
    RemovedAt(f, b, j);
  }

  lemma RemovedConst(f: Func, b: nat, j: nat, o: nat)
    requires UniqueIds(f) && IsPos(f, b, j) && o != At(f, b, j).id
    ensures ConstOf(RemoveAt(f, b, j), o) == ConstOf(f, o)
  {
    var g := RemoveAt(f, b, j);
    if ConstOf(f, o).Some? {
      var d: nat, k: nat :| IsConstAt(f, d, k, o) && At(f, d, k).datum == ConstOf(f, o).value;
      ConstAfter(f, b, j, d, k, o);
    }
    if ConstOf(g, o).Some? {
      var d: nat, k: nat :| IsConstAt(g, d, k, o) && At(g, d, k).datum == ConstOf(g, o).value;
      ConstBefore(f, b, j, d, k, o);
    }
  }

  /** Removing dead code opens no new opportunity to fold. */
  lemma RemovalKeepsSettled(f: Func, b: nat, j: nat)
    requires UniqueIds(f) && Settled(f) && IsPos(f, b, j) && !Used(f, At(f, b, j).id)
    ensures Settled(RemoveAt(f, b, j))
  {
    hide ConstOf, UniqueIds, Pure;
    var g, x := RemoveAt(f, b, j), At(f, b, j).id;
    RemovedAt(f, b, j);
    forall d: nat, k: nat | IsPos(g, d, k)
      ensures NoConstRule(g, At(g, d, k)) && !IsCopy(g, At(g, d, k))
    {
      var v := At(f, d, OldIndex(b, j, d, k));
      assert NoConstRule(f, v) && !IsCopy(f, v);
      forall o | o in v.operands
        ensures ConstOf(g, o) == ConstOf(f, o)
      {
        assert Mentions(v, o);
        RemovedConst(f, b, j, o);
      }
      if |v.operands| >= 1 {
        assert v.operands[0] in v.operands;
      }
      if |v.operands| >= 2 {
        assert v.operands[1] in v.operands;
      }
      assert ConstArgs(g, v) == ConstArgs(f, v);
    }
  }

  /** A function is settled exactly when a folding pass over it reports no change. */
  lemma SettledIff(f: Func)
    requires UniqueIds(f)
    ensures Settled(f) <==> !PassChanges(f)
    ensures Settled(f) ==> Pass(f) == f
  {
    if Settled(f) {
      SaturatedPass(f);
    }
    if !PassChanges(f) {
      UnchangedPass(f);
    }
  }
}
