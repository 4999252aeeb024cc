/** Dominance by paths, and its agreement with certificates: a function has a certificate for strict
    SSA form exactly when its uses are dominated by their definitions along every path. */
module FirDominance {
  import opened Wrappers
  import opened FirSyntax
  import opened FirSemantics
  import opened FirSsa

  /** A walk through the control-flow graph from the entry. */
  ghost predicate IsPath(f: Func, p: seq<nat>) {
    |p| > 0 && p[0] == f.entry && f.entry < |f.blocks| &&
    forall i :: 0 <= i < |p| - 1 ==> Edge(f, p[i], p[i + 1])
  }

  ghost predicate PathTo(f: Func, p: seq<nat>, b: nat) {
    IsPath(f, p) && p[|p| - 1] == b
  }

  ghost predicate Reachable(f: Func, b: nat) {
    exists p :: PathTo(f, p, b)
  }

  /** Every path to `b` runs through `a` before it arrives. */
  ghost predicate Dominates(f: Func, a: nat, b: nat) {
    forall p :: PathTo(f, p, b) ==> a in p[..|p| - 1]
  }

  ghost function Dominators(f: Func, b: nat): set<nat> {
    set a: nat | a < |f.blocks| && Dominates(f, a, b)
  }

  /** The certificate that consists of the reachable blocks and all strict dominators. */
  ghost function PathCert(f: Func): Cert {
    Cert(set b: nat | b < |f.blocks| && Reachable(f, b),
         map b: nat | b < |f.blocks| :: Dominators(f, b))
  }

  lemma PathPrefix(f: Func, p: seq<nat>, n: nat)
    requires IsPath(f, p) && 0 < n <= |p|
    ensures IsPath(f, p[..n])
  {
  }

  lemma PathBlocks(f: Func, p: seq<nat>)
    requires IsPath(f, p)
    ensures forall b :: b in p ==> b < |f.blocks|
  {
    forall i | 0 <= i < |p|
      ensures p[i] < |f.blocks|
    {
      if i > 0 {
        assert Edge(f, p[i - 1], p[i]);
      }
    }
  }

  lemma PathExtend(f: Func, p: seq<nat>, b: nat, s: nat)
    requires PathTo(f, p, b) && Edge(f, b, s)
    ensures PathTo(f, p + [s], s) && (p + [s])[..|p + [s]| - 1] == p
  {
    var q := p + [s];
    forall i | 0 <= i < |q| - 1
      ensures Edge(f, q[i], q[i + 1])
    {
      if i < |p| - 1 {
        assert q[i] == p[i] && q[i + 1] == p[i + 1];
      }
    }
  }

  /** What a certificate lists as dominators are dominators. */
  lemma {:induction false} CertSound(f: Func, c: Cert, p: seq<nat>, a: nat, b: nat)
    requires DominatorCert(f, c) && PathTo(f, p, b)
    ensures b in c.live
    ensures a in Dom(c, b) ==> a in p[..|p| - 1]
    decreases |p|
  {
    if |p| > 1 {
      var q := p[..|p| - 1];
      PathPrefix(f, p, |p| - 1);
      var last := q[|q| - 1];
      assert Edge(f, p[|p| - 2], p[|p| - 1]);
      CertSound(f, c, q, a, last);
    }
  }

  lemma {:induction false} NoSelfDominance(f: Func, p: seq<nat>, b: nat)
    requires Dominates(f, b, b)
    ensures !PathTo(f, p, b)
    decreases |p|
  {
    if PathTo(f, p, b) {
      var q := p[..|p| - 1];
      assert b in q;
      var i :| 0 <= i < |q| && q[i] == b;
      PathPrefix(f, p, i + 1);
      NoSelfDominance(f, p[..i + 1], b);
    }
  }

  lemma DominanceTransitive(f: Func, a: nat, b: nat, c: nat)
    requires Dominates(f, a, b) && Dominates(f, b, c)
    ensures Dominates(f, a, c)
  {
    forall p | PathTo(f, p, c)
      ensures a in p[..|p| - 1]
    {
      var q := p[..|p| - 1];
      assert b in q;
      var i :| 0 <= i < |q| && q[i] == b;
      PathPrefix(f, p, i + 1);
      assert PathTo(f, p[..i + 1], b);
      assert a in p[..i + 1][..i];
    }
  }

  lemma DominatorsOfSuccessor(f: Func, a: nat, p: nat, s: nat)
    requires Edge(f, p, s) && Dominates(f, a, s) && a != p
    ensures Dominates(f, a, p)
  {
    forall q | PathTo(f, q, p)
      ensures a in q[..|q| - 1]
    {
      PathExtend(f, q, p, s);
      assert a in q;
      var i :| 0 <= i < |q| && q[i] == a;
      assert i != |q| - 1;
    }
  }

  /** Dominators of a reachable block are reachable. */
  lemma DominatorReachable(f: Func, a: nat, b: nat)
    requires Reachable(f, b) && Dominates(f, a, b)
    ensures Reachable(f, a) && a < |f.blocks|
  {
    var p :| PathTo(f, p, b);
    var q := p[..|p| - 1];
    assert a in q;
    var i :| 0 <= i < |q| && q[i] == a;
    PathPrefix(f, p, i + 1);
    assert PathTo(f, p[..i + 1], a);
    PathBlocks(f, p);
    assert p[i] in p;
  }

  lemma NothingDominatesEntry(f: Func, a: nat)
    requires f.entry < |f.blocks|
    ensures !Dominates(f, a, f.entry)
  {
    assert PathTo(f, [f.entry], f.entry);
  }

  lemma SuccessorReachable(f: Func, p: nat, s: nat)
    requires Reachable(f, p) && Edge(f, p, s)
    ensures Reachable(f, s)
  {
    var q :| PathTo(f, q, p);
    PathExtend(f, q, p, s);
  }

  lemma ReachableBlock(f: Func, b: nat)
    requires Reachable(f, b)
    ensures b < |f.blocks| && !Dominates(f, b, b)
  {
    var p :| PathTo(f, p, b);
    PathBlocks(f, p);
    assert b in p;
    if Dominates(f, b, b) {
      NoSelfDominance(f, p, b);
    }
  }

  lemma PathCertValid(f: Func)
    requires f.entry < |f.blocks|
    ensures DominatorCert(f, PathCert(f))
  {
    hide PathTo, Dominates, Edge, Reachable;
    var c := PathCert(f);
    EntryReachable(f);
    forall a | a in Dominators(f, f.entry)
      ensures false
    {
      NothingDominatesEntry(f, a);
    }
    forall b | b in c.live
      ensures b < |f.blocks| && b !in Dom(c, b)
    {
      ReachableBlock(f, b);
    }
    forall a: nat, b: nat | b in c.live && a in Dom(c, b)
      ensures a in c.live && Dom(c, a) <= Dom(c, b)
    {
      DominatorReachable(f, a, b);
      forall d | d in Dom(c, a)
        ensures d in Dom(c, b)
      {
        DominanceTransitive(f, d, a, b);
      }
    }
    forall p: nat, s: nat | p in c.live && Edge(f, p, s)
      ensures s in c.live && Dom(c, s) <= Dom(c, p) + {p}
    {
      SuccessorReachable(f, p, s);
      ReachableBlock(f, s);
      forall a | a in Dom(c, s) && a != p
        ensures a in Dom(c, p)
      {
        DominatorsOfSuccessor(f, a, p, s);
      }
    }
  }

  lemma EntryReachable(f: Func)
    requires f.entry < |f.blocks|
    ensures Reachable(f, f.entry)
  {
    assert PathTo(f, [f.entry], f.entry);
  }

  lemma AvailableByPaths(f: Func, c: Cert, o: nat, b: nat, j: nat)
    requires DominatorCert(f, c) && Reachable(f, b) && Available(f, c, o, b, j)
    ensures Available(f, PathCert(f), o, b, j)
  {
    var d: nat, k: nat :| Reaches(f, c, d, k, b, j) && At(f, d, k).id == o;
    if d in Dom(c, b) {
      forall p | PathTo(f, p, b)
        ensures d in p[..|p| - 1]
      {
        CertSound(f, c, p, d, b);
      }
      DominatorReachable(f, d, b);
      var p :| PathTo(f, p, b);
      PathBlocks(f, p);
      assert b in p;
      assert d in Dom(PathCert(f), b);
    }
    assert Reaches(f, PathCert(f), d, k, b, j);
  }

  /** A certificate for strict SSA form exists if and only if the path-based dominators are one. */
  lemma StrictSsaByPaths(f: Func)
    requires f.entry < |f.blocks|
    ensures (exists c: Cert :: StrictSsa(f, c)) <==> StrictSsa(f, PathCert(f))
  {
    PathCertValid(f);
    if exists c: Cert :: StrictSsa(f, c) {
      var c: Cert :| StrictSsa(f, c);
      var pc := PathCert(f);
      forall b | b in pc.live
        ensures b in c.live
      {
        var p :| PathTo(f, p, b);
        CertSound(f, c, p, 0, b);
      }
      forall b: nat, j: nat, o: nat | b in pc.live && IsPos(f, b, j) && o in ReadOps(At(f, b, j))
        ensures Available(f, pc, o, b, j)
      {
        AvailableByPaths(f, c, o, b, j);
      }
      forall p: nat, b: nat, j: nat | p in pc.live && Edge(f, p, b) && IsPos(f, b, j) && At(f, b, j).op.Phi?
        ensures var phi := At(f, b, j).phi;
                var e := PhiEdge(phi, Some(f.blocks[p].id), 0);
                e < |phi| ==> Available(f, pc, phi[e].src, p, |f.blocks[p].values|)
      {
        var phi := At(f, b, j).phi;
        var e := PhiEdge(phi, Some(f.blocks[p].id), 0);
        if e < |phi| {
          AvailableByPaths(f, c, phi[e].src, p, |f.blocks[p].values|);
        }
      }
    }
  }
}
