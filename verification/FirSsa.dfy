/** Strict SSA form, witnessed by a dominator certificate, and the invariant it gives every run:
    each definition that dominates the current point still satisfies its own equation. */
module FirSsa {
  import opened Wrappers
  import opened FirSyntax
  import opened FirSemantics

  /** `live` is a set of blocks closed under control flow; `dom[b]` holds blocks that every path
      to `b` runs through before `b`. */
  datatype Cert = Cert(live: set<nat>, dom: map<nat, set<nat>>)

  function Dom(c: Cert, b: nat): set<nat> {
    if b in c.dom then c.dom[b] else {}
  }

  /** Control may pass from block `p` to block `s`. */
  ghost predicate Edge(f: Func, p: nat, s: nat) {
    s < |f.blocks| &&
    exists j: nat, t: int :: IsPos(f, p, j) && t in Targets(At(f, p, j)) && FindBlock(f, t) == s
  }

  /** The definition at `(d, k)` has been executed whenever control is about to run `(b, j)`. */
  ghost predicate Reaches(f: Func, c: Cert, d: nat, k: nat, b: nat, j: nat) {
    IsPos(f, d, k) && !IsTerminator(At(f, d, k).op) &&
    (d in Dom(c, b) || (d == b && (k < j || At(f, d, k).op.Phi?)))
  }

  ghost predicate Available(f: Func, c: Cert, o: nat, b: nat, j: nat) {
    exists d: nat, k: nat :: Reaches(f, c, d, k, b, j) && At(f, d, k).id == o
  }

  ghost predicate DominatorCert(f: Func, c: Cert) {
    f.entry in c.live && Dom(c, f.entry) == {} &&
    (forall b :: b in c.live ==> b < |f.blocks| && b !in Dom(c, b)) &&
    (forall a: nat, b: nat :: b in c.live && a in Dom(c, b) ==> a in c.live && Dom(c, a) <= Dom(c, b)) &&
    (forall p: nat, s: nat :: p in c.live && Edge(f, p, s) ==> s in c.live && Dom(c, s) <= Dom(c, p) + {p})
  }

  /** A block ends at its only terminator. */
  ghost predicate TerminatorsLast(f: Func, c: Cert) {
    forall b: nat, j: nat :: b in c.live && IsPos(f, b, j) && IsTerminator(At(f, b, j).op) ==>
      j == |f.blocks[b].values| - 1
  }

  /** Definitions precede uses, for ordinary operands. */
  ghost predicate OperandsAvailable(f: Func, c: Cert) {
    forall b: nat, j: nat, o: nat :: b in c.live && IsPos(f, b, j) && o in ReadOps(At(f, b, j)) ==>
      Available(f, c, o, b, j)
  }

  /** Definitions precede uses, for PHI sources: at the end of the incoming block. */
  ghost predicate PhisAvailable(f: Func, c: Cert) {
    forall p: nat, b: nat, j: nat ::
      p in c.live && Edge(f, p, b) && IsPos(f, b, j) && At(f, b, j).op.Phi? ==>
        var phi := At(f, b, j).phi;
        var e := PhiEdge(phi, Some(f.blocks[p].id), 0);
        e < |phi| ==> Available(f, c, phi[e].src, p, |f.blocks[p].values|)
  }

  ghost predicate StrictSsa(f: Func, c: Cert) {
    UniqueIds(f) && DominatorCert(f, c) && TerminatorsLast(f, c) &&
    OperandsAvailable(f, c) && PhisAvailable(f, c)
  }

  /** The defining equation of `v` holds in `env`. */
  ghost predicate Holds(w: World, env: Env, v: Value) {
    v.id in env &&
    (var p := Pure(v.op, v.datum, Args(w, env, ReadOps(v))); p.Some? ==> env[v.id] == p.value)
  }

  /** Every definition that reaches `(b, j)` holds. */
  ghost predicate EnvOk(f: Func, c: Cert, w: World, b: nat, j: nat, env: Env) {
    forall d: nat, k: nat :: Reaches(f, c, d, k, b, j) ==> Holds(w, env, At(f, d, k))
  }

  /** The invariant of a run, between two blocks. */
  ghost predicate RunOk(f: Func, c: Cert, w: World, st: State) {
    st.status.Running? ==>
      st.cur in c.live &&
      if st.prev.None? then st.cur == f.entry
      else exists p: nat :: p in c.live && Edge(f, p, st.cur) && st.prev.value == f.blocks[p].id &&
                            EnvOk(f, c, w, p, |f.blocks[p].values|, st.env)
  }

  lemma HoldsKept(w: World, env: Env, v: Value, x: nat, r: Int64)
    requires Holds(w, env, v) && x != v.id && x !in ReadOps(v)
    ensures Holds(w, env[x := r], v)
  {
    assert Args(w, env, ReadOps(v)) == Args(w, env[x := r], ReadOps(v)) by {
      forall i | 0 <= i < |ReadOps(v)|
        ensures Read(w, env, ReadOps(v)[i]) == Read(w, env[x := r], ReadOps(v)[i])
      {
        assert ReadOps(v)[i] in ReadOps(v);
      }
    }
  }

  /** What a reaching definition reads was defined somewhere that reaches the same point. */
  lemma ReadsReach(f: Func, c: Cert, d: nat, k: nat, b: nat, j: nat, o: nat)
    requires StrictSsa(f, c) && b in c.live && Reaches(f, c, d, k, b, j) && o in ReadOps(At(f, d, k))
    ensures Available(f, c, o, b, j)
  {
    assert d in c.live;
    assert Available(f, c, o, d, k);
    var d', k' :| Reaches(f, c, d', k', d, k) && At(f, d', k').id == o;
    assert Reaches(f, c, d', k', b, j);
  }

  /** The definition about to run is neither a reaching one nor read by one. */
  lemma NotYetDefined(f: Func, c: Cert, b: nat, j: nat, o: nat)
    requires StrictSsa(f, c) && b in c.live && IsPos(f, b, j) && !At(f, b, j).op.Phi?
    requires Available(f, c, o, b, j)
    ensures At(f, b, j).id != o
  {
    var d, k :| Reaches(f, c, d, k, b, j) && At(f, d, k).id == o;
    assert !(d == b && k == j);
  }

  lemma ExecKeepsEnvOk(f: Func, c: Cert, w: World, st: State, b: nat, j: nat)
    requires StrictSsa(f, c) && b in c.live && IsPos(f, b, j)
    requires !At(f, b, j).op.Phi? && !IsTerminator(At(f, b, j).op)
    requires EnvOk(f, c, w, b, j, st.env)
    ensures EnvOk(f, c, w, b, j + 1, ExecValue(w, st, At(f, b, j)).env)
  {
    var v := At(f, b, j);
    var r := Result(w, st, v);
    var env' := st.env[v.id := r];
    forall d: nat, k: nat | Reaches(f, c, d, k, b, j + 1)
      ensures Holds(w, env', At(f, d, k))
    {
      if d == b && k == j {
        assert v.id !in ReadOps(v) by {
          if v.id in ReadOps(v) {
            NotYetDefined(f, c, b, j, v.id);
          }
        }
        assert Args(w, st.env, ReadOps(v)) == Args(w, env', ReadOps(v)) by {
          forall i | 0 <= i < |ReadOps(v)|
            ensures Read(w, st.env, ReadOps(v)[i]) == Read(w, env', ReadOps(v)[i])
          {
            assert ReadOps(v)[i] in ReadOps(v);
          }
        }
      } else {
        var u := At(f, d, k);
        assert Reaches(f, c, d, k, b, j);
        assert Available(f, c, u.id, b, j);
        NotYetDefined(f, c, b, j, u.id);
        if v.id in ReadOps(u) {
          ReadsReach(f, c, d, k, b, j, v.id);
          NotYetDefined(f, c, b, j, v.id);
        }
        HoldsKept(w, st.env, u, v.id, r);
      }
    }
  }

  lemma PhiIsDefinition(f: Func, c: Cert, w: World, b: nat, j: nat, env: Env)
    requires b in c.live && IsPos(f, b, j) && At(f, b, j).op.Phi?
    requires EnvOk(f, c, w, b, j, env)
    ensures EnvOk(f, c, w, b, j + 1, env)
  {
    forall d: nat, k: nat | Reaches(f, c, d, k, b, j + 1)
      ensures Holds(w, env, At(f, d, k))
    {
      assert Reaches(f, c, d, k, b, j);
    }
  }

  /** The dominating definitions hold, and so do the first `i` PHIs of the block being entered. */
  ghost predicate EntryOk(f: Func, c: Cert, w: World, b: nat, i: nat, env: Env) {
    forall d: nat, k: nat ::
      IsPos(f, d, k) && !IsTerminator(At(f, d, k).op) &&
      (d in Dom(c, b) || (d == b && k < i && At(f, d, k).op.Phi?)) ==>
        Holds(w, env, At(f, d, k))
  }

  lemma PhiKeepsEntryOk(f: Func, c: Cert, w: World, b: nat, i: nat, env: Env, r: Int64)
    requires StrictSsa(f, c) && b in c.live && IsPos(f, b, i) && At(f, b, i).op.Phi?
    requires EntryOk(f, c, w, b, i, env)
    ensures EntryOk(f, c, w, b, i + 1, env[At(f, b, i).id := r])
  {
    var x := At(f, b, i).id;
    forall d: nat, k: nat | IsPos(f, d, k) && !IsTerminator(At(f, d, k).op) &&
                            (d in Dom(c, b) || (d == b && k < i + 1 && At(f, d, k).op.Phi?))
      ensures Holds(w, env[x := r], At(f, d, k))
    {
      var u := At(f, d, k);
      if d in Dom(c, b) {
        assert u.id != x;
        HoldsKept(w, env, u, x, r);
      } else if k < i {
        HoldsKept(w, env, u, x, r);
      }
    }
  }

  lemma {:induction false} PhiEnvOk(f: Func, c: Cert, w: World, st: State, b: nat, i: nat, env: Env)
    requires StrictSsa(f, c) && b in c.live && i <= |f.blocks[b].values|
    requires EntryOk(f, c, w, b, i, env)
    ensures EnvOk(f, c, w, b, 0, PhiEnv(w, st, f.blocks[b].values, i, env))
    decreases |f.blocks[b].values| - i
  {
    var vs := f.blocks[b].values;
    if i < |vs| {
      assert vs[i] == At(f, b, i);
      if vs[i].op.Phi? {
        var r := PhiValue(w, st, vs[i]);
        PhiKeepsEntryOk(f, c, w, b, i, env, r);
        PhiEnvOk(f, c, w, st, b, i + 1, env[vs[i].id := r]);
      } else {
        PhiEnvOk(f, c, w, st, b, i + 1, env);
      }
    }
  }

  lemma EnterOk(f: Func, c: Cert, w: World, st: State)
    requires StrictSsa(f, c) && RunOk(f, c, w, st) && st.status.Running?
    ensures EnvOk(f, c, w, st.cur, 0, EnterBlock(f, w, st).env)
  {
    assert EntryOk(f, c, w, st.cur, 0, st.env) by {
      if st.prev.Some? {
        var p: nat :| p in c.live && Edge(f, p, st.cur) && st.prev.value == f.blocks[p].id &&
                      EnvOk(f, c, w, p, |f.blocks[p].values|, st.env);
        forall d: nat, k: nat | IsPos(f, d, k) && !IsTerminator(At(f, d, k).op) && d in Dom(c, st.cur)
          ensures Holds(w, st.env, At(f, d, k))
        {
          assert Reaches(f, c, d, k, p, |f.blocks[p].values|);
        }
      }
    }
    PhiEnvOk(f, c, w, st, st.cur, 0, st.env);
  }

  lemma {:induction false} ExecFromOk(f: Func, c: Cert, w: World, st: State, b: nat, i: nat)
    requires StrictSsa(f, c) && b in c.live && i <= |f.blocks[b].values|
    requires EnvOk(f, c, w, b, i, st.env)
    ensures RunOk(f, c, w, ExecFrom(f, w, st, b, i))
    decreases |f.blocks[b].values| - i
  {
    var vs := f.blocks[b].values;
    if i < |vs| {
      var v := At(f, b, i);
      if IsTerminator(v.op) {
        assert EnvOk(f, c, w, b, |vs|, st.env) by {
          forall d: nat, k: nat | Reaches(f, c, d, k, b, |vs|)
            ensures Holds(w, st.env, At(f, d, k))
          {
            assert Reaches(f, c, d, k, b, i);
          }
        }
        var next := ExecFrom(f, w, st, b, i);
        if next.status.Running? {
          var t := if v.op.Jump? then v.datum
                   else if Read(w, st.env, v.operands[0]) != 0 then v.operands[1] else v.operands[2];
          assert t in Targets(v) && FindBlock(f, t) == next.cur;
          assert Edge(f, b, next.cur);
        }
      } else if v.op.Phi? {
        PhiIsDefinition(f, c, w, b, i, st.env);
        ExecFromOk(f, c, w, st, b, i + 1);
      } else {
        ExecKeepsEnvOk(f, c, w, st, b, i);
        ExecFromOk(f, c, w, ExecValue(w, st, v), b, i + 1);
      }
    }
  }

  /** Every state of every run of a strict SSA function satisfies its dominating equations. */
  lemma {:induction false} EquationsHold(f: Func, c: Cert, w: World, k: nat)
    requires StrictSsa(f, c)
    ensures RunOk(f, c, w, Run(f, w, k))
  {
    if k > 0 {
      EquationsHold(f, c, w, k - 1);
      var st := Run(f, w, k - 1);
      if st.status.Running? {
        EnterOk(f, c, w, st);
        ExecFromOk(f, c, w, EnterBlock(f, w, st), st.cur, 0);
      }
    }
  }
}
