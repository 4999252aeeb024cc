/** Functions of the same shape whose values compute the same results wherever the SSA equations
    hold run identically, state for state. */
module FirEquiv {
  import opened Wrappers
  import opened FirSyntax
  import opened FirSemantics
  import opened FirSsa

  /** `v` and `u` have the same effect in every environment `env` that satisfies what is known here. */
  ghost predicate SameEffect(w: World, env: Env, v: Value, u: Value) {
    var a, a' := Args(w, env, ReadOps(v)), Args(w, env, ReadOps(u));
    u.id == v.id &&
    (IsTerminator(v.op) ==>
       u.op == v.op && u.datum == v.datum && Targets(u) == Targets(v) &&
       |u.operands| == |v.operands| && a == a') &&
    (!IsTerminator(v.op) && !v.op.Phi? ==>
       (u.op == v.op && u.datum == v.datum && a == a') ||
       (!IsEffect(u.op) && !IsEffect(v.op) &&
        Pure(v.op, v.datum, a).Some? && Pure(u.op, u.datum, a') == Pure(v.op, v.datum, a)))
  }

  /** PHIs with the same edges whose sources for edge `e` read the same. */
  ghost predicate SamePhi(w: World, env: Env, v: Value, u: Value, e: nat) {
    u.id == v.id && u.op == v.op && u.datum == v.datum && |u.phi| == |v.phi| &&
    (forall i :: 0 <= i < |v.phi| ==> u.phi[i].blk == v.phi[i].blk) &&
    (e < |v.phi| ==> Read(w, env, v.phi[e].src) == Read(w, env, u.phi[e].src))
  }

  ghost predicate SameShape(f: Func, g: Func) {
    SameBlockIds(f, g) &&
    (forall b: nat :: b < |f.blocks| ==> |f.blocks[b].values| == |g.blocks[b].values|) &&
    (forall b: nat, j: nat :: IsPos(f, b, j) ==>
      At(f, b, j).id == At(g, b, j).id && At(f, b, j).op.Phi? == At(g, b, j).op.Phi? &&
      IsTerminator(At(f, b, j).op) == IsTerminator(At(g, b, j).op))
  }

  /** `g` computes what `f` computes at every reachable point of a run of `f`. */
  ghost predicate LocalEquiv(f: Func, g: Func, c: Cert, w: World) {
    SameShape(f, g) &&
    (forall b: nat, j: nat, env: Env :: b in c.live && IsPos(f, b, j) && EnvOk(f, c, w, b, j, env) ==>
      SameEffect(w, env, At(f, b, j), At(g, b, j))) &&
    (forall b: nat, j: nat, env: Env :: b in c.live && IsPos(f, b, j) && At(f, b, j).op.Phi? ==>
      SamePhi(w, env, At(f, b, j), At(g, b, j), |At(f, b, j).phi|)) &&
    (forall p: nat, b: nat, j: nat, env: Env ::
      p in c.live && Edge(f, p, b) && IsPos(f, b, j) && At(f, b, j).op.Phi? &&
      EnvOk(f, c, w, p, |f.blocks[p].values|, env) ==>
        SamePhi(w, env, At(f, b, j), At(g, b, j), PhiEdge(At(f, b, j).phi, Some(f.blocks[p].id), 0)))
  }

  lemma {:induction false} PhiEdgeSame(phi: seq<PhiSource>, psi: seq<PhiSource>, prev: Option<nat>, i: nat)
    requires |phi| == |psi| && i <= |phi|
    requires forall k :: 0 <= k < |phi| ==> phi[k].blk == psi[k].blk
    ensures PhiEdge(phi, prev, i) == PhiEdge(psi, prev, i)
    decreases |phi| - i
  {
    if i < |phi| {
      PhiEdgeSame(phi, psi, prev, i + 1);
    }
  }

  lemma {:induction false} NoEdgeFromNowhere(phi: seq<PhiSource>, i: nat)
    requires i <= |phi|
    ensures PhiEdge(phi, None, i) == |phi|
    decreases |phi| - i
  {
    if i < |phi| {
      NoEdgeFromNowhere(phi, i + 1);
    }
  }

  lemma PhiValueSame(f: Func, g: Func, c: Cert, w: World, st: State, j: nat)
    requires LocalEquiv(f, g, c, w) && RunOk(f, c, w, st) && st.status.Running?
    requires IsPos(f, st.cur, j) && At(f, st.cur, j).op.Phi?
    ensures PhiValue(w, st, At(f, st.cur, j)) == PhiValue(w, st, At(g, st.cur, j))
  {
    var v, u := At(f, st.cur, j), At(g, st.cur, j);
    assert SamePhi(w, st.env, v, u, |v.phi|);
    PhiEdgeSame(v.phi, u.phi, st.prev, 0);
    if st.prev.None? {
      NoEdgeFromNowhere(v.phi, 0);
    } else {
      var p: nat :| p in c.live && Edge(f, p, st.cur) && st.prev.value == f.blocks[p].id &&
                    EnvOk(f, c, w, p, |f.blocks[p].values|, st.env);
      assert SamePhi(w, st.env, v, u, PhiEdge(v.phi, Some(f.blocks[p].id), 0));
    }
  }

  lemma {:induction false} PhiEnvSame(f: Func, g: Func, c: Cert, w: World, st: State, i: nat, env: Env)
    requires LocalEquiv(f, g, c, w) && RunOk(f, c, w, st) && st.status.Running?
    requires st.cur < |f.blocks| && i <= |f.blocks[st.cur].values|
    ensures PhiEnv(w, st, f.blocks[st.cur].values, i, env) == PhiEnv(w, st, g.blocks[st.cur].values, i, env)
    decreases |f.blocks[st.cur].values| - i
  {
    var b := st.cur;
    if i < |f.blocks[b].values| {
      var v, u := At(f, b, i), At(g, b, i);
      if v.op.Phi? {
        PhiValueSame(f, g, c, w, st, i);
        assert SamePhi(w, env, v, u, |v.phi|);
        PhiEnvSame(f, g, c, w, st, i + 1, env[v.id := PhiValue(w, st, v)]);
      } else {
        PhiEnvSame(f, g, c, w, st, i + 1, env);
      }
    }
  }

  lemma ExecSame(w: World, st: State, v: Value, u: Value)
    requires SameEffect(w, st.env, v, u) && !IsTerminator(v.op) && !v.op.Phi?
    ensures ExecValue(w, st, v) == ExecValue(w, st, u)
  {
  }

  lemma TerminateSame(f: Func, g: Func, w: World, st: State, b: nat, v: Value, u: Value)
    requires SameBlockIds(f, g) && b < |f.blocks|
    requires SameEffect(w, st.env, v, u) && IsTerminator(v.op)
    ensures Terminate(f, w, st, b, v) == Terminate(g, w, st, b, u)
  {
    forall id: int {
      FindBlockSame(f, g, id);
    }
    if v.op.Return? && |v.operands| >= 1 {
      assert Args(w, st.env, ReadOps(v))[0] == Read(w, st.env, v.operands[0]);
      assert Args(w, st.env, ReadOps(u))[0] == Read(w, st.env, u.operands[0]);
    }
    if v.op.Branch? && |v.operands| >= 3 {
      assert Args(w, st.env, ReadOps(v))[0] == Read(w, st.env, v.operands[0]);
      assert Args(w, st.env, ReadOps(u))[0] == Read(w, st.env, u.operands[0]);
      assert Targets(v)[0] == v.operands[1] && Targets(v)[1] == v.operands[2];
      assert Targets(u)[0] == u.operands[1] && Targets(u)[1] == u.operands[2];
    }
  }

  /** One value of the block, run in both functions from a state in which the equations hold. */
  lemma ValueSame(f: Func, g: Func, c: Cert, w: World, st: State, b: nat, i: nat)
    requires LocalEquiv(f, g, c, w) && b in c.live && IsPos(f, b, i) && EnvOk(f, c, w, b, i, st.env)
    ensures IsTerminator(At(f, b, i).op) ==>
      Terminate(f, w, st, b, At(f, b, i)) == Terminate(g, w, st, b, At(g, b, i))
    ensures !IsTerminator(At(f, b, i).op) && !At(f, b, i).op.Phi? ==>
      ExecValue(w, st, At(f, b, i)) == ExecValue(w, st, At(g, b, i))
  {
    var v, u := At(f, b, i), At(g, b, i);
    assert SameEffect(w, st.env, v, u);
    if IsTerminator(v.op) {
      TerminateSame(f, g, w, st, b, v, u);
    } else if !v.op.Phi? {
      ExecSame(w, st, v, u);
    }
  }

  lemma {:induction false} ExecFromSame(f: Func, g: Func, c: Cert, w: World, st: State, b: nat, i: nat)
    requires StrictSsa(f, c) && LocalEquiv(f, g, c, w) && b in c.live && i <= |f.blocks[b].values|
    requires EnvOk(f, c, w, b, i, st.env)
    ensures ExecFrom(f, w, st, b, i) == ExecFrom(g, w, st, b, i)
    decreases |f.blocks[b].values| - i
  {
    hide Pure;
    if i < |f.blocks[b].values| {
      var v := At(f, b, i);
      ValueSame(f, g, c, w, st, b, i);
      if IsTerminator(v.op) {
      } else if v.op.Phi? {
        PhiIsDefinition(f, c, w, b, i, st.env);
        ExecFromSame(f, g, c, w, st, b, i + 1);
      } else {
        ExecKeepsEnvOk(f, c, w, st, b, i);
        ExecFromSame(f, g, c, w, ExecValue(w, st, v), b, i + 1);
      }
    }
  }

  /** The two functions run in lock step, with equal environments. */
  lemma {:induction false} RunSame(f: Func, g: Func, c: Cert, w: World, k: nat)
    requires StrictSsa(f, c) && LocalEquiv(f, g, c, w)
    ensures Run(f, w, k) == Run(g, w, k)
  {
    if k > 0 {
      RunSame(f, g, c, w, k - 1);
      EquationsHold(f, c, w, k - 1);
      var st := Run(f, w, k - 1);
      if st.status.Running? {
        PhiEnvSame(f, g, c, w, st, 0, st.env);
        EnterOk(f, c, w, st);
        ExecFromSame(f, g, c, w, EnterBlock(f, w, st), st.cur, 0);
      }
    }
  }
}
