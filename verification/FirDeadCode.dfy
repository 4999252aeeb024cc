/** Removing one unused, effect-free value never changes what a function does. */
module FirDeadCode {
  import opened Seqs
  import opened FirSyntax
  import opened FirSemantics

  predicate Removable(v: Value) {
    !IsTerminator(v.op) && !IsEffect(v.op)
  }

  /** The function without the value at `(b, j)`. */
  function RemoveAt(f: Func, b: nat, j: nat): (g: Func)
    requires IsPos(f, b, j)
    ensures SameBlockIds(f, g)
    ensures |g.blocks[b].values| == |f.blocks[b].values| - 1
    ensures forall c :: 0 <= c < |f.blocks| && c != b ==> g.blocks[c] == f.blocks[c]
  {
    f.(blocks := f.blocks[b := f.blocks[b].(values := Without(f.blocks[b].values, j))])
  }

  /** Environments that differ at most on `x`. */
  ghost predicate AgreeBut(x: nat, e: Env, e': Env) {
    forall y: nat :: y != x ==> (y in e <==> y in e') && (y in e ==> e[y] == e'[y])
  }

  ghost predicate AlikeBut(x: nat, s: State, t: State) {
    Observe(s) == Observe(t) && AgreeBut(x, s.env, t.env)
  }

  lemma ReadAgrees(w: World, x: nat, e: Env, e': Env, ids: seq<nat>)
    requires AgreeBut(x, e, e') && x !in ids
    ensures Args(w, e, ids) == Args(w, e', ids)
  {
    forall i | 0 <= i < |ids|
      ensures Args(w, e, ids)[i] == Args(w, e', ids)[i]
    {
      assert ids[i] in ids;
    }
  }

  lemma ExecAgrees(w: World, x: nat, s: State, t: State, v: Value)
    requires AlikeBut(x, s, t) && !Mentions(v, x)
    ensures AlikeBut(x, ExecValue(w, s, v), ExecValue(w, t, v))
  {
    ReadAgrees(w, x, s.env, t.env, ReadOps(v));
  }

  lemma PhiAgrees(w: World, x: nat, s: State, t: State, v: Value)
    requires AlikeBut(x, s, t) && !Mentions(v, x)
    ensures PhiValue(w, s, v) == PhiValue(w, t, v)
  {
    var p := PhiEdge(v.phi, s.prev, 0);
    if p < |v.phi| {
      assert v.phi[p].src != x;
    }
  }

  lemma TerminateAgrees(f: Func, g: Func, w: World, x: nat, s: State, t: State, b: nat, v: Value)
    requires SameBlockIds(f, g) && b < |f.blocks|
    requires AlikeBut(x, s, t) && !Mentions(v, x)
    ensures AlikeBut(x, Terminate(f, w, s, b, v), Terminate(g, w, t, b, v))
  {
    forall id: int {
      FindBlockSame(f, g, id);
    }
    if |v.operands| > 0 {
      assert v.operands[0] in v.operands;
    }
  }

  /** Running the same block of both functions, past the point where they differ. */
  lemma {:induction false} ExecFromAgrees(f: Func, g: Func, w: World, x: nat, s: State, t: State,
                                          b: nat, i: nat, k: nat)
    requires SameBlockIds(f, g) && b < |f.blocks|
    requires i <= |f.blocks[b].values| && k <= |g.blocks[b].values|
    requires f.blocks[b].values[i..] == g.blocks[b].values[k..]
    requires !Used(f, x) && AlikeBut(x, s, t)
    ensures AlikeBut(x, ExecFrom(f, w, s, b, i), ExecFrom(g, w, t, b, k))
    decreases |f.blocks[b].values| - i
  {
    var vs, us := f.blocks[b].values, g.blocks[b].values;
    assert |vs[i..]| == |us[k..]|;
    if i < |vs| {
      assert vs[i] == vs[i..][0] == us[k..][0] == us[k];
      assert vs[i + 1..] == vs[i..][1..] == us[k..][1..] == us[k + 1..];
      assert vs[i] == At(f, b, i);
      assert !Mentions(vs[i], x);
      if IsTerminator(vs[i].op) {
        TerminateAgrees(f, g, w, x, s, t, b, vs[i]);
      } else if vs[i].op.Phi? {
        ExecFromAgrees(f, g, w, x, s, t, b, i + 1, k + 1);
      } else {
        ExecAgrees(w, x, s, t, vs[i]);
        ExecFromAgrees(f, g, w, x, ExecValue(w, s, vs[i]), ExecValue(w, t, vs[i]), b, i + 1, k + 1);
      }
    }
  }

  lemma RemovedValues(f: Func, b: nat, j: nat)
    requires IsPos(f, b, j)
    ensures RemoveAt(f, b, j).blocks[b].values[j..] == f.blocks[b].values[j + 1..]
    ensures forall i :: 0 <= i < j ==> RemoveAt(f, b, j).blocks[b].values[i] == f.blocks[b].values[i]
  {
  }

  /** The removed value would only have defined its own id. */
  lemma RemovedAlike(w: World, s: State, t: State, v: Value)
    requires Removable(v) && AlikeBut(v.id, s, t)
    ensures AlikeBut(v.id, if v.op.Phi? then s else ExecValue(w, s, v), t)
  {
  }

  /** Running the block that lost its value `j`, up to and over that value. */
  lemma {:induction false} ExecFromRemoved(f: Func, w: World, s: State, t: State, b: nat, j: nat, i: nat)
    requires IsPos(f, b, j) && i <= j
    requires Removable(At(f, b, j)) && !Used(f, At(f, b, j).id)
    requires AlikeBut(At(f, b, j).id, s, t)
    ensures AlikeBut(At(f, b, j).id, ExecFrom(f, w, s, b, i), ExecFrom(RemoveAt(f, b, j), w, t, b, i))
    decreases j - i
  {
    hide AlikeBut, ExecValue, RemoveAt;
    var g, x := RemoveAt(f, b, j), At(f, b, j).id;
    var vs, us := f.blocks[b].values, g.blocks[b].values;
    RemovedValues(f, b, j);
    if i == j {
      var s' := if vs[j].op.Phi? then s else ExecValue(w, s, vs[j]);
      RemovedAlike(w, s, t, vs[j]);
      ExecFromAgrees(f, g, w, x, s', t, b, j + 1, j);
    } else {
      assert us[i] == vs[i] == At(f, b, i);
      assert !Mentions(vs[i], x);
      if IsTerminator(vs[i].op) {
        TerminateAgrees(f, g, w, x, s, t, b, vs[i]);
      } else if vs[i].op.Phi? {
        ExecFromRemoved(f, w, s, t, b, j, i + 1);
      } else {
        ExecAgrees(w, x, s, t, vs[i]);
        ExecFromRemoved(f, w, ExecValue(w, s, vs[i]), ExecValue(w, t, vs[i]), b, j, i + 1);
      }
    }
  }

  lemma {:induction false} PhiEnvAgrees(w: World, x: nat, s: State, t: State,
                                        vs: seq<Value>, us: seq<Value>, i: nat, k: nat, e: Env, e': Env)
    requires i <= |vs| && k <= |us| && vs[i..] == us[k..]
    requires forall v :: v in vs ==> !Mentions(v, x)
    requires AlikeBut(x, s, t) && AgreeBut(x, e, e')
    ensures AgreeBut(x, PhiEnv(w, s, vs, i, e), PhiEnv(w, t, us, k, e'))
    decreases |vs| - i
  {
    assert |vs[i..]| == |us[k..]|;
    if i < |vs| {
      assert vs[i] == vs[i..][0] == us[k..][0] == us[k];
      assert vs[i + 1..] == vs[i..][1..] == us[k..][1..] == us[k + 1..];
      assert vs[i] in vs;
      if vs[i].op.Phi? {
        PhiAgrees(w, x, s, t, vs[i]);
        var r := PhiValue(w, s, vs[i]);
        PhiEnvAgrees(w, x, s, t, vs, us, i + 1, k + 1, e[vs[i].id := r], e'[vs[i].id := r]);
      } else {
        PhiEnvAgrees(w, x, s, t, vs, us, i + 1, k + 1, e, e');
      }
    }
  }

  lemma {:induction false} PhiEnvRemoved(w: World, s: State, t: State, vs: seq<Value>, j: nat, i: nat,
                                         e: Env, e': Env)
    requires j < |vs| && i <= j
    requires forall v :: v in vs ==> !Mentions(v, vs[j].id)
    requires AlikeBut(vs[j].id, s, t) && AgreeBut(vs[j].id, e, e')
    ensures AgreeBut(vs[j].id, PhiEnv(w, s, vs, i, e), PhiEnv(w, t, Without(vs, j), i, e'))
    decreases j - i
  {
    var us, x := Without(vs, j), vs[j].id;
    if i == j {
      assert vs[j + 1..] == us[j..];
      var e1 := if vs[j].op.Phi? then e[x := PhiValue(w, s, vs[j])] else e;
      PhiEnvAgrees(w, x, s, t, vs, us, j + 1, j, e1, e');
    } else {
      assert us[i] == vs[i] && vs[i] in vs;
      if vs[i].op.Phi? {
        PhiAgrees(w, x, s, t, vs[i]);
        var r := PhiValue(w, s, vs[i]);
        PhiEnvRemoved(w, s, t, vs, j, i + 1, e[vs[i].id := r], e'[vs[i].id := r]);
      } else {
        PhiEnvRemoved(w, s, t, vs, j, i + 1, e, e');
      }
    }
  }

  lemma UnusedInBlock(f: Func, b: nat, x: nat)
    requires b < |f.blocks| && !Used(f, x)
    ensures forall v :: v in f.blocks[b].values ==> !Mentions(v, x)
  {
    forall v | v in f.blocks[b].values
      ensures !Mentions(v, x)
    {
      var j: nat :| j < |f.blocks[b].values| && f.blocks[b].values[j] == v;
      assert At(f, b, j) == v;
    }
  }

  lemma StepRemoved(f: Func, w: World, s: State, t: State, b: nat, j: nat)
    requires IsPos(f, b, j) && Removable(At(f, b, j)) && !Used(f, At(f, b, j).id)
    requires AlikeBut(At(f, b, j).id, s, t)
    ensures AlikeBut(At(f, b, j).id, StepBlock(f, w, s), StepBlock(RemoveAt(f, b, j), w, t))
  {
    var g, x := RemoveAt(f, b, j), At(f, b, j).id;
    if s.status.Running? && s.cur < |f.blocks| {
      var c := s.cur;
      UnusedInBlock(f, c, x);
      if c == b {
        PhiEnvRemoved(w, s, t, f.blocks[b].values, j, 0, s.env, t.env);
        ExecFromRemoved(f, w, EnterBlock(f, w, s), EnterBlock(g, w, t), b, j, 0);
      } else {
        PhiEnvAgrees(w, x, s, t, f.blocks[c].values, g.blocks[c].values, 0, 0, s.env, t.env);
        ExecFromAgrees(f, g, w, x, EnterBlock(f, w, s), EnterBlock(g, w, t), c, 0, 0);
      }
    }
  }

  lemma {:induction false} RunRemoved(f: Func, w: World, b: nat, j: nat, k: nat)
    requires IsPos(f, b, j) && Removable(At(f, b, j)) && !Used(f, At(f, b, j).id)
    ensures AlikeBut(At(f, b, j).id, Run(f, w, k), Run(RemoveAt(f, b, j), w, k))
  {
    if k > 0 {
      RunRemoved(f, w, b, j, k - 1);
      StepRemoved(f, w, Run(f, w, k - 1), Run(RemoveAt(f, b, j), w, k - 1), b, j);
    }
  }

  /** Removing an unused effect-free value is invisible: through loops, PHIs and every effect. */
  lemma RemovalPreservesMeaning(f: Func, b: nat, j: nat)
    requires IsPos(f, b, j) && Removable(At(f, b, j)) && !Used(f, At(f, b, j).id)
    ensures SameMeaning(f, RemoveAt(f, b, j))
  {
    forall w: World, k: nat
      ensures Observe(Run(f, w, k)) == Observe(Run(RemoveAt(f, b, j), w, k))
    {
      RunRemoved(f, w, b, j, k);
    }
  }
}
