/** The folding pass over a whole function, the loop that repeats it, and exactly when that loop stops. */
module FirFoldLoop {
  import opened Wrappers
  import opened FirSyntax
  import opened FirSemantics
  import opened FirSsa
  import opened FirEquiv
  import opened FirFold

  /** Visit `(b, j)` and everything after it. */
  function PassFrom(f: Func, b: nat, j: nat): (r: (Func, bool))
    requires b <= |f.blocks| && (b < |f.blocks| ==> j <= |f.blocks[b].values|)
    ensures SameShape(f, r.0)
    decreases |f.blocks| - b, if b < |f.blocks| then |f.blocks[b].values| - j else 0
  {
    if b == |f.blocks| then (f, false)
    else if j == |f.blocks[b].values| then PassFrom(f, b + 1, 0)
    else
      var (g, fired) := Visit(f, b, j);
      var (h, more) := PassFrom(g, b, j + 1);
      (h, fired || more)
  }

  function Pass(f: Func): Func {
    PassFrom(f, 0, 0).0
  }

  predicate PassChanges(f: Func) {
    PassFrom(f, 0, 0).1
  }

  /** The function after `n` passes. */
  function Passes(f: Func, n: nat): Func {
    if n == 0 then f else Pass(Passes(f, n - 1))
  }

  // ---- Every pass preserves meaning ----

  ghost predicate SameRuns(f: Func, g: Func) {
    forall w: World, k: nat :: Run(f, w, k) == Run(g, w, k)
  }

  /** `g` has the runs of `f` and is in strict SSA form under the same certificate. */
  ghost predicate Keeps(f: Func, g: Func, c: Cert) {
    SameShape(f, g) && StrictSsa(g, c) && SameRuns(f, g)
  }

  lemma KeepsTransitive(f: Func, g: Func, h: Func, c: Cert)
    requires Keeps(f, g, c) && Keeps(g, h, c)
    ensures Keeps(f, h, c)
  {
    forall w: World, k: nat
      ensures Run(f, w, k) == Run(h, w, k)
    {
      assert Run(f, w, k) == Run(g, w, k);
    }
  }

  /** Rewriting `from` to `to` redirects no branch. */
  ghost predicate SafeRewrite(f: Func, from: nat, to: nat) {
    from == to || NoTargetIs(f, from)
  }

  /** The copy rules that fire when `(b, j)` is visited redirect no branch. */
  ghost predicate SafeVisit(f: Func, b: nat, j: nat)
    requires IsPos(f, b, j)
  {
    FoldConst(f, At(f, b, j)).None? ==>
      SafeLeft(f, b, j) && SafeRight(SimplifyLeft(f, b, j).0, b, j)
  }

  ghost predicate SafeLeft(f: Func, b: nat, j: nat)
    requires IsPos(f, b, j)
  {
    CopiesLeft(f, At(f, b, j)) ==> SafeRewrite(f, At(f, b, j).id, At(f, b, j).operands[0])
  }

  ghost predicate SafeRight(f: Func, b: nat, j: nat)
    requires IsPos(f, b, j)
  {
    CopiesRight(f, At(f, b, j)) ==> SafeRewrite(f, At(f, b, j).id, At(f, b, j).operands[1])
  }

  /** So at `(b, j)` and everywhere after it in the pass. */
  ghost predicate SafeFrom(f: Func, b: nat, j: nat)
    requires b <= |f.blocks| && (b < |f.blocks| ==> j <= |f.blocks[b].values|)
    decreases |f.blocks| - b, if b < |f.blocks| then |f.blocks[b].values| - j else 0
  {
    if b == |f.blocks| then true
    else if j == |f.blocks[b].values| then SafeFrom(f, b + 1, 0)
    else SafeVisit(f, b, j) && SafeFrom(Visit(f, b, j).0, b, j + 1)
  }

  /** No rewrite in the first `n` passes redirects a branch. */
  ghost predicate SafePasses(f: Func, n: nat) {
    forall i: nat :: i < n ==> SafeFrom(Passes(f, i), 0, 0)
  }

  lemma FoldToKeeps(f: Func, c: Cert, b: nat, j: nat, r: Int64)
    requires StrictSsa(f, c)
    requires IsPos(f, b, j) && Foldable(At(f, b, j)) && AlwaysEquals(f, c, b, j, r)
    ensures Keeps(f, FoldTo(f, b, j, r), c)
  {
    FoldToShape(f, b, j, r);
    FoldToPreserves(f, c, b, j, r);
  }

  lemma ReplaceNothingIn(v: Value, x: nat)
    ensures ReplaceIn(v, x, x) == v
  {
    assert ReplaceIn(v, x, x).operands == v.operands && ReplaceIn(v, x, x).phi == v.phi;
  }

  lemma ReplaceNothing(f: Func, x: nat)
    ensures ReplaceUses(f, x, x) == f
  {
    hide ReplaceIn;
    forall b: nat | b < |f.blocks|
      ensures ReplaceInBlock(f.blocks[b], x, x) == f.blocks[b]
    {
      var vs, us := f.blocks[b].values, ReplaceInBlock(f.blocks[b], x, x).values;
      forall j | 0 <= j < |vs|
        ensures us[j] == vs[j]
      {
        ReplaceNothingIn(vs[j], x);
      }
      assert us == vs;
    }
    assert ReplaceUses(f, x, x).blocks == f.blocks;
  }

  lemma ReplaceKeeps(f: Func, c: Cert, b: nat, j: nat, to: nat)
    requires StrictSsa(f, c) && Copies(f, b, j, to) && SafeRewrite(f, At(f, b, j).id, to)
    ensures Keeps(f, ReplaceUses(f, At(f, b, j).id, to), c)
  {
    var from := At(f, b, j).id;
    ReplaceShape(f, from, to);
    if from == to {
      ReplaceNothing(f, to);
    } else {
      ReplacePreserves(f, c, b, j, to);
    }
  }

  lemma FoldConstKeeps(f: Func, c: Cert, b: nat, j: nat)
    requires StrictSsa(f, c) && IsPos(f, b, j) && FoldConst(f, At(f, b, j)).Some?
    ensures Keeps(f, FoldTo(f, b, j, FoldConst(f, At(f, b, j)).value), c)
  {
    var v := At(f, b, j);
    var r := FoldConst(f, v).value;
    forall w: World, env: Env | b in c.live && EnvOk(f, c, w, b, j, env)
      ensures Pure(v.op, v.datum, Args(w, env, ReadOps(v))) == Some(r)
    {
      ConstArgsSound(f, c, w, b, j, env);
      FoldConstIsPure(f, v, Args(w, env, v.operands));
    }
    FoldToKeeps(f, c, b, j, r);
  }

  lemma TimesZeroKeeps(f: Func, c: Cert, b: nat, j: nat, side: nat)
    requires StrictSsa(f, c) && IsPos(f, b, j) && side < 2 && TimesZero(f, At(f, b, j), side)
    ensures Keeps(f, FoldTo(f, b, j, 0), c)
  {
    forall w: World, env: Env | b in c.live && EnvOk(f, c, w, b, j, env)
      ensures Pure(At(f, b, j).op, At(f, b, j).datum, Args(w, env, ReadOps(At(f, b, j)))) == Some(0)
    {
      TimesZeroSound(f, c, w, b, j, env, side);
    }
    FoldToKeeps(f, c, b, j, 0);
  }

  lemma SimplifyKeeps(f: Func, c: Cert, b: nat, j: nat)
    requires StrictSsa(f, c) && IsPos(f, b, j)
    ensures SafeLeft(f, b, j) ==> Keeps(f, SimplifyLeft(f, b, j).0, c)
    ensures SafeRight(f, b, j) ==> Keeps(f, SimplifyRight(f, b, j).0, c)
  {
    var v := At(f, b, j);
    if CopiesLeft(f, v) {
      if SafeLeft(f, b, j) {
        ReplaceKeeps(f, c, b, j, v.operands[0]);
      }
    } else if TimesZero(f, v, 1) {
      TimesZeroKeeps(f, c, b, j, 1);
    }
    if CopiesRight(f, v) {
      if SafeRight(f, b, j) {
        ReplaceKeeps(f, c, b, j, v.operands[1]);
      }
    } else if TimesZero(f, v, 0) {
      TimesZeroKeeps(f, c, b, j, 0);
    }
  }

  lemma VisitKeeps(f: Func, c: Cert, b: nat, j: nat)
    requires StrictSsa(f, c) && IsPos(f, b, j) && SafeVisit(f, b, j)
    ensures Keeps(f, Visit(f, b, j).0, c)
  {
    if FoldConst(f, At(f, b, j)).Some? {
      FoldConstKeeps(f, c, b, j);
    } else {
      SimplifyKeeps(f, c, b, j);
      var g := SimplifyLeft(f, b, j).0;
      SimplifyKeeps(g, c, b, j);
      KeepsTransitive(f, g, SimplifyRight(g, b, j).0, c);
    }
  }

  lemma {:induction false} PassFromKeeps(f: Func, c: Cert, b: nat, j: nat)
    requires StrictSsa(f, c)
    requires b <= |f.blocks| && (b < |f.blocks| ==> j <= |f.blocks[b].values|) && SafeFrom(f, b, j)
    ensures Keeps(f, PassFrom(f, b, j).0, c)
    decreases |f.blocks| - b, if b < |f.blocks| then |f.blocks[b].values| - j else 0
  {
    hide SafeVisit, Visit, StrictSsa;
    if b == |f.blocks| {
    } else if j == |f.blocks[b].values| {
      PassFromKeeps(f, c, b + 1, 0);
    } else {
      VisitKeeps(f, c, b, j);
      var g := Visit(f, b, j).0;
      PassFromKeeps(g, c, b, j + 1);
      KeepsTransitive(f, g, PassFrom(g, b, j + 1).0, c);
    }
  }

  /** Folding passes whose rewrites redirect no branch leave every run of a strict SSA function as it was,
      state for state. */
  lemma {:induction false} FoldingPreservesRuns(f: Func, c: Cert, n: nat)
    requires StrictSsa(f, c) && SafePasses(f, n)
    ensures Keeps(f, Passes(f, n), c)
  {
    hide StrictSsa, SafeFrom;
    if n > 0 {
      FoldingPreservesRuns(f, c, n - 1);
      PassFromKeeps(Passes(f, n - 1), c, 0, 0);
      KeepsTransitive(f, Passes(f, n - 1), Passes(f, n), c);
    }
  }

  // ---- When the loop stops ----

  /** No rule that creates a constant applies anywhere. */
  ghost predicate Saturated(f: Func) {
    forall b: nat, j: nat :: IsPos(f, b, j) ==> NoConstRule(f, At(f, b, j))
  }

  predicate NoConstRule(f: Func, v: Value) {
    FoldConst(f, v).None? && !TimesZero(f, v, 0) && !TimesZero(f, v, 1)
  }

  /** Some value is `x + 0`, `x - 0`, `0 + x`, `x * 1` or `1 * x`. */
  ghost predicate HasCopy(f: Func) {
    exists b: nat, j: nat :: IsPos(f, b, j) && IsCopy(f, At(f, b, j))
  }

  predicate IsCopy(f: Func, v: Value) {
    CopiesLeft(f, v) || CopiesRight(f, v)
  }

  /** The two functions look alike to every rule: same operations, same constants in the same slots. */
  ghost predicate SameProfile(f: Func, g: Func) {
    SameShape(f, g) &&
    forall b: nat, j: nat :: IsPos(f, b, j) ==>
      At(g, b, j).op == At(f, b, j).op && At(g, b, j).datum == At(f, b, j).datum &&
      |At(g, b, j).operands| == |At(f, b, j).operands| &&
      forall i :: 0 <= i < |At(f, b, j).operands| ==>
        ConstOf(g, At(g, b, j).operands[i]) == ConstOf(f, At(f, b, j).operands[i])
  }

  lemma ProfileRules(f: Func, g: Func, b: nat, j: nat)
    requires SameProfile(f, g) && IsPos(f, b, j)
    ensures NoConstRule(f, At(f, b, j)) == NoConstRule(g, At(g, b, j))
    ensures CopiesLeft(f, At(f, b, j)) == CopiesLeft(g, At(g, b, j))
    ensures CopiesRight(f, At(f, b, j)) == CopiesRight(g, At(g, b, j))
    ensures IsCopy(f, At(f, b, j)) == IsCopy(g, At(g, b, j))
  {
    var v, u := At(f, b, j), At(g, b, j);
    assert |u.operands| == |v.operands|;
    if |v.operands| >= 1 {
      assert ConstOf(g, u.operands[0]) == ConstOf(f, v.operands[0]);
    }
    if |v.operands| >= 2 {
      assert ConstOf(g, u.operands[1]) == ConstOf(f, v.operands[1]);
    }
    assert ConstArgs(f, v) == ConstArgs(g, u);
  }

  lemma ProfileTransitive(f: Func, g: Func, h: Func)
    requires SameProfile(f, g) && SameProfile(g, h)
    ensures SameProfile(f, h)
  {
    forall b: nat, j: nat | IsPos(f, b, j)
      ensures At(h, b, j).op == At(f, b, j).op && At(h, b, j).datum == At(f, b, j).datum
      ensures |At(h, b, j).operands| == |At(f, b, j).operands|
      ensures forall i :: 0 <= i < |At(f, b, j).operands| ==>
        ConstOf(h, At(h, b, j).operands[i]) == ConstOf(f, At(f, b, j).operands[i])
    {
      assert IsPos(g, b, j);
    }
  }

  lemma ReplacedLengths(f: Func, from: nat, to: nat, b: nat)
    ensures |ReplaceUses(f, from, to).blocks| == |f.blocks|
    ensures b < |f.blocks| ==> |ReplaceUses(f, from, to).blocks[b].values| == |f.blocks[b].values|
  {
    ReplaceShape(f, from, to);
  }

  lemma ConstAtReplaced(f: Func, from: nat, to: nat, b: nat, j: nat, id: nat)
    requires IsPos(f, b, j)
    ensures IsPos(ReplaceUses(f, from, to), b, j) && At(ReplaceUses(f, from, to), b, j).datum == At(f, b, j).datum
    ensures IsConstAt(ReplaceUses(f, from, to), b, j, id) == IsConstAt(f, b, j, id)
  {
    ReplaceShape(f, from, to);
  }

  lemma {:induction false} ConstFromReplaced(f: Func, from: nat, to: nat, b: nat, j: nat, id: nat)
    requires b <= |f.blocks| && (b < |f.blocks| ==> j <= |f.blocks[b].values|)
    ensures ConstFrom(ReplaceUses(f, from, to), b, j, id) == ConstFrom(f, b, j, id)
    decreases |f.blocks| - b, if b < |f.blocks| then |f.blocks[b].values| - j else 0
  {
    hide ReplaceUses, IsConstAt;
    ReplacedLengths(f, from, to, b);
    if b < |f.blocks| {
      if j == |f.blocks[b].values| {
        ConstFromReplaced(f, from, to, b + 1, 0, id);
      } else {
        ConstAtReplaced(f, from, to, b, j, id);
        ConstFromReplaced(f, from, to, b, j + 1, id);
      }
    }
  }

  /** Rewriting one non-constant into another changes nothing any rule looks at. */
  lemma ReplaceKeepsProfile(f: Func, from: nat, to: nat)
    requires ConstOf(f, from).None? && ConstOf(f, to).None?
    ensures SameProfile(f, ReplaceUses(f, from, to))
  {
    var g := ReplaceUses(f, from, to);
    ReplaceShape(f, from, to);
    forall b: nat, j: nat, i | IsPos(f, b, j) && 0 <= i < |At(f, b, j).operands|
      ensures ConstOf(g, At(g, b, j).operands[i]) == ConstOf(f, At(f, b, j).operands[i])
    {
      assert At(g, b, j).operands[i] == Subst(At(f, b, j).operands[i], from, to);
      ConstFromReplaced(f, from, to, 0, 0, At(g, b, j).operands[i]);
    }
  }

  lemma NotConst(f: Func, b: nat, j: nat)
    requires UniqueIds(f) && IsPos(f, b, j) && !At(f, b, j).op.Const?
    ensures ConstOf(f, At(f, b, j).id).None?
  {
  }

  /** A visit that creates no constant leaves the profile alone and fires exactly on copies. */
  lemma QuietVisit(f: Func, b: nat, j: nat)
    requires UniqueIds(f) && IsPos(f, b, j) && NoConstRule(f, At(f, b, j))
    ensures SameProfile(f, Visit(f, b, j).0) && UniqueIds(Visit(f, b, j).0)
    ensures Visit(f, b, j).1 == IsCopy(f, At(f, b, j))
    ensures !Visit(f, b, j).1 ==> Visit(f, b, j).0 == f
  {
    var v := At(f, b, j);
    if CopiesLeft(f, v) {
      NotConst(f, b, j);
      CopiedIsNotConst(f, v);
      ReplaceKeepsProfile(f, v.id, v.operands[0]);
      var g := ReplaceUses(f, v.id, v.operands[0]);
      ProfileRules(f, g, b, j);
    } else if CopiesRight(f, v) {
      NotConst(f, b, j);
      CopiedIsNotConst(f, v);
      ReplaceKeepsProfile(f, v.id, v.operands[1]);
    }
  }

  lemma CopiedIsNotConst(f: Func, v: Value)
    requires FoldConst(f, v).None?
    ensures CopiesLeft(f, v) ==> ConstOf(f, v.operands[0]).None? && !CopiesRight(f, v)
    ensures CopiesRight(f, v) ==> ConstOf(f, v.operands[1]).None?
  {
    if IsCopy(f, v) && ConstOf(f, v.operands[0]).Some? && ConstOf(f, v.operands[1]).Some? {
      var a, b := ConstOf(f, v.operands[0]).value, ConstOf(f, v.operands[1]).value;
      assert ConstArgs(f, v) == Some([a, b]);
    }
  }

  /** Number of values at or after `(b, j)` that folding could still turn into constants. */
  function CountFoldable(f: Func, b: nat, j: nat): nat
    requires b <= |f.blocks| && (b < |f.blocks| ==> j <= |f.blocks[b].values|)
    decreases |f.blocks| - b, if b < |f.blocks| then |f.blocks[b].values| - j else 0
  {
    if b == |f.blocks| then 0
    else if j == |f.blocks[b].values| then CountFoldable(f, b + 1, 0)
    else (if Foldable(At(f, b, j)) then 1 else 0) + CountFoldable(f, b, j + 1)
  }

  ghost predicate FoldableSubset(f: Func, g: Func) {
    SameShape(f, g) &&
    forall b: nat, j: nat :: IsPos(f, b, j) && Foldable(At(g, b, j)) ==> Foldable(At(f, b, j))
  }

  lemma {:induction false} CountFalls(f: Func, g: Func, b: nat, j: nat, d: nat, k: nat)
    requires FoldableSubset(f, g)
    requires b <= |f.blocks| && (b < |f.blocks| ==> j <= |f.blocks[b].values|)
    ensures CountFoldable(g, b, j) <= CountFoldable(f, b, j)
    ensures IsPos(f, d, k) && Foldable(At(f, d, k)) && !Foldable(At(g, d, k)) && (d > b || (d == b && k >= j)) ==>
      CountFoldable(g, b, j) < CountFoldable(f, b, j)
    decreases |f.blocks| - b, if b < |f.blocks| then |f.blocks[b].values| - j else 0
  {
    if b < |f.blocks| {
      if j == |f.blocks[b].values| {
        CountFalls(f, g, b + 1, 0, d, k);
      } else {
        assert IsPos(f, b, j) && IsPos(g, b, j);
        CountFalls(f, g, b, j + 1, d, k);
      }
    }
  }

  function CountAll(f: Func): nat {
    CountFoldable(f, 0, 0)
  }

  lemma FoldToFalls(f: Func, b: nat, j: nat, r: Int64)
    requires IsPos(f, b, j) && Foldable(At(f, b, j))
    ensures FoldableSubset(f, FoldTo(f, b, j, r)) && UniqueIds(f) ==> UniqueIds(FoldTo(f, b, j, r))
    ensures CountAll(FoldTo(f, b, j, r)) < CountAll(f)
  {
    FoldToShape(f, b, j, r);
    CountFalls(f, FoldTo(f, b, j, r), 0, 0, b, j);
  }

  lemma ProfileCount(f: Func, g: Func)
    requires SameProfile(f, g)
    ensures CountAll(g) <= CountAll(f)
  {
    CountFalls(f, g, 0, 0, 0, 0);
  }

  /** A visit where a constant rule applies creates a constant. */
  lemma NoisyVisit(f: Func, b: nat, j: nat)
    requires UniqueIds(f) && IsPos(f, b, j) && !NoConstRule(f, At(f, b, j))
    ensures UniqueIds(Visit(f, b, j).0) && Visit(f, b, j).1
    ensures CountAll(Visit(f, b, j).0) < CountAll(f)
  {
    hide Pure, ConstOf, CountAll, UniqueIds, ReplaceUses;
    var v := At(f, b, j);
    if FoldConst(f, v).Some? {
      FoldToShape(f, b, j, FoldConst(f, v).value);
      FoldToFalls(f, b, j, FoldConst(f, v).value);
    } else {
      FoldToShape(f, b, j, 0);
      FoldToFalls(f, b, j, 0);
      CopiedIsNotConst(f, v);
    }
  }

  lemma {:induction false} PassFalls(f: Func, b: nat, j: nat, d: nat, k: nat)
    requires UniqueIds(f)
    requires b <= |f.blocks| && (b < |f.blocks| ==> j <= |f.blocks[b].values|)
    ensures UniqueIds(PassFrom(f, b, j).0) && CountAll(PassFrom(f, b, j).0) <= CountAll(f)
    ensures IsPos(f, d, k) && !NoConstRule(f, At(f, d, k)) && (d > b || (d == b && k >= j)) ==>
      PassFrom(f, b, j).1 && CountAll(PassFrom(f, b, j).0) < CountAll(f)
    decreases |f.blocks| - b, if b < |f.blocks| then |f.blocks[b].values| - j else 0
  {
    hide Visit, NoConstRule, CountAll, UniqueIds, SameProfile;
    if b == |f.blocks| {
    } else if j == |f.blocks[b].values| {
      PassFalls(f, b + 1, 0, d, k);
    } else {
      var g := Visit(f, b, j).0;
      if NoConstRule(f, At(f, b, j)) {
        QuietVisit(f, b, j);
        ProfileCount(f, g);
        if IsPos(f, d, k) {
          ProfileRules(f, g, d, k);
        }
      } else {
        NoisyVisit(f, b, j);
      }
      PassFalls(g, b, j + 1, d, k);
    }
  }

  /** A pass over a function in which no constant rule applies: it fires exactly on copies, and
      whatever it rewrites, the same copies are still there for the next pass. */
  lemma {:induction false} QuietPass(f: Func, b: nat, j: nat)
    requires UniqueIds(f) && Saturated(f)
    requires b <= |f.blocks| && (b < |f.blocks| ==> j <= |f.blocks[b].values|)
    ensures SameProfile(f, PassFrom(f, b, j).0) && UniqueIds(PassFrom(f, b, j).0)
    ensures PassFrom(f, b, j).1 <==>
      exists d: nat, k: nat :: IsPos(f, d, k) && (d > b || (d == b && k >= j)) && IsCopy(f, At(f, d, k))
    ensures !PassFrom(f, b, j).1 ==> PassFrom(f, b, j).0 == f
    decreases |f.blocks| - b, if b < |f.blocks| then |f.blocks[b].values| - j else 0
  {
    hide Visit, IsCopy, NoConstRule;
    if b == |f.blocks| {
    } else if j == |f.blocks[b].values| {
      QuietPass(f, b + 1, 0);
    } else {
      var g := Visit(f, b, j).0;
      QuietVisit(f, b, j);
      forall d: nat, k: nat | IsPos(f, d, k)
        ensures NoConstRule(f, At(f, d, k)) == NoConstRule(g, At(g, d, k))
        ensures IsCopy(f, At(f, d, k)) == IsCopy(g, At(g, d, k))
      {
        ProfileRules(f, g, d, k);
      }
      QuietPass(g, b, j + 1);
      ProfileTransitive(f, g, PassFrom(g, b, j + 1).0);
    }
  }

  lemma SaturatedPass(f: Func)
    requires UniqueIds(f) && Saturated(f)
    ensures Saturated(Pass(f)) && UniqueIds(Pass(f))
    ensures HasCopy(Pass(f)) == HasCopy(f) && PassChanges(f) == HasCopy(f)
  {
    QuietPass(f, 0, 0);
    forall d: nat, k: nat | IsPos(f, d, k)
      ensures NoConstRule(f, At(f, d, k)) == NoConstRule(Pass(f), At(Pass(f), d, k))
      ensures IsCopy(f, At(f, d, k)) == IsCopy(Pass(f), At(Pass(f), d, k))
    {
      ProfileRules(f, Pass(f), d, k);
    }
  }

  /** A pass that reports no change has nothing left to do, and did nothing. */
  lemma UnchangedPass(f: Func)
    requires UniqueIds(f) && !PassChanges(f)
    ensures Saturated(f) && !HasCopy(f) && Pass(f) == f
  {
    forall d: nat, k: nat | IsPos(f, d, k)
      ensures NoConstRule(f, At(f, d, k))
    {
      PassFalls(f, 0, 0, d, k);
    }
    QuietPass(f, 0, 0);
  }

  lemma {:induction false} SaturatedForever(f: Func, n: nat)
    requires UniqueIds(f) && Saturated(f)
    ensures UniqueIds(Passes(f, n)) && Saturated(Passes(f, n))
    ensures HasCopy(Passes(f, n)) == HasCopy(f) && PassChanges(Passes(f, n)) == HasCopy(f)
  {
    hide Saturated, HasCopy, PassChanges, Pass, UniqueIds;
    if n == 0 {
      SaturatedPass(f);
    } else {
      SaturatedForever(f, n - 1);
      SaturatedPass(Passes(f, n - 1));
      SaturatedPass(Passes(f, n));
    }
  }

  lemma {:induction false} PassesCount(f: Func, n: nat)
    requires UniqueIds(f)
    ensures UniqueIds(Passes(f, n))
    ensures Saturated(Passes(f, n)) || CountAll(Passes(f, n)) + n <= CountAll(f)
  {
    if n > 0 {
      PassesCount(f, n - 1);
      var g := Passes(f, n - 1);
      PassFalls(g, 0, 0, 0, 0);
      if Saturated(g) {
        SaturatedPass(g);
      } else {
        var d: nat, k: nat :| IsPos(g, d, k) && !NoConstRule(g, At(g, d, k));
        PassFalls(g, 0, 0, d, k);
      }
    }
  }

  /** Constants run out: after as many passes as there are foldable values, no constant rule applies. */
  lemma EventuallySaturated(f: Func)
    requires UniqueIds(f)
    ensures UniqueIds(Passes(f, CountAll(f))) && Saturated(Passes(f, CountAll(f)))
  {
    PassesCount(f, CountAll(f));
    var g := Passes(f, CountAll(f));
    if !Saturated(g) {
      var d: nat, k: nat :| IsPos(g, d, k) && !NoConstRule(g, At(g, d, k));
      PassFalls(g, 0, 0, d, k);
    }
  }

  lemma {:induction false} PassesAdd(f: Func, m: nat, n: nat)
    ensures Passes(f, m + n) == Passes(Passes(f, m), n)
  {
    hide Pass;
    if n > 0 {
      PassesAdd(f, m, n - 1);
    }
  }

  lemma {:induction false} PassesFixed(f: Func, n: nat)
    requires Pass(f) == f
    ensures Passes(f, n) == f
  {
    if n > 0 {
      PassesFixed(f, n - 1);
    }
  }

  /** The loop over passes stops if and only if no copy is left once the constants have run out. */
  lemma LoopStopsSaturated(f: Func)
    requires UniqueIds(f)
    ensures (exists n: nat :: !PassChanges(Passes(f, n))) <==> !HasCopy(Passes(f, CountAll(f)))
  {
    hide PassChanges, Pass, HasCopy, Saturated, CountAll, UniqueIds;
    var N := CountAll(f);
    EventuallySaturated(f);
    SaturatedForever(Passes(f, N), 0);
    if exists n: nat :: !PassChanges(Passes(f, n)) {
      var n: nat :| !PassChanges(Passes(f, n));
      PassesCount(f, n);
      if n <= N {
        UnchangedPass(Passes(f, n));
        PassesFixed(Passes(f, n), N - n);
        PassesAdd(f, n, N - n);
      } else {
        SaturatedForever(Passes(f, N), n - N);
        PassesAdd(f, N, n - N);
      }
    }
  }

  /** `x + 0` with an unknown `x`: every pass rewrites the same uses again and the loop never ends. */
  lemma AddZeroNeverStops(n: nat)
    ensures PassChanges(Passes(AddZero(), n))
  {
    var f := AddZero();
    assert At(f, 0, 1) == Value(1, Const, [], 0, []);
    assert At(f, 0, 2) == Value(2, Add, [0, 1], 0, []);
    NotConst(f, 0, 0);
    assert IsConstAt(f, 0, 1, 1);
    assert ConstOf(f, 1) == Some(0);
    NotConst(f, 0, 2);
    assert IsCopy(f, At(f, 0, 2));
    assert Saturated(f);
    SaturatedForever(f, n);
  }

  function AddZero(): Func {
    Func([Block(0, [Value(0, Call, [], 7, []), Value(1, Const, [], 0, []),
                    Value(2, Add, [0, 1], 0, []), Value(3, Return, [2], 0, [])])], 0)
  }
}
