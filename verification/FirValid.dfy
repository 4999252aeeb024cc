/** What the validator accepts, and that both passes keep it. */
module FirValid {
  import opened Seqs
  import opened Wrappers
  import opened FirSyntax
  import opened FirSemantics
  import opened FirDeadCode
  import opened FirEquiv
  import opened FirFold
  import opened FirFoldLoop

  predicate HasBlock(f: Func, id: int) {
    FindBlock(f, id) < |f.blocks|
  }

  /** Every block a value names exists. A BRANCH with fewer than two operands is not looked at;
      one with exactly two lacks its false target. */
  predicate TargetsExist(f: Func, v: Value) {
    (v.op.Jump? ==> HasBlock(f, v.datum)) &&
    (v.op.Branch? && |v.operands| >= 2 ==>
       |v.operands| >= 3 && HasBlock(f, v.operands[1]) && HasBlock(f, v.operands[2])) &&
    (v.op.Phi? ==> forall p :: 0 <= p < |v.phi| ==> HasBlock(f, v.phi[p].blk))
  }

  /** A block ends at its terminator and has no other. */
  predicate EndsOnce(vs: seq<Value>) {
    |vs| > 0 && forall j :: 0 <= j < |vs| ==> (IsTerminator(vs[j].op) <==> j == |vs| - 1)
  }

  predicate BlockValid(f: Func, b: nat)
    requires b < |f.blocks|
  {
    EndsOnce(f.blocks[b].values) &&
    forall j :: 0 <= j < |f.blocks[b].values| ==> TargetsExist(f, f.blocks[b].values[j])
  }

  predicate Valid(f: Func) {
    |f.blocks| > 0 && f.entry < |f.blocks| &&
    forall b :: 0 <= b < |f.blocks| ==> BlockValid(f, b)
  }

  lemma HasBlockSame(f: Func, g: Func, id: int)
    requires SameBlockIds(f, g)
    ensures HasBlock(f, id) == HasBlock(g, id)
  {
    FindBlockSame(f, g, id);
  }

  lemma TargetsExistSame(f: Func, g: Func, v: Value)
    requires SameBlockIds(f, g)
    ensures TargetsExist(f, v) == TargetsExist(g, v)
  {
    forall id: int {
      HasBlockSame(f, g, id);
    }
  }

  /** Removing a value that is no terminator keeps a valid function valid. */
  lemma RemovalKeepsValid(f: Func, b: nat, j: nat)
    requires Valid(f) && IsPos(f, b, j) && Removable(At(f, b, j))
    ensures Valid(RemoveAt(f, b, j))
  {
    var g := RemoveAt(f, b, j);
    forall d | 0 <= d < |g.blocks|
      ensures BlockValid(g, d)
    {
      assert BlockValid(f, d);
      var vs, us := f.blocks[d].values, g.blocks[d].values;
      assert d != b ==> us == vs;
      assert d == b ==> us == Without(vs, j);
      forall k | 0 <= k < |us|
        ensures TargetsExist(g, us[k])
      {
        var i := if d == b && k >= j then k + 1 else k;
        assert us[k] == vs[i];
        TargetsExistSame(f, g, vs[i]);
      }
      assert EndsOnce(us);
    }
  }

  /** A rewrite of single values that keeps shape, terminators and named blocks keeps validity. */
  lemma RewriteKeepsValid(f: Func, g: Func)
    requires Valid(f) && SameShape(f, g)
    requires forall b: nat, j: nat :: IsPos(f, b, j) ==>
      (TargetsExist(f, At(f, b, j)) ==> TargetsExist(f, At(g, b, j)))
    ensures Valid(g)
  {
    forall b | 0 <= b < |g.blocks|
      ensures BlockValid(g, b)
    {
      assert BlockValid(f, b);
      var vs, us := f.blocks[b].values, g.blocks[b].values;
      forall j | 0 <= j < |us|
        ensures IsTerminator(us[j].op) == IsTerminator(vs[j].op) && TargetsExist(g, us[j])
      {
        assert At(f, b, j) == vs[j] && At(g, b, j) == us[j];
        TargetsExistSame(f, g, us[j]);
      }
    }
  }

  /** `g` is valid when `f` is. */
  ghost predicate StaysValid(f: Func, g: Func) {
    Valid(f) ==> Valid(g)
  }

  lemma FoldToStaysValid(f: Func, b: nat, j: nat, r: Int64)
    requires IsPos(f, b, j) && Foldable(At(f, b, j))
    ensures StaysValid(f, FoldTo(f, b, j, r))
  {
    FoldToShape(f, b, j, r);
    if Valid(f) {
      RewriteKeepsValid(f, FoldTo(f, b, j, r));
    }
  }

  lemma ReplaceStaysValid(f: Func, from: nat, to: nat)
    requires SafeRewrite(f, from, to)
    ensures StaysValid(f, ReplaceUses(f, from, to))
  {
    var g := ReplaceUses(f, from, to);
    ReplaceShape(f, from, to);
    if from == to {
      ReplaceNothing(f, to);
    } else if Valid(f) {
      forall d: nat, k: nat | IsPos(f, d, k)
        ensures TargetsExist(f, At(f, d, k)) ==> TargetsExist(f, At(g, d, k))
      {
        assert At(g, d, k) == ReplaceIn(At(f, d, k), from, to) && !NamesTarget(At(f, d, k), from);
      }
      RewriteKeepsValid(f, g);
    }
  }

  lemma SimplifyStaysValid(f: Func, b: nat, j: nat)
    requires IsPos(f, b, j)
    ensures SafeLeft(f, b, j) ==> StaysValid(f, SimplifyLeft(f, b, j).0)
    ensures SafeRight(f, b, j) ==> StaysValid(f, SimplifyRight(f, b, j).0)
  {
    hide Valid, ReplaceUses;
    var v := At(f, b, j);
    if TimesZero(f, v, 0) || TimesZero(f, v, 1) {
      FoldToStaysValid(f, b, j, 0);
    }
    if CopiesLeft(f, v) && SafeLeft(f, b, j) {
      ReplaceStaysValid(f, v.id, v.operands[0]);
    }
    if CopiesRight(f, v) && SafeRight(f, b, j) {
      ReplaceStaysValid(f, v.id, v.operands[1]);
    }
  }

  lemma VisitStaysValid(f: Func, b: nat, j: nat)
    requires IsPos(f, b, j) && SafeVisit(f, b, j)
    ensures StaysValid(f, Visit(f, b, j).0)
  {
    if FoldConst(f, At(f, b, j)).Some? {
      FoldToStaysValid(f, b, j, FoldConst(f, At(f, b, j)).value);
    } else {
      SimplifyStaysValid(f, b, j);
      SimplifyStaysValid(SimplifyLeft(f, b, j).0, b, j);
    }
  }

  lemma {:induction false} PassFromStaysValid(f: Func, b: nat, j: nat)
    requires b <= |f.blocks| && (b < |f.blocks| ==> j <= |f.blocks[b].values|) && SafeFrom(f, b, j)
    ensures StaysValid(f, PassFrom(f, b, j).0)
    decreases |f.blocks| - b, if b < |f.blocks| then |f.blocks[b].values| - j else 0
  {
    hide Visit, Valid, SafeVisit;
    if b == |f.blocks| {
    } else if j == |f.blocks[b].values| {
      PassFromStaysValid(f, b + 1, 0);
    } else {
      VisitStaysValid(f, b, j);
      PassFromStaysValid(Visit(f, b, j).0, b, j + 1);
    }
  }

  /** Folding whose rewrites redirect no branch keeps a function with no validation errors free of them. */
  lemma {:induction false} PassesStayValid(f: Func, n: nat)
    requires SafePasses(f, n)
    ensures StaysValid(f, Passes(f, n))
  {
    hide Valid, SafeFrom;
    if n > 0 {
      PassesStayValid(f, n - 1);
      PassFromStaysValid(Passes(f, n - 1), 0, 0);
    }
  }

  // ---- Why the branch-target condition is needed ----

  /** Every value names the same branch and jump targets in `g` as in `f`. */
  ghost predicate SameTargets(f: Func, g: Func) {
    SameShape(f, g) && forall b: nat, j: nat :: IsPos(f, b, j) ==> Targets(At(g, b, j)) == Targets(At(f, b, j))
  }

  lemma SameTargetsTransitive(f: Func, g: Func, h: Func)
    requires SameTargets(f, g)
    ensures SameTargets(g, h) <==> SameTargets(f, h)
  {
    hide Targets;
    assert forall b: nat, j: nat :: IsPos(f, b, j) <==> IsPos(g, b, j);
  }

  /** A rewrite leaves every branch target alone exactly when no BRANCH names the rewritten id as a target. */
  lemma TargetsKeptIff(f: Func, from: nat, to: nat)
    ensures SameTargets(f, ReplaceUses(f, from, to)) <==> SafeRewrite(f, from, to)
  {
    var g := ReplaceUses(f, from, to);
    ReplaceShape(f, from, to);
    if from == to {
      ReplaceNothing(f, to);
    } else {
      forall b: nat, j: nat | IsPos(f, b, j)
        ensures Targets(At(g, b, j)) == Targets(At(f, b, j)) <==> !NamesTarget(At(f, b, j), from)
      {
        TargetsOfReplaced(At(f, b, j), from, to);
      }
    }
  }

  lemma TargetsOfReplaced(v: Value, from: nat, to: nat)
    requires from != to
    ensures Targets(ReplaceIn(v, from, to)) == Targets(v) <==> !NamesTarget(v, from)
  {
    var u := ReplaceIn(v, from, to);
    if v.op.Branch? && |v.operands| >= 3 {
      assert Targets(v)[0] == v.operands[1] && Targets(v)[1] == v.operands[2];
      assert Targets(u)[0] == u.operands[1] && Targets(u)[1] == u.operands[2];
    }
  }

  /** A slot that one rewrite changed is not changed back by a second rewrite of the same id. */
  lemma NotChangedBack(f: Func, id: nat, x: nat, y: nat)
    requires x != id && SameTargets(f, ReplaceUses(ReplaceUses(f, id, x), id, y))
    ensures NoTargetIs(f, id)
  {
    var g := ReplaceUses(f, id, x);
    var h := ReplaceUses(g, id, y);
    ReplaceShape(f, id, x);
    ReplaceShape(g, id, y);
    forall b: nat, j: nat | IsPos(f, b, j)
      ensures !NamesTarget(At(f, b, j), id)
    {
      var v, u := At(f, b, j), At(h, b, j);
      assert u == ReplaceIn(ReplaceIn(v, id, x), id, y) && Targets(u) == Targets(v);
      if v.op.Branch? && |v.operands| >= 3 {
        assert Targets(v)[0] == v.operands[1] && Targets(v)[1] == v.operands[2];
        assert Targets(u)[0] == u.operands[1] && Targets(u)[1] == u.operands[2];
      }
    }
  }

  lemma FoldToTargets(f: Func, b: nat, j: nat, r: Int64)
    requires IsPos(f, b, j) && Foldable(At(f, b, j))
    ensures SameTargets(f, FoldTo(f, b, j, r))
  {
    FoldToShape(f, b, j, r);
  }

  lemma RightTargetsIff(f: Func, b: nat, j: nat)
    requires IsPos(f, b, j)
    ensures SameTargets(f, SimplifyRight(f, b, j).0) <==> SafeRight(f, b, j)
  {
    hide SameTargets, SafeRewrite, ReplaceUses;
    var v := At(f, b, j);
    if CopiesRight(f, v) {
      TargetsKeptIff(f, v.id, v.operands[1]);
    } else if TimesZero(f, v, 0) {
      FoldToTargets(f, b, j, 0);
    } else {
      SameTargetsReflexive(f);
    }
  }

  lemma LeftTargetsIff(f: Func, b: nat, j: nat)
    requires IsPos(f, b, j)
    ensures SameTargets(f, SimplifyLeft(f, b, j).0) <==> SafeLeft(f, b, j)
  {
    hide SameTargets, SafeRewrite, ReplaceUses;
    var v := At(f, b, j);
    if CopiesLeft(f, v) {
      TargetsKeptIff(f, v.id, v.operands[0]);
    } else if TimesZero(f, v, 1) {
      FoldToTargets(f, b, j, 0);
    } else {
      SameTargetsReflexive(f);
    }
  }

  lemma SameTargetsReflexive(f: Func)
    ensures SameTargets(f, f)
  {
  }

  /** A left rewrite that redirects a branch is not made good by the right rule. */
  lemma LeftNotUndone(f: Func, b: nat, j: nat)
    requires IsPos(f, b, j)
    requires SameTargets(f, SimplifyRight(SimplifyLeft(f, b, j).0, b, j).0)
    ensures SafeLeft(f, b, j)
  {
    hide SameTargets, ReplaceUses, FoldTo;
    var v, g := At(f, b, j), SimplifyLeft(f, b, j).0;
    if CopiesLeft(f, v) && v.operands[0] != v.id {
      assert g == ReplaceUses(f, v.id, v.operands[0]) && At(g, b, j).id == v.id;
      if CopiesRight(g, At(g, b, j)) {
        NotChangedBack(f, v.id, v.operands[0], At(g, b, j).operands[1]);
      } else {
        UndoneByFold(f, g, SimplifyRight(g, b, j).0, b, j);
        TargetsKeptIff(f, v.id, v.operands[0]);
      }
    }
  }

  lemma UndoneByFold(f: Func, g: Func, h: Func, b: nat, j: nat)
    requires IsPos(g, b, j) && SameTargets(f, h) && SameShape(f, g)
    requires !CopiesRight(g, At(g, b, j)) && h == SimplifyRight(g, b, j).0
    ensures SameTargets(f, g)
  {
    RightTargetsIff(g, b, j);
    assert SameTargets(g, h);
  }

  /** A visit leaves every branch target alone exactly when its rewrites hit none. */
  lemma VisitKeepsTargetsIff(f: Func, b: nat, j: nat)
    requires IsPos(f, b, j)
    ensures SameTargets(f, Visit(f, b, j).0) <==> SafeVisit(f, b, j)
  {
    hide SameTargets, SafeRight, SafeLeft, SimplifyLeft, SimplifyRight, FoldTo;
    if FoldConst(f, At(f, b, j)).Some? {
      FoldToTargets(f, b, j, FoldConst(f, At(f, b, j)).value);
    } else {
      var g := SimplifyLeft(f, b, j).0;
      var h := SimplifyRight(g, b, j).0;
      if SameTargets(f, h) {
        LeftNotUndone(f, b, j);
      }
      LeftTargetsIff(f, b, j);
      RightTargetsIff(g, b, j);
      if SameTargets(f, g) {
        SameTargetsTransitive(f, g, h);
      }
    }
  }

  /** Value 2 is a copy of value 0, and block 2 is a branch target. */
  function Clash(): Func {
    Func([Block(0, [Value(0, Call, [], 7, []), Value(1, Const, [], 0, []),
                    Value(2, Add, [0, 1], 0, []), Value(3, Branch, [0, 2, 1], 0, [])]),
          Block(1, [Value(1024, Return, [], 0, [])]),
          Block(2, [Value(2048, Return, [], 0, [])])], 0)
  }

  /** Rewriting the copy redirects the branch: the function leaves for block 2, the rewritten one loops. */
  lemma ClashRedirects(w: World)
    requires w.oracle(0, [], 0, Call, 7, []) == 1
    ensures Visit(Clash(), 0, 2) == (ReplaceUses(Clash(), 2, 0), true)
    ensures Run(Clash(), w, 1).cur == 2
    ensures Run(ReplaceUses(Clash(), 2, 0), w, 1).cur == 0
  {
    hide Run, Visit, ReplaceUses, UniqueIds;
    ClashVisit();
    ClashRuns(Clash(), w, 2);
    ClashReplaced();
    ClashRuns(ReplaceUses(Clash(), 2, 0), w, 0);
  }

  lemma ClashReplaced()
    ensures SameBlockIds(Clash(), ReplaceUses(Clash(), 2, 0))
    ensures ReplaceUses(Clash(), 2, 0).blocks[0].values ==
            Clash().blocks[0].values[3 := Value(3, Branch, [0, 0, 1], 0, [])]
  {
    var vs := Clash().blocks[0].values;
    assert ReplaceIn(vs[0], 2, 0) == vs[0];
    assert ReplaceIn(vs[1], 2, 0) == vs[1];
    assert ReplaceIn(vs[2], 2, 0) == vs[2];
    assert ReplaceIn(vs[3], 2, 0) == Value(3, Branch, [0, 0, 1], 0, []);
  }

  lemma ClashId(b: nat, j: nat)
    requires IsPos(Clash(), b, j)
    ensures At(Clash(), b, j).id == 1024 * b + j && j < 4
  {
    assert b == 0 || b == 1 || b == 2;
  }

  lemma ClashIds()
    ensures UniqueIds(Clash())
  {
    forall b: nat, j: nat | IsPos(Clash(), b, j)
      ensures At(Clash(), b, j).id == 1024 * b + j && j < 4
    {
      ClashId(b, j);
    }
    hide Clash;
  }

  lemma ClashConsts()
    ensures ConstOf(Clash(), 0) == None && ConstOf(Clash(), 1) == Some(0)
  {
    ClashIds();
    var f := Clash();
    assert At(f, 0, 0) == Value(0, Call, [], 7, []);
    assert At(f, 0, 1) == Value(1, Const, [], 0, []);
    NotConst(f, 0, 0);
    assert IsConstAt(f, 0, 1, 1);
  }

  lemma ClashVisit()
    ensures Visit(Clash(), 0, 2) == (ReplaceUses(Clash(), 2, 0), true)
  {
    hide UniqueIds, ConstOf;
    var f, v := Clash(), At(Clash(), 0, 2);
    ClashIds();
    ClashConsts();
    NotConst(f, 0, 2);
    assert v == Value(2, Add, [0, 1], 0, []);
    assert NoConstRule(f, v) && CopiesLeft(f, v);
    ReplaceKeepsProfile(f, 2, 0);
    ProfileRules(f, ReplaceUses(f, 2, 0), 0, 2);
  }

  lemma ClashRuns(f: Func, w: World, target: nat)
    requires target <= 2 && w.oracle(0, [], 0, Call, 7, []) == 1
    requires SameBlockIds(Clash(), f)
    requires f.blocks[0].values == Clash().blocks[0].values[3 := Value(3, Branch, [0, target, 1], 0, [])]
    ensures Run(f, w, 1).cur == target
  {
    var vs := f.blocks[0].values;
    var st := Start(f);
    assert Run(f, w, 1) == StepBlock(f, w, st);
    var e0 := EnterBlock(f, w, st);
    assert PhiEnv(w, st, vs, 4, map[]) == map[];
    assert PhiEnv(w, st, vs, 3, map[]) == map[];
    assert PhiEnv(w, st, vs, 2, map[]) == map[];
    assert PhiEnv(w, st, vs, 1, map[]) == map[];
    assert e0 == st;
    var e1 := ExecValue(w, e0, vs[0]);
    assert Args(w, e0.env, []) == [];
    assert e1.env[0] == 1;
    var e2 := ExecValue(w, e1, vs[1]);
    var e3 := ExecValue(w, e2, vs[2]);
    assert e3.env[0] == 1;
    assert ExecFrom(f, w, e0, 0, 0) == ExecFrom(f, w, e1, 0, 1) == ExecFrom(f, w, e2, 0, 2);
    assert ExecFrom(f, w, e2, 0, 2) == ExecFrom(f, w, e3, 0, 3);
    assert ExecFrom(f, w, e3, 0, 3) == Terminate(f, w, e3, 0, vs[3]);
    assert FindBlock(f, target) == target by {
      FindBlockSame(Clash(), f, target);
      assert Clash().blocks[0].id == 0 && Clash().blocks[1].id == 1 && Clash().blocks[2].id == 2;
    }
  }
}
