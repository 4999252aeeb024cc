/** What the constant rules can ever find out about a function, computed on the function as it is given:
    the least set of known values. It decides when the folding loop stops and which ids folding rewrites. */
module FirKnown {
  import opened Wrappers
  import opened FirSyntax
  import opened FirSemantics
  import opened FirEquiv
  import opened FirFold
  import opened FirFoldLoop

  /** The constant each id is known to hold, if any. */
  type Knowledge = nat -> Option<Int64>

  /** The first value carrying `id`. */
  function DefOf(f: Func, id: nat): (r: Option<Value>)
    ensures r.Some? ==> exists b: nat, j: nat :: IsPos(f, b, j) && At(f, b, j) == r.value && r.value.id == id
    ensures r.None? ==> forall b: nat, j: nat :: IsPos(f, b, j) ==> At(f, b, j).id != id
  {
    DefFrom(f, 0, 0, id)
  }

  function DefFrom(f: Func, b: nat, j: nat, id: nat): (r: Option<Value>)
    requires b <= |f.blocks| && (b < |f.blocks| ==> j <= |f.blocks[b].values|)
    ensures r.Some? ==> exists d: nat, k: nat :: IsPos(f, d, k) && At(f, d, k) == r.value && r.value.id == id
    ensures r.None? ==> forall d: nat, k: nat ::
      (d > b || (d == b && k >= j)) && IsPos(f, d, k) ==> At(f, d, k).id != id
    decreases |f.blocks| - b, if b < |f.blocks| then |f.blocks[b].values| - j else 0
  {
    if b == |f.blocks| then None
    else if j == |f.blocks[b].values| then DefFrom(f, b + 1, 0, id)
    else if At(f, b, j).id == id then Some(At(f, b, j))
    else DefFrom(f, b, j + 1, id)
  }

  /** The known operands that one of the first four rules needs. */
  function KnownArgs(k: Knowledge, v: Value): Option<seq<Int64>> {
    if Foldable(v) && |v.operands| >= 2 && k(v.operands[0]).Some? && k(v.operands[1]).Some? then
      Some([k(v.operands[0]).value, k(v.operands[1]).value])
    else if v.op.Neg? && |v.operands| >= 1 && k(v.operands[0]).Some? then
      Some([k(v.operands[0]).value])
    else None
  }

  predicate ZeroFactor(k: Knowledge, v: Value) {
    v.op.Mul? && |v.operands| >= 2 && (k(v.operands[0]) == Some(0) || k(v.operands[1]) == Some(0))
  }

  /** What a value is known to be once its operands are known as in `k`. */
  function Infer(k: Knowledge, v: Value): Option<Int64> {
    if v.op.Const? then Some(v.datum)
    else if ZeroFactor(k, v) then Some(0)
    else match KnownArgs(k, v)
      case Some(args) => Pure(v.op, v.datum, args)
      case None => None
  }

  /** What is known after `n` rounds of inference, from nothing. */
  function Know(f: Func, n: nat, id: nat): Option<Int64>
    decreases n, 0
  {
    if n == 0 then None
    else match DefOf(f, id)
      case Some(v) => Infer(After(f, n - 1), v)
      case None => None
  }

  function After(f: Func, n: nat): Knowledge
    decreases n, 1
  {
    id => Know(f, n, id)
  }

  lemma Round(f: Func, n: nat, id: nat)
    ensures After(f, n + 1)(id) == match DefOf(f, id) case Some(v) => Infer(After(f, n), v) case None => None
    ensures After(f, 0)(id) == None
  {
    assert After(f, n + 1)(id) == Know(f, n + 1, id);
  }

  /** Everything that can be known: one round for the constants, and one for each value that can fold. */
  function Learned(f: Func): Knowledge {
    After(f, CountAll(f) + 1)
  }

  // ---- The least fixpoint ----

  ghost predicate Extends(k: Knowledge, k': Knowledge) {
    forall id: nat :: k(id).Some? ==> k'(id) == k(id)
  }

  /** Nothing more follows from `k`. */
  ghost predicate Closed(f: Func, k: Knowledge) {
    forall b: nat, j: nat :: IsPos(f, b, j) && Infer(k, At(f, b, j)).Some? ==>
      k(At(f, b, j).id) == Infer(k, At(f, b, j))
  }

  /** Moreover, everything in `k` follows from it. */
  ghost predicate Fixpoint(f: Func, k: Knowledge) {
    (forall b: nat, j: nat :: IsPos(f, b, j) ==> k(At(f, b, j).id) == Infer(k, At(f, b, j))) &&
    forall id: nat :: DefOf(f, id).None? ==> k(id).None?
  }

  lemma InferMonotone(k: Knowledge, k': Knowledge, v: Value)
    requires Extends(k, k') && Infer(k, v).Some?
    ensures Infer(k', v) == Infer(k, v)
  {
    hide Pure;
    if !v.op.Const? && !ZeroFactor(k, v) {
      var some, args := KnownArgs(k, v).value, KnownArgs(k', v).value;
      assert some <= args;
      PureOfPrefix(v.op, v.datum, args, some);
    }
  }

  lemma DefAt(f: Func, b: nat, j: nat)
    requires UniqueIds(f) && IsPos(f, b, j)
    ensures DefOf(f, At(f, b, j).id) == Some(At(f, b, j))
  {
  }

  lemma {:induction false} KnowGrows(f: Func, n: nat)
    ensures Extends(After(f, n), After(f, n + 1))
  {
    if n == 0 {
      forall id: nat
        ensures After(f, 0)(id).None?
      {
        Round(f, 0, id);
      }
    } else {
      KnowGrows(f, n - 1);
      forall id: nat | After(f, n)(id).Some?
        ensures After(f, n + 1)(id) == After(f, n)(id)
      {
        Round(f, n - 1, id);
        Round(f, n, id);
        InferMonotone(After(f, n - 1), After(f, n), DefOf(f, id).value);
      }
    }
  }

  /** One more round adds nothing. */
  ghost predicate Done(f: Func, n: nat) {
    Extends(After(f, n + 1), After(f, n))
  }

  lemma {:induction false} StaysDone(f: Func, n: nat)
    requires Done(f, n)
    ensures Done(f, n + 1)
  {
    var m := n + 2;
    forall id: nat | After(f, m)(id).Some?
      ensures After(f, n + 1)(id) == After(f, m)(id)
    {
      Round(f, n, id);
      Round(f, n + 1, id);
      InferMonotone(After(f, n + 1), After(f, n), DefOf(f, id).value);
    }
  }

  /** Values at or after `(b, j)` that can fold and are not known after `n` rounds. */
  function Unknown(f: Func, n: nat, b: nat, j: nat): nat
    requires b <= |f.blocks| && (b < |f.blocks| ==> j <= |f.blocks[b].values|)
    decreases |f.blocks| - b, if b < |f.blocks| then |f.blocks[b].values| - j else 0
  {
    if b == |f.blocks| then 0
    else if j == |f.blocks[b].values| then Unknown(f, n, b + 1, 0)
    else (if Foldable(At(f, b, j)) && Know(f, n, At(f, b, j).id).None? then 1 else 0) + Unknown(f, n, b, j + 1)
  }

  lemma {:induction false} UnknownFalls(f: Func, n: nat, b: nat, j: nat, d: nat, k: nat)
    requires b <= |f.blocks| && (b < |f.blocks| ==> j <= |f.blocks[b].values|)
    ensures Unknown(f, n + 1, b, j) <= Unknown(f, n, b, j) <= CountFoldable(f, b, j)
    ensures (IsPos(f, d, k) && Foldable(At(f, d, k)) && (d > b || (d == b && k >= j)) &&
             Know(f, n, At(f, d, k).id).None? && Know(f, n + 1, At(f, d, k).id).Some?)
      ==> Unknown(f, n + 1, b, j) < Unknown(f, n, b, j)
    decreases |f.blocks| - b, if b < |f.blocks| then |f.blocks[b].values| - j else 0
  {
    hide Know, Foldable;
    if b == |f.blocks| {
    } else if j == |f.blocks[b].values| {
      UnknownFalls(f, n, b + 1, 0, d, k);
    } else {
      GrowsAt(f, n, At(f, b, j).id);
      UnknownFalls(f, n, b, j + 1, d, k);
    }
  }

  lemma GrowsAt(f: Func, n: nat, id: nat)
    ensures Know(f, n, id).Some? ==> Know(f, n + 1, id).Some?
  {
    KnowGrows(f, n);
    assert After(f, n)(id) == Know(f, n, id) && After(f, n + 1)(id) == Know(f, n + 1, id);
  }

  lemma {:induction false} RoundsCount(f: Func, n: nat)
    requires n >= 1
    ensures Done(f, n) || Unknown(f, n + 1, 0, 0) + n <= CountAll(f)
  {
    hide Know, Unknown, Infer, CountFoldable;
    if n > 1 {
      RoundsCount(f, n - 1);
      if Done(f, n - 1) {
        StaysDone(f, n - 1);
      }
    }
    if !Done(f, n) {
      var id: nat :| After(f, n + 1)(id).Some? && After(f, n)(id) != After(f, n + 1)(id);
      NewIsFoldable(f, n, id);
      var d: nat, k: nat :| IsPos(f, d, k) && Foldable(At(f, d, k)) && At(f, d, k).id == id;
      assert After(f, n)(id) == Know(f, n, id) && After(f, n + 1)(id) == Know(f, n + 1, id);
      KnowGrows(f, n);
      UnknownFalls(f, n, 0, 0, d, k);
    }
  }

  /** After the first round only values that can fold become known. */
  lemma NewIsFoldable(f: Func, n: nat, id: nat)
    requires n >= 1 && After(f, n + 1)(id).Some? && After(f, n)(id) != After(f, n + 1)(id)
    ensures exists d: nat, k: nat :: IsPos(f, d, k) && Foldable(At(f, d, k)) && At(f, d, k).id == id
  {
    Round(f, n - 1, id);
    Round(f, n, id);
    var v := DefOf(f, id).value;
    assert Infer(After(f, n), v) != Infer(After(f, n - 1), v);
    assert Foldable(v);
  }

  /** What is learned is the least knowledge closed under the rules. */
  lemma LearnedIsLeast(f: Func)
    requires UniqueIds(f)
    ensures Fixpoint(f, Learned(f))
    ensures forall k: Knowledge :: Closed(f, k) ==> Extends(Learned(f), k)
  {
    var n := CountAll(f) + 1;
    RoundsCount(f, n);
    KnowGrows(f, n);
    forall b: nat, j: nat | IsPos(f, b, j)
      ensures Learned(f)(At(f, b, j).id) == Infer(Learned(f), At(f, b, j))
    {
      DefAt(f, b, j);
      Round(f, n, At(f, b, j).id);
    }
    forall id: nat | DefOf(f, id).None?
      ensures Learned(f)(id).None?
    {
      Round(f, n - 1, id);
    }
    forall k: Knowledge | Closed(f, k)
      ensures Extends(Learned(f), k)
    {
      KnowWithin(f, n, k);
    }
  }

  lemma {:induction false} KnowWithin(f: Func, n: nat, k: Knowledge)
    requires Closed(f, k)
    ensures Extends(After(f, n), k)
  {
    if n == 0 {
      forall id: nat
        ensures After(f, 0)(id).None?
      {
        Round(f, 0, id);
      }
    } else {
      KnowWithin(f, n - 1, k);
      forall id: nat | After(f, n)(id).Some?
        ensures k(id) == After(f, n)(id)
      {
        Round(f, n - 1, id);
        var v := DefOf(f, id).value;
        InferMonotone(After(f, n - 1), k, v);
      }
    }
  }

  // ---- Rewrites neither add to what is known nor lose from it ----

  /** The constants a function shows. */
  function Shown(f: Func): Knowledge {
    id => ConstOf(f, id)
  }

  lemma ShownIsLearned(f: Func, k: Knowledge)
    requires UniqueIds(f) && Fixpoint(f, k)
    ensures Extends(Shown(f), k)
  {
    forall id: nat | Shown(f)(id).Some?
      ensures k(id) == Shown(f)(id)
    {
      var b: nat, j: nat :| IsConstAt(f, b, j, id) && At(f, b, j).datum == ConstOf(f, id).value;
      assert k(At(f, b, j).id) == Infer(k, At(f, b, j));
    }
  }

  /** On the constants a function shows, inference is the constant rules. */
  lemma InferShown(f: Func, v: Value)
    requires !v.op.Const?
    ensures FoldConst(f, v).Some? ==> Infer(Shown(f), v) == FoldConst(f, v)
    ensures TimesZero(f, v, 0) || TimesZero(f, v, 1) ==> Infer(Shown(f), v) == Some(0)
    ensures NoConstRule(f, v) <==> Infer(Shown(f), v).None?
  {
    hide Pure;
    var k := Shown(f);
    assert KnownArgs(k, v) == ConstArgs(f, v);
    if ZeroFactor(k, v) && KnownArgs(k, v).Some? {
      TimesNought(v.datum, KnownArgs(k, v).value[0], KnownArgs(k, v).value[1]);
    }
  }

  /** What a value and its copy are known to be is the same. */
  lemma CopyKnown(f: Func, k: Knowledge, b: nat, j: nat, to: nat)
    requires UniqueIds(f) && Fixpoint(f, k) && Copies(f, b, j, to)
    ensures k(At(f, b, j).id) == k(to)
  {
    hide Pure, UniqueIds, ConstOf;
    var v := At(f, b, j);
    ShownIsLearned(f, k);
    var x, y := v.operands[0], v.operands[1];
    assert Shown(f)(x) == ConstOf(f, x) && Shown(f)(y) == ConstOf(f, y);
    if k(x).Some? && k(y).Some? {
      CopyIdentity(v.op, v.datum, [k(x).value, k(y).value]);
      TimesNought(v.datum, k(x).value, k(y).value);
    }
  }

  /** `g` has the values of `f` with each operand replaced by one that is known to be the same. */
  ghost predicate SameOperands(k: Knowledge, v: Value, u: Value) {
    u.id == v.id && u.op == v.op && u.datum == v.datum && |u.operands| == |v.operands| &&
    forall i :: 0 <= i < |v.operands| ==> k(u.operands[i]) == k(v.operands[i])
  }

  lemma InferSame(k: Knowledge, v: Value, u: Value)
    requires SameOperands(k, v, u)
    ensures Infer(k, u) == Infer(k, v)
  {
    hide Pure;
    if |v.operands| >= 1 {
      assert k(u.operands[0]) == k(v.operands[0]);
    }
    if |v.operands| >= 2 {
      assert k(u.operands[1]) == k(v.operands[1]);
    }
    assert KnownArgs(k, u) == KnownArgs(k, v);
  }

  /** A value after the copy `from` was rewritten to `to`. */
  lemma ReplacedSame(k: Knowledge, v: Value, from: nat, to: nat)
    requires k(from) == k(to)
    ensures SameOperands(k, v, ReplaceIn(v, from, to))
  {
  }

  lemma ReplacedCopies(f: Func, b: nat, j: nat, to: nat)
    requires UniqueIds(f) && Copies(f, b, j, to)
    ensures Copies(ReplaceUses(f, At(f, b, j).id, to), b, j, to)
  {
    var v := At(f, b, j);
    var g := ReplaceUses(f, v.id, to);
    ReplaceShape(f, v.id, to);
    NotConst(f, b, j);
    assert At(g, b, j) == ReplaceIn(v, v.id, to);
    ConstFromReplaced(f, v.id, to, 0, 0, v.operands[0]);
    ConstFromReplaced(f, v.id, to, 0, 0, v.operands[1]);
  }

  ghost predicate SameKnowledge(f: Func, g: Func) {
    forall id: nat :: Learned(g)(id) == Learned(f)(id)
  }

  lemma MutualKnowledge(f: Func, g: Func)
    requires UniqueIds(f) && UniqueIds(g)
    requires Closed(f, Learned(g)) && Closed(g, Learned(f))
    ensures SameKnowledge(f, g)
  {
    LearnedIsLeast(f);
    LearnedIsLeast(g);
    forall id: nat
      ensures Learned(g)(id) == Learned(f)(id)
    {
    }
  }

  lemma ReplaceClosed(f: Func, g: Func, k: Knowledge, from: nat, to: nat)
    requires g == ReplaceUses(f, from, to) && k(from) == k(to)
    ensures Closed(f, k) <==> Closed(g, k)
  {
    hide Infer;
    ReplaceShape(f, from, to);
    forall b: nat, j: nat | IsPos(f, b, j)
      ensures At(g, b, j).id == At(f, b, j).id && Infer(k, At(g, b, j)) == Infer(k, At(f, b, j))
    {
      ReplacedSame(k, At(f, b, j), from, to);
      InferSame(k, At(f, b, j), At(g, b, j));
    }
  }

  lemma ReplaceKeepsKnowledge(f: Func, b: nat, j: nat, to: nat)
    requires UniqueIds(f) && Copies(f, b, j, to)
    ensures UniqueIds(ReplaceUses(f, At(f, b, j).id, to)) && SameKnowledge(f, ReplaceUses(f, At(f, b, j).id, to))
    ensures Learned(f)(At(f, b, j).id) == Learned(f)(to)
  {
    hide Infer, Learned;
    var from := At(f, b, j).id;
    var g := ReplaceUses(f, from, to);
    ReplaceShape(f, from, to);
    LearnedIsLeast(f);
    LearnedIsLeast(g);
    CopyKnown(f, Learned(f), b, j, to);
    ReplacedCopies(f, b, j, to);
    CopyKnown(g, Learned(g), b, j, to);
    ReplaceClosed(f, g, Learned(f), from, to);
    ReplaceClosed(f, g, Learned(g), from, to);
    MutualKnowledge(f, g);
  }

  /** The constant `c` is what the rules show `(b, j)` to be. */
  ghost predicate Deduced(f: Func, b: nat, j: nat, c: Int64) {
    IsPos(f, b, j) && Foldable(At(f, b, j)) && Infer(Shown(f), At(f, b, j)) == Some(c)
  }

  lemma FoldToClosed(f: Func, b: nat, j: nat, c: Int64, k: Knowledge)
    requires UniqueIds(f) && Deduced(f, b, j, c) && Extends(Shown(f), k) && k(At(f, b, j).id) == Some(c)
    ensures Closed(f, k) <==> Closed(FoldTo(f, b, j, c), k)
  {
    hide Pure;
    var g := FoldTo(f, b, j, c);
    FoldToShape(f, b, j, c);
    InferMonotone(Shown(f), k, At(f, b, j));
    forall d: nat, i: nat | IsPos(f, d, i)
      ensures At(g, d, i).id == At(f, d, i).id && Infer(k, At(g, d, i)) == Infer(k, At(f, d, i))
    {
    }
  }

  lemma FoldToShows(f: Func, b: nat, j: nat, c: Int64)
    requires UniqueIds(f) && IsPos(f, b, j) && Foldable(At(f, b, j))
    ensures UniqueIds(FoldTo(f, b, j, c)) && Extends(Shown(f), Shown(FoldTo(f, b, j, c)))
    ensures Shown(FoldTo(f, b, j, c))(At(f, b, j).id) == Some(c)
  {
    var g := FoldTo(f, b, j, c);
    FoldToShape(f, b, j, c);
    forall id: nat | Shown(f)(id).Some?
      ensures Shown(g)(id) == Shown(f)(id)
    {
      var d: nat, i: nat :| IsConstAt(f, d, i, id) && At(f, d, i).datum == ConstOf(f, id).value;
      assert At(g, d, i) == At(f, d, i);
      ShownAt(g, d, i);
    }
    assert At(g, b, j) == Folded(At(f, b, j), c);
    ShownAt(g, b, j);
  }

  lemma ShownAt(f: Func, b: nat, j: nat)
    requires UniqueIds(f) && IsPos(f, b, j) && At(f, b, j).op.Const?
    ensures Shown(f)(At(f, b, j).id) == Some(At(f, b, j).datum)
  {
    assert IsConstAt(f, b, j, At(f, b, j).id);
    var d: nat, i: nat :| IsConstAt(f, d, i, At(f, b, j).id) && At(f, d, i).datum == ConstOf(f, At(f, b, j).id).value;
  }

  lemma FoldToKeepsKnowledge(f: Func, b: nat, j: nat, c: Int64)
    requires UniqueIds(f) && Deduced(f, b, j, c)
    ensures UniqueIds(FoldTo(f, b, j, c)) && SameKnowledge(f, FoldTo(f, b, j, c))
    ensures Learned(f)(At(f, b, j).id) == Some(c)
  {
    hide Learned, Infer, FoldTo;
    var g := FoldTo(f, b, j, c);
    FoldToShape(f, b, j, c);
    FoldToShows(f, b, j, c);
    LearnedIsLeast(f);
    LearnedIsLeast(g);
    ShownIsLearned(f, Learned(f));
    ShownIsLearned(g, Learned(g));
    InferMonotone(Shown(f), Learned(f), At(f, b, j));
    assert Extends(Shown(f), Learned(g));
    FoldToClosed(f, b, j, c, Learned(f));
    FoldToClosed(f, b, j, c, Learned(g));
    MutualKnowledge(f, g);
  }

  // ---- When the folding loop stops ----

  /** ADD, SUB or MUL with an operand known to be neutral: a form of `x + 0`, `x - 0` or `x * 1`. */
  predicate NeutralOp(k: Knowledge, v: Value) {
    |v.operands| >= 2 &&
    (((v.op.Add? || v.op.Sub?) && k(v.operands[1]) == Some(0)) || (v.op.Add? && k(v.operands[0]) == Some(0)) ||
     (v.op.Mul? && (k(v.operands[0]) == Some(1) || k(v.operands[1]) == Some(1))))
  }

  /** Some value has a known neutral operand, and no known result. */
  ghost predicate HasNeutral(f: Func) {
    exists b: nat, j: nat :: IsPos(f, b, j) && Neutral(Learned(f), At(f, b, j))
  }

  predicate Neutral(k: Knowledge, v: Value) {
    NeutralOp(k, v) && k(v.id).None?
  }

  /** No BRANCH names as a target the id of a value with a known neutral operand. */
  ghost predicate NeutralSafe(f: Func) {
    forall b: nat, j: nat :: IsPos(f, b, j) && NeutralOp(Learned(f), At(f, b, j)) ==> NoTargetIs(f, At(f, b, j).id)
  }

  /** What a rewrite leaves as it was: knowledge, and which values with an unknown result have a neutral
      operand; no further value gets one. */
  ghost predicate SameNeutrals(f: Func, g: Func) {
    SameShape(f, g) && SameKnowledge(f, g) &&
    forall b: nat, j: nat :: IsPos(f, b, j) ==>
      Neutral(Learned(g), At(g, b, j)) == Neutral(Learned(f), At(f, b, j)) &&
      (NeutralOp(Learned(g), At(g, b, j)) ==> NeutralOp(Learned(f), At(f, b, j)))
  }

  lemma SameNeutralsTransitive(f: Func, g: Func, h: Func)
    requires SameNeutrals(f, g) && SameNeutrals(g, h)
    ensures SameNeutrals(f, h)
  {
    hide Neutral, NeutralOp, Learned;
    assert forall b: nat, j: nat :: IsPos(f, b, j) ==> IsPos(g, b, j);
  }

  lemma NeutralSame(k: Knowledge, v: Value, u: Value)
    requires SameOperands(k, v, u)
    ensures NeutralOp(k, u) == NeutralOp(k, v) && Neutral(k, u) == Neutral(k, v)
  {
    if |v.operands| >= 2 {
      assert k(u.operands[0]) == k(v.operands[0]) && k(u.operands[1]) == k(v.operands[1]);
    }
  }

  /** Knowledge is used only through its answers. */
  lemma NeutralAsKnown(k: Knowledge, k': Knowledge, v: Value)
    requires forall id: nat :: k'(id) == k(id)
    ensures NeutralOp(k', v) == NeutralOp(k, v) && Neutral(k', v) == Neutral(k, v)
  {
  }

  lemma ReplaceKeepsNeutrals(f: Func, b: nat, j: nat, to: nat)
    requires UniqueIds(f) && Copies(f, b, j, to)
    ensures SameNeutrals(f, ReplaceUses(f, At(f, b, j).id, to))
  {
    hide Neutral, NeutralOp, Learned;
    var from := At(f, b, j).id;
    var g := ReplaceUses(f, from, to);
    ReplaceShape(f, from, to);
    ReplaceKeepsKnowledge(f, b, j, to);
    forall d: nat, i: nat | IsPos(f, d, i)
      ensures Neutral(Learned(g), At(g, d, i)) == Neutral(Learned(f), At(f, d, i))
      ensures NeutralOp(Learned(g), At(g, d, i)) == NeutralOp(Learned(f), At(f, d, i))
    {
      ReplacedSame(Learned(f), At(f, d, i), from, to);
      NeutralSame(Learned(f), At(f, d, i), At(g, d, i));
      NeutralAsKnown(Learned(f), Learned(g), At(g, d, i));
    }
  }

  lemma FoldToKeepsNeutrals(f: Func, b: nat, j: nat, c: Int64)
    requires UniqueIds(f) && Deduced(f, b, j, c)
    ensures SameNeutrals(f, FoldTo(f, b, j, c))
  {
    hide Learned, FoldTo, Infer;
    var g := FoldTo(f, b, j, c);
    FoldToShape(f, b, j, c);
    FoldToKeepsKnowledge(f, b, j, c);
    forall d: nat, i: nat | IsPos(f, d, i)
      ensures Neutral(Learned(g), At(g, d, i)) == Neutral(Learned(f), At(f, d, i))
      ensures NeutralOp(Learned(g), At(g, d, i)) ==> NeutralOp(Learned(f), At(f, d, i))
    {
      NeutralAsKnown(Learned(f), Learned(g), At(g, d, i));
    }
  }

  lemma SimplifyKeepsNeutrals(f: Func, b: nat, j: nat)
    requires UniqueIds(f) && IsPos(f, b, j)
    ensures UniqueIds(SimplifyLeft(f, b, j).0) && SameNeutrals(f, SimplifyLeft(f, b, j).0)
    ensures UniqueIds(SimplifyRight(f, b, j).0) && SameNeutrals(f, SimplifyRight(f, b, j).0)
  {
    hide SameNeutrals, ReplaceUses, FoldTo, Infer, Learned;
    var v := At(f, b, j);
    NoNeutralChange(f);
    if TimesZero(f, v, 0) || TimesZero(f, v, 1) {
      InferShown(f, v);
      FoldToKeepsKnowledge(f, b, j, 0);
      FoldToKeepsNeutrals(f, b, j, 0);
    }
    if CopiesLeft(f, v) {
      ReplaceKeepsKnowledge(f, b, j, v.operands[0]);
      ReplaceKeepsNeutrals(f, b, j, v.operands[0]);
    }
    if CopiesRight(f, v) {
      ReplaceKeepsKnowledge(f, b, j, v.operands[1]);
      ReplaceKeepsNeutrals(f, b, j, v.operands[1]);
    }
  }

  lemma NoNeutralChange(f: Func)
    ensures SameNeutrals(f, f)
  {
  }

  lemma VisitKeepsNeutrals(f: Func, b: nat, j: nat)
    requires UniqueIds(f) && IsPos(f, b, j)
    ensures UniqueIds(Visit(f, b, j).0) && SameNeutrals(f, Visit(f, b, j).0)
  {
    hide SameNeutrals, SimplifyLeft, SimplifyRight, FoldTo, Infer, UniqueIds;
    var v := At(f, b, j);
    if FoldConst(f, v).Some? {
      InferShown(f, v);
      FoldToKeepsKnowledge(f, b, j, FoldConst(f, v).value);
      FoldToKeepsNeutrals(f, b, j, FoldConst(f, v).value);
    } else {
      var g := SimplifyLeft(f, b, j).0;
      SimplifyKeepsNeutrals(f, b, j);
      SimplifyKeepsNeutrals(g, b, j);
      SameNeutralsTransitive(f, g, SimplifyRight(g, b, j).0);
    }
  }

  lemma {:induction false} PassFromKeepsNeutrals(f: Func, b: nat, j: nat)
    requires UniqueIds(f)
    requires b <= |f.blocks| && (b < |f.blocks| ==> j <= |f.blocks[b].values|)
    ensures UniqueIds(PassFrom(f, b, j).0) && SameNeutrals(f, PassFrom(f, b, j).0)
    decreases |f.blocks| - b, if b < |f.blocks| then |f.blocks[b].values| - j else 0
  {
    hide SameNeutrals, Visit, UniqueIds;
    if b == |f.blocks| {
      NoNeutralChange(f);
    } else if j == |f.blocks[b].values| {
      PassFromKeepsNeutrals(f, b + 1, 0);
    } else {
      var g := Visit(f, b, j).0;
      VisitKeepsNeutrals(f, b, j);
      PassFromKeepsNeutrals(g, b, j + 1);
      SameNeutralsTransitive(f, g, PassFrom(g, b, j + 1).0);
    }
  }

  /** Folding passes neither add to what is known nor lose from it. */
  lemma {:induction false} PassesKeepNeutrals(f: Func, n: nat)
    requires UniqueIds(f)
    ensures UniqueIds(Passes(f, n)) && SameNeutrals(f, Passes(f, n))
  {
    hide SameNeutrals, UniqueIds;
    if n == 0 {
      NoNeutralChange(f);
    } else {
      PassesKeepNeutrals(f, n - 1);
      PassFromKeepsNeutrals(Passes(f, n - 1), 0, 0);
      SameNeutralsTransitive(f, Passes(f, n - 1), Passes(f, n));
    }
  }

  /** Once the constant rules have run out, what is known is what is shown. */
  lemma SaturatedShowsAll(f: Func)
    requires UniqueIds(f) && Saturated(f)
    ensures forall id: nat :: Learned(f)(id) == ConstOf(f, id)
  {
    hide Infer, Learned, NoConstRule;
    LearnedIsLeast(f);
    ShownIsLearned(f, Learned(f));
    forall b: nat, j: nat | IsPos(f, b, j) && Infer(Shown(f), At(f, b, j)).Some?
      ensures Shown(f)(At(f, b, j).id) == Infer(Shown(f), At(f, b, j))
    {
      InferShown1(f, b, j);
    }
    assert Closed(f, Shown(f));
    assert Extends(Learned(f), Shown(f)) && Extends(Shown(f), Learned(f));
    forall id: nat
      ensures Learned(f)(id) == ConstOf(f, id)
    {
      assert Shown(f)(id) == ConstOf(f, id);
      assert Learned(f)(id).Some? || Shown(f)(id).Some? ==> Learned(f)(id) == Shown(f)(id);
    }
  }

  lemma InferShown1(f: Func, b: nat, j: nat)
    requires UniqueIds(f) && IsPos(f, b, j) && NoConstRule(f, At(f, b, j)) && Infer(Shown(f), At(f, b, j)).Some?
    ensures Shown(f)(At(f, b, j).id) == Infer(Shown(f), At(f, b, j))
  {
    if At(f, b, j).op.Const? {
      ShownAt(f, b, j);
    } else {
      InferShown(f, At(f, b, j));
    }
  }

  lemma CopyIsNeutral(f: Func, b: nat, j: nat)
    requires UniqueIds(f) && Saturated(f) && IsPos(f, b, j)
    ensures IsCopy(f, At(f, b, j)) == Neutral(Learned(f), At(f, b, j))
  {
    hide Learned;
    SaturatedShowsAll(f);
    var v := At(f, b, j);
    if !v.op.Const? {
      NotConst(f, b, j);
    }
  }

  /** The loop over passes stops if and only if no ADD, SUB or MUL with an unknown result has an operand
      known to be neutral: 0 on the right of ADD or SUB or on the left of ADD, 1 on either side of MUL. */
  lemma LoopStopsIff(f: Func)
    requires UniqueIds(f)
    ensures (exists n: nat :: !PassChanges(Passes(f, n))) <==> !HasNeutral(f)
  {
    hide Neutral, IsCopy, Learned, Saturated, UniqueIds, PassChanges, CountAll, SameKnowledge;
    var g := Passes(f, CountAll(f));
    LoopStopsSaturated(f);
    EventuallySaturated(f);
    PassesKeepNeutrals(f, CountAll(f));
    forall b: nat, j: nat | IsPos(f, b, j)
      ensures IsPos(g, b, j) && IsCopy(g, At(g, b, j)) == Neutral(Learned(f), At(f, b, j))
    {
      CopyIsNeutral(g, b, j);
    }
    assert forall b: nat, j: nat :: IsPos(g, b, j) ==> IsPos(f, b, j);
  }

  // ---- Which branches folding can redirect ----

  lemma CopyHasNeutral(f: Func, b: nat, j: nat)
    requires UniqueIds(f) && IsPos(f, b, j) && IsCopy(f, At(f, b, j))
    ensures NeutralOp(Learned(f), At(f, b, j))
  {
    hide Learned, Infer;
    LearnedIsLeast(f);
    ShownIsLearned(f, Learned(f));
    var v := At(f, b, j);
    assert Shown(f)(v.operands[0]) == ConstOf(f, v.operands[0]) && Shown(f)(v.operands[1]) == ConstOf(f, v.operands[1]);
  }

  /** The condition on `f` carries over to a function with the same neutral operands and no new target names. */
  lemma NeutralSafeCarries(f: Func, g: Func)
    requires NeutralSafe(f) && SameNeutrals(f, g)
    requires forall id: nat :: NoTargetIs(f, id) ==> NoTargetIs(g, id)
    ensures NeutralSafe(g)
  {
    hide NeutralOp, Neutral, Learned, NoTargetIs;
    assert forall b: nat, j: nat :: IsPos(g, b, j) ==> IsPos(f, b, j) && At(g, b, j).id == At(f, b, j).id;
  }

  lemma ReplaceNames(f: Func, from: nat, to: nat, id: nat)
    requires SafeRewrite(f, from, to) && NoTargetIs(f, id)
    ensures NoTargetIs(ReplaceUses(f, from, to), id)
  {
    ReplaceShape(f, from, to);
    var g := ReplaceUses(f, from, to);
    forall b: nat, j: nat | IsPos(g, b, j)
      ensures !NamesTarget(At(g, b, j), id)
    {
      assert At(g, b, j) == ReplaceIn(At(f, b, j), from, to) && !NamesTarget(At(f, b, j), id);
    }
  }

  lemma FoldToNames(f: Func, b: nat, j: nat, c: Int64, id: nat)
    requires IsPos(f, b, j) && Foldable(At(f, b, j)) && NoTargetIs(f, id)
    ensures NoTargetIs(FoldTo(f, b, j, c), id)
  {
    FoldToShape(f, b, j, c);
  }

  lemma SimplifyNames(f: Func, b: nat, j: nat, id: nat)
    requires IsPos(f, b, j) && NoTargetIs(f, id)
    ensures SafeLeft(f, b, j) ==> NoTargetIs(SimplifyLeft(f, b, j).0, id)
    ensures SafeRight(f, b, j) ==> NoTargetIs(SimplifyRight(f, b, j).0, id)
  {
    hide NoTargetIs, ReplaceUses, FoldTo;
    var v := At(f, b, j);
    if TimesZero(f, v, 0) || TimesZero(f, v, 1) {
      FoldToNames(f, b, j, 0, id);
    }
    if CopiesLeft(f, v) && SafeLeft(f, b, j) {
      ReplaceNames(f, v.id, v.operands[0], id);
    }
    if CopiesRight(f, v) && SafeRight(f, b, j) {
      ReplaceNames(f, v.id, v.operands[1], id);
    }
  }

  lemma VisitNames(f: Func, b: nat, j: nat, id: nat)
    requires IsPos(f, b, j) && SafeVisit(f, b, j) && NoTargetIs(f, id)
    ensures NoTargetIs(Visit(f, b, j).0, id)
  {
    hide NoTargetIs, SimplifyLeft, SimplifyRight, SafeLeft, SafeRight, FoldTo;
    if FoldConst(f, At(f, b, j)).Some? {
      FoldToNames(f, b, j, FoldConst(f, At(f, b, j)).value, id);
    } else {
      SimplifyNames(f, b, j, id);
      SimplifyNames(SimplifyLeft(f, b, j).0, b, j, id);
    }
  }

  lemma NeutralSafeRules(f: Func, b: nat, j: nat)
    requires UniqueIds(f) && NeutralSafe(f) && IsPos(f, b, j)
    ensures SafeLeft(f, b, j) && SafeRight(f, b, j)
  {
    hide Learned, NeutralOp, NoTargetIs;
    if IsCopy(f, At(f, b, j)) {
      CopyHasNeutral(f, b, j);
    }
  }

  lemma NeutralSafeVisit(f: Func, b: nat, j: nat)
    requires UniqueIds(f) && NeutralSafe(f) && IsPos(f, b, j)
    ensures SafeVisit(f, b, j) && UniqueIds(Visit(f, b, j).0) && NeutralSafe(Visit(f, b, j).0)
  {
    hide NeutralSafe, SimplifyRight, UniqueIds, SameNeutrals, SafeRight, SafeLeft, NoTargetIs;
    NeutralSafeRules(f, b, j);
    if FoldConst(f, At(f, b, j)).None? {
      var g := SimplifyLeft(f, b, j).0;
      SimplifyKeepsNeutrals(f, b, j);
      forall id: nat | NoTargetIs(f, id)
        ensures NoTargetIs(g, id)
      {
        SimplifyNames(f, b, j, id);
      }
      NeutralSafeCarries(f, g);
      NeutralSafeRules(g, b, j);
    }
    VisitKeepsNeutrals(f, b, j);
    forall id: nat | NoTargetIs(f, id)
      ensures NoTargetIs(Visit(f, b, j).0, id)
    {
      VisitNames(f, b, j, id);
    }
    NeutralSafeCarries(f, Visit(f, b, j).0);
  }

  lemma {:induction false} NeutralSafeFrom(f: Func, b: nat, j: nat)
    requires UniqueIds(f) && NeutralSafe(f)
    requires b <= |f.blocks| && (b < |f.blocks| ==> j <= |f.blocks[b].values|)
    ensures SafeFrom(f, b, j) && UniqueIds(PassFrom(f, b, j).0) && NeutralSafe(PassFrom(f, b, j).0)
    decreases |f.blocks| - b, if b < |f.blocks| then |f.blocks[b].values| - j else 0
  {
    hide NeutralSafe, Visit, UniqueIds, SafeVisit;
    if b == |f.blocks| {
    } else if j == |f.blocks[b].values| {
      NeutralSafeFrom(f, b + 1, 0);
    } else {
      NeutralSafeVisit(f, b, j);
      NeutralSafeFrom(Visit(f, b, j).0, b, j + 1);
    }
  }

  /** If no BRANCH names a value with a known neutral operand, no rewrite of any pass redirects a branch. */
  lemma {:induction false} NeutralSafePasses(f: Func, n: nat)
    requires UniqueIds(f) && NeutralSafe(f)
    ensures SafePasses(f, n) && UniqueIds(Passes(f, n)) && NeutralSafe(Passes(f, n))
  {
    hide NeutralSafe, UniqueIds, SafeFrom, PassFrom;
    if n > 0 {
      NeutralSafePasses(f, n - 1);
      NeutralSafeFrom(Passes(f, n - 1), 0, 0);
    }
  }

  /** In particular if no BRANCH names an ADD, SUB or MUL at all. */
  lemma BranchSafeIsSafe(f: Func, n: nat)
    requires UniqueIds(f)
    requires forall b: nat, j: nat :: IsPos(f, b, j) && (At(f, b, j).op.Add? || At(f, b, j).op.Sub? || At(f, b, j).op.Mul?) ==>
      NoTargetIs(f, At(f, b, j).id)
    ensures SafePasses(f, n)
  {
    hide Learned, UniqueIds, SafePasses;
    NeutralSafePasses(f, n);
  }
}
