/** The passes as the compiler runs them: loops that rewrite a function in place. */
module FirPasses {
  import opened Seqs
  import opened Wrappers
  import opened FirSyntax
  import opened FirSemantics
  import opened FirSsa
  import opened FirEquiv
  import opened FirDeadCode
  import opened FirFold
  import opened FirFoldLoop
  import opened FirKnown
  import opened FirValid
  import opened FirOptimize

  function TotalFrom(f: Func, b: nat): nat
    requires b <= |f.blocks|
    decreases |f.blocks| - b
  {
    if b == |f.blocks| then 0 else |f.blocks[b].values| + TotalFrom(f, b + 1)
  }

  /** Number of values in the whole function. */
  function TotalValues(f: Func): nat {
    TotalFrom(f, 0)
  }

  lemma {:induction false} RemovalShrinks(f: Func, b: nat, j: nat, d: nat)
    requires IsPos(f, b, j) && d <= |f.blocks|
    ensures TotalFrom(RemoveAt(f, b, j), d) == TotalFrom(f, d) - (if d <= b then 1 else 0)
    decreases |f.blocks| - d
  {
    if d < |f.blocks| {
      RemovalShrinks(f, b, j, d + 1);
    }
  }

  /** What every stage of dead-code elimination guarantees about the function it started from. */
  ghost predicate Reduces(f: Func, g: Func) {
    SameMeaning(f, g) &&
    (Valid(f) ==> Valid(g)) &&
    (UniqueIds(f) ==> UniqueIds(g)) &&
    (UniqueIds(f) && Settled(f) ==> Settled(g)) &&
    (forall c: Cert :: StrictSsa(f, c) ==> StrictSsa(g, c)) &&
    (NoDeadCode(f) ==> g == f)
  }

  lemma ReducesStep(f: Func, g: Func, b: nat, j: nat)
    requires Reduces(f, g)
    requires IsPos(g, b, j) && Removable(At(g, b, j)) && !Used(g, At(g, b, j).id)
    ensures Reduces(f, RemoveAt(g, b, j))
    ensures TotalValues(RemoveAt(g, b, j)) == TotalValues(g) - 1
  {
    hide Valid, StrictSsa, UniqueIds, Settled, SameMeaning;
    var h := RemoveAt(g, b, j);
    RemovalShrinks(g, b, j, 0);
    RemovalPreservesMeaning(g, b, j);
    SameMeaningTransitive(f, g, h);
    if Valid(f) {
      RemovalKeepsValid(g, b, j);
    }
    if UniqueIds(f) {
      RemovedUnique(g, b, j);
      if Settled(f) {
        RemovalKeepsSettled(g, b, j);
      }
    }
    forall c: Cert | StrictSsa(f, c)
      ensures StrictSsa(h, c)
    {
      RemovalKeepsStrict(g, c, b, j);
    }
  }

  /** No rewrite of any folding pass redirects a branch. */
  ghost predicate AlwaysSafe(f: Func) {
    forall n: nat :: SafePasses(f, n)
  }

  /** What folding guarantees about the function it started from. */
  ghost predicate Folds(f: Func, g: Func) {
    (exists n: nat :: g == Passes(f, n)) &&
    (AlwaysSafe(f) && Valid(f) ==> Valid(g)) &&
    (UniqueIds(f) ==> UniqueIds(g)) &&
    (forall c: Cert :: StrictSsa(f, c) && AlwaysSafe(f) ==> StrictSsa(g, c) && SameRuns(f, g)) &&
    (UniqueIds(f) && Settled(f) ==> g == f)
  }

  lemma FoldsPasses(f: Func, n: nat)
    ensures Folds(f, Passes(f, n))
  {
    hide Valid, SafePasses, StrictSsa, UniqueIds, SameRuns, Pass, Settled;
    if AlwaysSafe(f) {
      PassesStayValid(f, n);
    }
    if UniqueIds(f) {
      PassesCount(f, n);
      if Settled(f) {
        SettledIff(f);
        PassesFixed(f, n);
      }
    }
    forall c: Cert | StrictSsa(f, c) && AlwaysSafe(f)
      ensures StrictSsa(Passes(f, n), c) && SameRuns(f, Passes(f, n))
    {
      FoldingPreservesRuns(f, c, n);
    }
  }

  /** A function all of whose branches are safe, by what can be read off it. */
  lemma AlwaysSafeIfNeutralSafe(f: Func)
    requires UniqueIds(f) && NeutralSafe(f)
    ensures AlwaysSafe(f)
  {
    hide NeutralSafe, UniqueIds, SafePasses;
    forall n: nat
      ensures SafePasses(f, n)
    {
      NeutralSafePasses(f, n);
    }
  }

  lemma SameRunsMeaning(f: Func, g: Func)
    requires SameRuns(f, g)
    ensures SameMeaning(f, g)
  {
    forall w: World, k: nat
      ensures Observe(Run(f, w, k)) == Observe(Run(g, w, k))
    {
      assert Run(f, w, k) == Run(g, w, k);
    }
  }

  /** The folder's value of an arithmetic `op` on two constants, unless it divides by zero. */
  method FoldArith(op: Op, a: Int64, b: Int64) returns (valid: bool, result: Int64)
    requires IsArith(op)
    ensures forall datum: Int64 :: Pure(op, datum, [a, b]) == if valid then Some(result) else None
  {
    hide Wrap64, TruncDiv, TruncMod, Bits, Signed, Pow2;
    valid, result := true, 0;
    match op
    case Add => result := Wrap64(a + b);
    case Sub => result := Wrap64(a - b);
    case Mul => result := Wrap64(a * b);
    case Div =>
      if b == 0 { valid := false; } else { result := Wrap64(TruncDiv(a, b)); }
    case Mod =>
      if b == 0 { valid := false; } else { result := Wrap64(TruncMod(a, b)); }
    case Neg => result := Wrap64(-(a as int));
    case Abs => result := Wrap64(if a < 0 then -(a as int) else a);
  }

  method FoldBitwise(op: Op, a: Int64, b: Int64) returns (result: Int64)
    requires IsBitwise(op)
    ensures forall datum: Int64 :: Pure(op, datum, [a, b]) == Some(result)
  {
    hide Wrap64, TruncDiv, TruncMod, Bits, Signed, Pow2, Truth, Magnitude, IsArith, IsCompare;
    match op
    case And => result := Signed(Bits(a) & Bits(b));
    case Or => result := Signed(Bits(a) | Bits(b));
    case Xor => result := Signed(Bits(a) ^ Bits(b));
    case Not => result := Signed(!Bits(a));
    case Shl => result := Wrap64(a * Pow2(b % 64));
    case Shr => result := Wrap64(a / Pow2(b % 64));
  }

  method FoldCompare(op: Op, a: Int64, b: Int64) returns (result: Int64)
    requires IsCompare(op)
    ensures forall datum: Int64 :: Pure(op, datum, [a, b]) == Some(result)
  {
    hide Wrap64, TruncDiv, TruncMod, Bits, Signed, Pow2;
    match op
    case Eq => result := if a == b then 1 else 0;
    case Ne => result := if a != b then 1 else 0;
    case Lt => result := if a < b then 1 else 0;
    case Gt => result := if a > b then 1 else 0;
    case Le => result := if a <= b then 1 else 0;
    case Ge => result := if a >= b then 1 else 0;
  }

  /** Remove index `v` by shifting the values after it down by one. */
  method ShiftOut(values: seq<Value>, v: nat) returns (r: seq<Value>)
    requires v < |values|
    ensures r == Without(values, v)
  {
    r := values;
    for i := v to |values| - 1
      invariant |r| == |values|
      invariant forall k :: 0 <= k < |values| ==> r[k] == values[if v <= k < i then k + 1 else k]
    {
      r := r[i := r[i + 1]];
    }
    r := r[..|values| - 1];
  }

  /** Rewrite the operands and PHI sources of one value. */
  method RewriteValue(v: Value, from: nat, to: nat) returns (r: Value)
    ensures r == ReplaceIn(v, from, to)
  {
    var ops := v.operands;
    for o := 0 to |ops|
      invariant |ops| == |v.operands|
      invariant forall i :: 0 <= i < |ops| ==>
        ops[i] == if i < o then Subst(v.operands[i], from, to) else v.operands[i]
    {
      if ops[o] == from {
        ops := ops[o := to];
      }
    }
    var phi := v.phi;
    for p := 0 to |phi|
      invariant |phi| == |v.phi|
      invariant forall i :: 0 <= i < |phi| ==>
        phi[i] == if i < p then v.phi[i].(src := Subst(v.phi[i].src, from, to)) else v.phi[i]
    {
      if phi[p].src == from {
        phi := phi[p := phi[p].(src := to)];
      }
    }
    r := v.(operands := ops, phi := phi);
    assert ops == ReplaceIn(v, from, to).operands && phi == ReplaceIn(v, from, to).phi;
  }

  lemma SameMeaningReflexive(f: Func)
    ensures SameMeaning(f, f)
  {
  }

  lemma FoldsSettle(f: Func, g: Func)
    requires UniqueIds(f) && Folds(f, g) && !PassChanges(g)
    ensures UniqueIds(g) && Settled(g)
  {
    SettledIff(g);
  }

  lemma FoldsSettled(f: Func, g: Func)
    requires UniqueIds(f) && Settled(f) && Folds(f, g)
    ensures g == f
  {
  }

  lemma ReducesSettle(f: Func, g: Func)
    requires UniqueIds(f) && Settled(f) && Reduces(f, g)
    ensures UniqueIds(g) && Settled(g)
  {
  }

  lemma ReducesClean(f: Func, g: Func)
    requires NoDeadCode(f) && Reduces(f, g)
    ensures g == f
  {
  }

  lemma StopsNow(f: Func)
    requires UniqueIds(f) && !PassChanges(f)
    ensures !HasNeutral(f)
  {
    hide HasNeutral, UniqueIds;
    assert Passes(f, 0) == f;
    LoopStopsIff(f);
  }

  /** Folding, then dead-code elimination: what holds of the two together. */
  lemma OptimizeChain(f: Func, g: Func, h: Func)
    requires UniqueIds(f) && Folds(f, g) && Reduces(g, h)
    ensures Settled(f) && NoDeadCode(f) ==> h == f
    ensures (exists c: Cert :: StrictSsa(f, c)) && AlwaysSafe(f) ==>
      SameMeaning(f, h) && (Valid(f) ==> Valid(h)) && exists c: Cert :: StrictSsa(h, c)
  {
    hide Settled, NoDeadCode, StrictSsa, AlwaysSafe, Valid, UniqueIds, SameRuns, SameMeaning;
    if (exists c: Cert :: StrictSsa(f, c)) && AlwaysSafe(f) {
      var c: Cert :| StrictSsa(f, c);
      assert StrictSsa(h, c);
      SameRunsMeaning(f, g);
      SameMeaningTransitive(f, g, h);
    }
  }

  lemma SameShapeLength(f: Func, g: Func)
    requires SameShape(f, g)
    ensures |f.blocks| == |g.blocks|
  {
  }

  lemma PassesZero(f: Func)
    ensures Passes(f, 0) == f
  {
  }

  lemma PassesNext(f: Func, n: nat)
    ensures Passes(f, n + 1) == Pass(Passes(f, n))
  {
  }

  lemma UnchangedVisit(f: Func, b: nat, j: nat)
    requires IsPos(f, b, j)
    ensures !Visit(f, b, j).1 ==> Visit(f, b, j).0 == f
  {
    hide FoldConst, CopiesLeft, CopiesRight, TimesZero;
  }

  lemma {:induction false} UnchangedFrom(f: Func, b: nat, j: nat)
    requires b <= |f.blocks| && (b < |f.blocks| ==> j <= |f.blocks[b].values|)
    ensures !PassFrom(f, b, j).1 ==> PassFrom(f, b, j).0 == f
    decreases |f.blocks| - b, if b < |f.blocks| then |f.blocks[b].values| - j else 0
  {
    hide Visit;
    if b == |f.blocks| {
    } else if j == |f.blocks[b].values| {
      UnchangedFrom(f, b + 1, 0);
    } else {
      UnchangedVisit(f, b, j);
      UnchangedFrom(Visit(f, b, j).0, b, j + 1);
    }
  }

  lemma PassUnchanged(f: Func)
    ensures !PassChanges(f) ==> Pass(f) == f
  {
    UnchangedFrom(f, 0, 0);
  }

  lemma PassShape(f: Func)
    ensures SameShape(f, Pass(f))
  {
    hide PassFrom;
  }

  lemma {:induction false} PassesShape(f: Func, n: nat)
    ensures SameShape(f, Passes(f, n))
  {
    hide Pass;
    if n > 0 {
      PassesShape(f, n - 1);
      PassShape(Passes(f, n - 1));
    }
  }

  lemma {:induction false} TotalSame(f: Func, g: Func, b: nat)
    requires SameShape(f, g) && b <= |f.blocks|
    ensures TotalFrom(f, b) == TotalFrom(g, b)
    decreases |f.blocks| - b
  {
    if b < |f.blocks| {
      TotalSame(f, g, b + 1);
    }
  }

  class FirFunc {
    var blocks: seq<Block>
    var entry: nat

    constructor (f: Func)
      ensures F() == f
    {
      blocks, entry := f.blocks, f.entry;
    }

    /** The function this object currently holds. */
    function F(): Func
      reads this
    {
      Func(blocks, entry)
    }

    method ValueIsUsed(id: nat) returns (used: bool)
      ensures used <==> Used(F(), id)
    {
      for b := 0 to |blocks|
        invariant forall d: nat, k: nat :: d < b && IsPos(F(), d, k) ==> !Mentions(At(F(), d, k), id)
      {
        for v := 0 to |blocks[b].values|
          invariant forall k: nat :: k < v && IsPos(F(), b, k) ==> !Mentions(At(F(), b, k), id)
        {
          var val := blocks[b].values[v];
          assert val == At(F(), b, v);
          for o := 0 to |val.operands|
            invariant id !in val.operands[..o]
          {
            if val.operands[o] == id { return true; }
          }
          assert val.operands[..|val.operands|] == val.operands;
          for p := 0 to |val.phi|
            invariant forall i :: 0 <= i < p ==> val.phi[i].src != id
          {
            if val.phi[p].src == id { return true; }
          }
        }
      }
      used := false;
    }

    method GetConstInt(id: nat) returns (found: bool, out: Int64)
      ensures ConstOf(F(), id) == if found then Some(out) else None
    {
      for b := 0 to |blocks|
        invariant ConstOf(F(), id) == ConstFrom(F(), b, 0, id)
      {
        for v := 0 to |blocks[b].values|
          invariant ConstOf(F(), id) == ConstFrom(F(), b, v, id)
        {
          var val := blocks[b].values[v];
          if val.id == id && val.op.Const? {
            return true, val.datum;
          }
        }
      }
      return false, 0;
    }

    method ReplaceAllUses(from: nat, to: nat)
      modifies this
      ensures F() == ReplaceUses(old(F()), from, to)
    {
      ghost var was := blocks;
      for b := 0 to |blocks|
        invariant entry == old(entry) && |blocks| == |was|
        invariant forall i :: 0 <= i < |was| ==>
          blocks[i] == if i < b then ReplaceInBlock(was[i], from, to) else was[i]
      {
        var vs := blocks[b].values;
        ghost var now := blocks;
        for v := 0 to |vs|
          invariant entry == old(entry) && blocks == now
          invariant |vs| == |was[b].values|
          invariant forall i :: 0 <= i < |vs| ==>
            vs[i] == if i < v then ReplaceIn(was[b].values[i], from, to) else was[b].values[i]
        {
          var val := RewriteValue(vs[v], from, to);
          vs := vs[v := val];
        }
        assert vs == ReplaceInBlock(was[b], from, to).values;
        blocks := blocks[b := blocks[b].(values := vs)];
      }
      assert blocks == ReplaceUses(old(F()), from, to).blocks;
    }

    method SetValue(b: nat, j: nat, v: Value)
      requires IsPos(F(), b, j)
      modifies this
      ensures F() == UpdateAt(old(F()), b, j, v)
    {
      blocks := blocks[b := blocks[b].(values := blocks[b].values[j := v])];
    }

    method DeadCodeElim()
      modifies this
      ensures Reduces(old(F()), F())
      ensures NoDeadCode(F())
      ensures TotalValues(F()) <= TotalValues(old(F()))
    {
      var changed := true;
      while changed
        invariant Reduces(old(F()), F())
        invariant TotalValues(F()) <= TotalValues(old(F()))
        invariant !changed ==> NoDeadCode(F())
        decreases TotalValues(F()), changed
      {
        changed := false;
        ghost var before := F();
        for b := 0 to |blocks|
          invariant |blocks| == |before.blocks| && Reduces(old(F()), F())
          invariant TotalValues(F()) <= TotalValues(before) - (if changed then 1 else 0)
          invariant !changed ==> F() == before && ScannedTo(F(), b)
        {
          changed := SweepBlock(b, changed, old(F()), before);
        }
      }
    }

    /** Every removable value in the first `b` blocks is used. */
    ghost predicate ScannedTo(f: Func, b: nat) {
      forall d: nat, k: nat :: d < b && IsPos(f, d, k) && Removable(At(f, d, k)) ==> Used(f, At(f, d, k).id)
    }

    /** One backward sweep over the values of block `b`. */
    method SweepBlock(b: nat, changed: bool, ghost origin: Func, ghost before: Func) returns (now: bool)
      requires b < |blocks| && Reduces(origin, F())
      requires TotalValues(F()) <= TotalValues(before) - (if changed then 1 else 0)
      requires !changed ==> F() == before && ScannedTo(F(), b)
      modifies this
      ensures |blocks| == |old(blocks)| && Reduces(origin, F())
      ensures TotalValues(F()) <= TotalValues(before) - (if now then 1 else 0)
      ensures !now ==> F() == before && ScannedTo(F(), b + 1)
    {
      hide Reduces, TotalValues, Used;
      now := changed;
      var v := |blocks[b].values| - 1;
      while v >= 0
        invariant |blocks| == |old(blocks)| && -1 <= v < |blocks[b].values|
        invariant Reduces(origin, F())
        invariant TotalValues(F()) <= TotalValues(before) - (if now then 1 else 0)
        invariant !now ==> F() == before && ScannedTo(F(), b)
        invariant !now ==> forall k: nat :: k > v && IsPos(F(), b, k) && Removable(At(F(), b, k)) ==>
          Used(F(), At(F(), b, k).id)
      {
        var val := blocks[b].values[v];
        if !IsTerminator(val.op) && !IsEffect(val.op) {
          var used := ValueIsUsed(val.id);
          if !used {
            assert val == At(F(), b, v);
            ReducesStep(origin, F(), b, v);
            ghost var next := RemoveAt(F(), b, v);
            var values := ShiftOut(blocks[b].values, v);
            blocks := blocks[b := blocks[b].(values := values)];
            assert F() == next;
            now := true;
          }
        }
        v := v - 1;
      }
    }

    /** The first four rules. */
    method FoldToConstant(b: nat, j: nat) returns (changed: bool)
      requires IsPos(F(), b, j)
      modifies this
      ensures match FoldConst(old(F()), old(At(F(), b, j)))
              case Some(c) => changed && F() == FoldTo(old(F()), b, j, c)
              case None => !changed && F() == old(F())
    {
      hide Binary, ConstOf;
      changed := false;
      var val := blocks[b].values[j];
      if Foldable(val) && |val.operands| >= 2 {
        var foundA, x := GetConstInt(val.operands[0]);
        var foundB, y := GetConstInt(val.operands[1]);
        if foundA && foundB {
          var valid, result := true, 0;
          if IsArith(val.op) {
            valid, result := FoldArith(val.op, x, y);
          } else if IsBitwise(val.op) {
            result := FoldBitwise(val.op, x, y);
          } else {
            result := FoldCompare(val.op, x, y);
          }
          assert FoldConst(F(), val) == if valid then Some(result) else None;
          if valid {
            SetValue(b, j, Folded(val, result));
            return true;
          }
        }
      }
      if val.op.Neg? && |val.operands| >= 1 {
        var found, x := GetConstInt(val.operands[0]);
        if found {
          SetValue(b, j, Folded(val, Wrap64(-(x as int))));
          changed := true;
        }
      }
    }

    /** The algebraic rules that look for a constant second operand. */
    method SimplifySecond(b: nat, j: nat) returns (changed: bool)
      requires IsPos(F(), b, j)
      modifies this
      ensures (F(), changed) == SimplifyLeft(old(F()), b, j)
    {
      hide ConstOf, ReplaceUses, UpdateAt;
      changed := false;
      var val := blocks[b].values[j];
      if |val.operands| >= 2 {
        var found, c := GetConstInt(val.operands[1]);
        if found {
          if (val.op.Add? || val.op.Sub?) && c == 0 {
            ReplaceAllUses(val.id, val.operands[0]);
            changed := true;
          }
          if val.op.Mul? && c == 1 {
            ReplaceAllUses(val.id, val.operands[0]);
            changed := true;
          }
          if val.op.Mul? && c == 0 {
            SetValue(b, j, Folded(val, 0));
            changed := true;
          }
        }
      }
    }

    /** The algebraic rules that look for a constant first operand. */
    method SimplifyFirst(b: nat, j: nat) returns (changed: bool)
      requires IsPos(F(), b, j)
      modifies this
      ensures (F(), changed) == SimplifyRight(old(F()), b, j)
    {
      hide ConstOf, ReplaceUses, UpdateAt;
      changed := false;
      var val := blocks[b].values[j];
      if |val.operands| >= 2 {
        var found, c := GetConstInt(val.operands[0]);
        if found {
          if val.op.Add? && c == 0 {
            ReplaceAllUses(val.id, val.operands[1]);
            changed := true;
          }
          if val.op.Mul? && c == 1 {
            ReplaceAllUses(val.id, val.operands[1]);
            changed := true;
          }
          if val.op.Mul? && c == 0 {
            SetValue(b, j, Folded(val, 0));
            changed := true;
          }
        }
      }
    }

    method VisitValue(b: nat, j: nat) returns (changed: bool)
      requires IsPos(F(), b, j)
      modifies this
      ensures (F(), changed) == Visit(old(F()), b, j)
    {
      hide SimplifyLeft, SimplifyRight, FoldConst;
      changed := FoldToConstant(b, j);
      if !changed {
        var second := SimplifySecond(b, j);
        var first := SimplifyFirst(b, j);
        changed := second || first;
      }
    }

    /** Visit every value of block `b`. */
    method FoldBlock(b: nat) returns (changed: bool)
      requires b < |blocks|
      modifies this
      ensures SameShape(old(F()), F())
      ensures PassFrom(old(F()), b, 0) == (PassFrom(F(), b + 1, 0).0, changed || PassFrom(F(), b + 1, 0).1)
    {
      hide Visit;
      changed := false;
      for j := 0 to |blocks[b].values|
        invariant SameShape(old(F()), F())
        invariant PassFrom(old(F()), b, 0) == (PassFrom(F(), b, j).0, changed || PassFrom(F(), b, j).1)
      {
        var fired := VisitValue(b, j);
        changed := changed || fired;
      }
    }

    /** One pass over the whole function. */
    method FoldPass() returns (changed: bool)
      modifies this
      ensures F() == Pass(old(F())) && changed == PassChanges(old(F()))
    {
      hide SameShape;
      changed := false;
      ghost var n := |blocks|;
      for b := 0 to |blocks|
        invariant |blocks| == n
        invariant PassFrom(old(F()), 0, 0) == (PassFrom(F(), b, 0).0, changed || PassFrom(F(), b, 0).1)
      {
        ghost var g := F();
        var fired := FoldBlock(b);
        SameShapeLength(g, F());
        changed := changed || fired;
      }
    }

    /** Repeats passes until one reports no change. With a known neutral operand and an unknown result
        anywhere, none ever does. */
    method ConstantFold()
      requires UniqueIds(F()) && !HasNeutral(F())
      modifies this
      ensures Folds(old(F()), F()) && !PassChanges(F())
      ensures TotalValues(F()) == TotalValues(old(F()))
    {
      hide Pass, PassChanges, Passes, HasNeutral, UniqueIds;
      ghost var f := F();
      LoopStopsIff(f);
      ghost var n: nat :| !PassChanges(Passes(f, n));
      ghost var i := 0;
      var changed := true;
      PassesZero(f);
      while changed
        invariant F() == Passes(f, i) && i <= n + 1
        invariant !changed ==> !PassChanges(F())
        invariant changed ==> i <= n
        decreases n - i, changed
      {
        changed := FoldPass();
        PassesNext(f, i);
        PassUnchanged(Passes(f, i));
        if changed {
          i := i + 1;
        }
      }
      FoldsPasses(f, i);
      PassesShape(f, i);
      TotalSame(f, F(), 0);
    }

    /** All passes at one optimisation level; returns how many values are gone. */
    method Optimize(level: nat) returns (changes: int)
      requires UniqueIds(F()) && (level > 0 ==> !HasNeutral(F()))
      modifies this
      ensures level == 0 ==> F() == old(F()) && changes == 0
      ensures level > 0 ==> Settled(F()) && NoDeadCode(F())
      ensures changes == TotalValues(old(F())) - TotalValues(F())
      ensures (exists c: Cert :: StrictSsa(old(F()), c)) && AlwaysSafe(old(F())) ==>
        SameMeaning(old(F()), F()) && (Valid(old(F())) ==> Valid(F())) && exists c: Cert :: StrictSsa(F(), c)
      ensures Settled(old(F())) && NoDeadCode(old(F())) ==> F() == old(F())
    {
      hide Folds, Reduces, PassChanges, Settled, NoDeadCode, TotalValues, StrictSsa, AlwaysSafe, Valid, UniqueIds, HasNeutral;
      if level == 0 {
        SameMeaningReflexive(F());
        return 0;
      }
      ghost var origin := F();
      var before := CountValues();
      ConstantFold();
      ghost var folded := F();
      FoldsSettle(origin, F());
      DeadCodeElim();
      ReducesSettle(folded, F());
      var after := CountValues();
      changes := before - after;
      OptimizeChain(origin, folded, F());
      if level >= 2 {
        ghost var first := F();
        for pass := 0 to 3
          invariant F() == first
        {
          SettledIff(F());
          StopsNow(F());
          ConstantFold();
          FoldsSettled(first, F());
          DeadCodeElim();
          ReducesClean(first, F());
        }
      }
    }

    method CountValues() returns (n: nat)
      ensures n == TotalValues(F())
    {
      n := 0;
      for b := 0 to |blocks|
        invariant n + TotalFrom(F(), b) == TotalValues(F())
      {
        n := n + |blocks[b].values|;
      }
    }

    method BlockExists(id: int) returns (found: bool)
      ensures found <==> HasBlock(F(), id)
    {
      for t := 0 to |blocks|
        invariant FindBlock(F(), id) == FindBlockFrom(blocks, id, t)
      {
        if blocks[t].id == id { return true; }
      }
      found := false;
    }

    /** Errors in the position of the terminator of block `b`. */
    method TerminatorErrors(b: nat) returns (errors: nat)
      requires b < |blocks|
      ensures errors == 0 <==> EndsOnce(blocks[b].values)
    {
      errors := 0;
      var hasTerminator := false;
      var vs := blocks[b].values;
      for v := 0 to |vs|
        invariant hasTerminator <==> exists k :: 0 <= k < v && IsTerminator(vs[k].op)
        invariant errors == 0 <==> forall k :: 0 <= k < v && IsTerminator(vs[k].op) ==> k == |vs| - 1
      {
        if IsTerminator(vs[v].op) {
          if hasTerminator {
            errors := errors + 1;
          }
          if v != |vs| - 1 {
            errors := errors + 1;
          }
          hasTerminator := true;
        }
      }
      assert EndsOnce(vs) ==> IsTerminator(vs[|vs| - 1].op);
      if !hasTerminator {
        errors := errors + 1;
      }
    }

    /** Errors in the blocks that one value names. */
    method TargetErrors(v: Value) returns (errors: nat)
      ensures errors == 0 <==> TargetsExist(F(), v)
    {
      errors := 0;
      if v.op.Jump? {
        var found := BlockExists(v.datum);
        if !found {
          errors := errors + 1;
        }
      }
      if v.op.Branch? && |v.operands| >= 2 {
        var foundTrue := BlockExists(v.operands[1]);
        var foundFalse := false;
        if |v.operands| >= 3 {
          foundFalse := BlockExists(v.operands[2]);
        }
        if !foundTrue || !foundFalse {
          errors := errors + 1;
        }
      }
      if v.op.Phi? {
        for p := 0 to |v.phi|
          invariant errors == 0 <==> forall i :: 0 <= i < p ==> HasBlock(F(), v.phi[i].blk)
        {
          var found := BlockExists(v.phi[p].blk);
          if !found {
            errors := errors + 1;
          }
        }
      }
    }

    method BlockErrors(b: nat) returns (errors: nat)
      requires b < |blocks|
      ensures errors == 0 <==> BlockValid(F(), b)
    {
      hide TargetsExist, EndsOnce;
      errors := TerminatorErrors(b);
      var vs := blocks[b].values;
      for v := 0 to |vs|
        invariant errors == 0 <==> (EndsOnce(vs) && forall k :: 0 <= k < v ==> TargetsExist(F(), vs[k]))
      {
        var e := TargetErrors(vs[v]);
        errors := errors + e;
      }
    }

    /** Number of errors; a function is accepted when there are none. */
    method Validate() returns (errors: nat)
      ensures errors == 0 <==> Valid(F())
    {
      hide BlockValid;
      errors := 0;
      if |blocks| == 0 {
        return 1;
      }
      for b := 0 to |blocks|
        invariant errors == 0 <==> forall d :: 0 <= d < b ==> BlockValid(F(), d)
      {
        var e := BlockErrors(b);
        errors := errors + e;
      }
      if entry >= |blocks| {
        errors := errors + 1;
      }
    }
  }
}
