/** Constant folding: the two rewrites it is made of, one visit of one value as a function, and the
    proof that each rewrite keeps strict SSA form and every run, state for state. */
module FirFold {
  import opened Wrappers
  import opened FirSyntax
  import opened FirSemantics
  import opened FirSsa
  import opened FirEquiv

  predicate IsConstAt(f: Func, b: nat, j: nat, id: nat) {
    IsPos(f, b, j) && At(f, b, j).id == id && At(f, b, j).op.Const?
  }

  /** The constant that the first CONST carrying `id` holds. */
  function ConstOf(f: Func, id: nat): (r: Option<Int64>)
    ensures r.Some? ==> exists b: nat, j: nat :: IsConstAt(f, b, j, id) && At(f, b, j).datum == r.value
    ensures r.None? ==> forall b: nat, j: nat :: !IsConstAt(f, b, j, id)
  {
    ConstFrom(f, 0, 0, id)
  }

  function ConstFrom(f: Func, b: nat, j: nat, id: nat): (r: Option<Int64>)
    requires b <= |f.blocks| && (b < |f.blocks| ==> j <= |f.blocks[b].values|)
    ensures r.Some? ==> exists d: nat, k: nat :: IsConstAt(f, d, k, id) && At(f, d, k).datum == r.value
    ensures r.None? ==> forall d: nat, k: nat :: (d > b || (d == b && k >= j)) ==> !IsConstAt(f, d, k, id)
    decreases |f.blocks| - b, if b < |f.blocks| then |f.blocks[b].values| - j else 0
  {
    if b == |f.blocks| then None
    else if j == |f.blocks[b].values| then ConstFrom(f, b + 1, 0, id)
    else if IsConstAt(f, b, j, id) then Some(At(f, b, j).datum)
    else ConstFrom(f, b, j + 1, id)
  }

  // ---- The two rewrites ----

  function Folded(v: Value, c: Int64): Value {
    v.(op := Const, datum := c, operands := [])
  }

  function UpdateAt(f: Func, b: nat, j: nat, v: Value): Func
    requires IsPos(f, b, j)
  {
    f.(blocks := f.blocks[b := f.blocks[b].(values := f.blocks[b].values[j := v])])
  }

  /** Turn the value at `(b, j)` into the constant `c`. */
  function FoldTo(f: Func, b: nat, j: nat, c: Int64): Func
    requires IsPos(f, b, j)
  {
    UpdateAt(f, b, j, Folded(At(f, b, j), c))
  }

  function Subst(x: nat, from: nat, to: nat): nat {
    if x == from then to else x
  }

  function ReplaceIn(v: Value, from: nat, to: nat): Value {
    v.(operands := seq(|v.operands|, i requires 0 <= i < |v.operands| => Subst(v.operands[i], from, to)),
    phi := seq(|v.phi|, i requires 0 <= i < |v.phi| => v.phi[i].(src := Subst(v.phi[i].src, from, to))))
  }

  function ReplaceInBlock(b: Block, from: nat, to: nat): Block {
    b.(values := seq(|b.values|, i requires 0 <= i < |b.values| => ReplaceIn(b.values[i], from, to)))
  }

  /** Rewrite every operand and PHI source `from` to `to`, everywhere in the function. */
  function ReplaceUses(f: Func, from: nat, to: nat): Func {
    f.(blocks := seq(|f.blocks|, i requires 0 <= i < |f.blocks| => ReplaceInBlock(f.blocks[i], from, to)))
  }

  // ---- One visit ----

  /** The constants one of the first four rules sees: both operands, or the operand of a negation. */
  function ConstArgs(f: Func, v: Value): Option<seq<Int64>> {
    if Foldable(v) && |v.operands| >= 2 &&
       ConstOf(f, v.operands[0]).Some? && ConstOf(f, v.operands[1]).Some? then
      Some([ConstOf(f, v.operands[0]).value, ConstOf(f, v.operands[1]).value])
    else if v.op.Neg? && |v.operands| >= 1 && ConstOf(f, v.operands[0]).Some? then
      Some([ConstOf(f, v.operands[0]).value])
    else None
  }

  /** The values folding touches: neither PHI nor terminator nor effect. */
  predicate Foldable(v: Value) {
    IsArith(v.op) || IsBitwise(v.op) || IsCompare(v.op)
  }

  /** The constant the first four rules give the value `v`. */
  function FoldConst(f: Func, v: Value): Option<Int64> {
    match ConstArgs(f, v)
    case Some(args) => Pure(v.op, v.datum, args)
    case None => None
  }

  /** `x + 0`, `x - 0`, `x * 1`: the value copies its first operand. */
  predicate CopiesLeft(f: Func, v: Value) {
    |v.operands| >= 2 &&
    (((v.op.Add? || v.op.Sub?) && ConstOf(f, v.operands[1]) == Some(0)) ||
     (v.op.Mul? && ConstOf(f, v.operands[1]) == Some(1)))
  }

  /** `0 + x`, `1 * x`: the value copies its second operand. */
  predicate CopiesRight(f: Func, v: Value) {
    |v.operands| >= 2 &&
    ((v.op.Add? && ConstOf(f, v.operands[0]) == Some(0)) ||
     (v.op.Mul? && ConstOf(f, v.operands[0]) == Some(1)))
  }

  predicate TimesZero(f: Func, v: Value, side: nat)
    requires side < 2
  {
    |v.operands| >= 2 && v.op.Mul? && ConstOf(f, v.operands[side]) == Some(0)
  }

  /** Rules that look at the second operand. The flag says whether a rule fired. */
  function SimplifyLeft(f: Func, b: nat, j: nat): (r: (Func, bool))
    requires IsPos(f, b, j)
    ensures SameShape(f, r.0)
  {
    var v := At(f, b, j);
    if CopiesLeft(f, v) then
      ReplaceShape(f, v.id, v.operands[0]); (ReplaceUses(f, v.id, v.operands[0]), true)
    else if TimesZero(f, v, 1) then FoldToShape(f, b, j, 0); (FoldTo(f, b, j, 0), true)
    else (f, false)
  }

  /** Rules that look at the first operand. */
  function SimplifyRight(f: Func, b: nat, j: nat): (r: (Func, bool))
    requires IsPos(f, b, j)
    ensures SameShape(f, r.0)
  {
    var v := At(f, b, j);
    if CopiesRight(f, v) then
      ReplaceShape(f, v.id, v.operands[1]); (ReplaceUses(f, v.id, v.operands[1]), true)
    else if TimesZero(f, v, 0) then FoldToShape(f, b, j, 0); (FoldTo(f, b, j, 0), true)
    else (f, false)
  }

  /** Everything one visit of the value at `(b, j)` does. */
  function Visit(f: Func, b: nat, j: nat): (r: (Func, bool))
    requires IsPos(f, b, j)
    ensures SameShape(f, r.0)
  {
    match FoldConst(f, At(f, b, j))
    case Some(c) => FoldToShape(f, b, j, c); (FoldTo(f, b, j, c), true)
    case None =>
      var (g, left) := SimplifyLeft(f, b, j);
      var (h, right) := SimplifyRight(g, b, j);
      (h, left || right)
  }

  // ---- Preservation ----

  lemma EdgeSame(f: Func, g: Func, p: nat, s: nat)
    requires SameShape(f, g)
    requires forall b: nat, j: nat :: IsPos(f, b, j) ==> Targets(At(f, b, j)) == Targets(At(g, b, j))
    ensures Edge(f, p, s) == Edge(g, p, s)
  {
    forall id: int {
      FindBlockSame(f, g, id);
    }
    if Edge(f, p, s) {
      var j: nat, t: int :| IsPos(f, p, j) && t in Targets(At(f, p, j)) && FindBlock(f, t) == s;
      assert IsPos(g, p, j) && t in Targets(At(g, p, j));
    }
    if Edge(g, p, s) {
      var j: nat, t: int :| IsPos(g, p, j) && t in Targets(At(g, p, j)) && FindBlock(g, t) == s;
      assert IsPos(f, p, j) && t in Targets(At(f, p, j));
    }
  }

  /** Same shape and same targets: the certificate carries over, up to the two use conditions. */
  lemma CertCarries(f: Func, g: Func, c: Cert)
    requires StrictSsa(f, c) && SameShape(f, g)
    requires forall b: nat, j: nat :: IsPos(f, b, j) ==> Targets(At(f, b, j)) == Targets(At(g, b, j))
    ensures UniqueIds(g) && DominatorCert(g, c) && TerminatorsLast(g, c)
    ensures forall p: nat, s: nat :: Edge(f, p, s) == Edge(g, p, s)
    ensures forall o: nat, b: nat, j: nat :: Available(f, c, o, b, j) ==> Available(g, c, o, b, j)
  {
    forall p: nat, s: nat
      ensures Edge(f, p, s) == Edge(g, p, s)
    {
      EdgeSame(f, g, p, s);
    }
    forall b: nat, j: nat | IsPos(g, b, j)
      ensures IsPos(f, b, j) && At(g, b, j).id == At(f, b, j).id
    {
    }
    forall o: nat, b: nat, j: nat | Available(f, c, o, b, j)
      ensures Available(g, c, o, b, j)
    {
      var d: nat, k: nat :| Reaches(f, c, d, k, b, j) && At(f, d, k).id == o;
      assert Reaches(g, c, d, k, b, j) && At(g, d, k).id == o;
    }
  }

  /** A constant that reaches a point has its value there. */
  lemma KnownConst(f: Func, c: Cert, w: World, b: nat, j: nat, env: Env, id: nat)
    requires StrictSsa(f, c) && EnvOk(f, c, w, b, j, env) && Available(f, c, id, b, j)
    ensures id in env
    ensures ConstOf(f, id).Some? ==> env[id] == ConstOf(f, id).value
  {
    var d: nat, k: nat :| Reaches(f, c, d, k, b, j) && At(f, d, k).id == id;
    assert Holds(w, env, At(f, d, k));
    if ConstOf(f, id).Some? {
      var d', k' :| IsConstAt(f, d', k', id) && At(f, d', k').datum == ConstOf(f, id).value;
      assert d' == d && k' == k;
    }
  }

  /** Only the operands a rule looked at matter to the result. */
  lemma PureOfPrefix(op: Op, datum: Int64, args: seq<Int64>, some: seq<Int64>)
    requires some <= args && (|some| >= 2 || (|some| == 1 && op.Neg?))
    ensures Pure(op, datum, args) == Pure(op, datum, some)
  {
    hide Binary;
    assert some[0] == args[0];
    if |some| >= 2 {
      assert some[1] == args[1];
    }
  }

  lemma KnownOperand(f: Func, c: Cert, w: World, b: nat, j: nat, env: Env, i: nat)
    requires StrictSsa(f, c) && b in c.live && IsPos(f, b, j) && EnvOk(f, c, w, b, j, env)
    requires ReadOps(At(f, b, j)) == At(f, b, j).operands && i < |At(f, b, j).operands|
    ensures ConstOf(f, At(f, b, j).operands[i]).Some? ==>
      Read(w, env, At(f, b, j).operands[i]) == ConstOf(f, At(f, b, j).operands[i]).value
  {
    hide EnvOk, ConstOf, UniqueIds, DominatorCert, TerminatorsLast, PhisAvailable;
    var o := At(f, b, j).operands[i];
    assert o in At(f, b, j).operands;
    assert Available(f, c, o, b, j);
    KnownConst(f, c, w, b, j, env, o);
  }

  lemma ConstArgsSound(f: Func, c: Cert, w: World, b: nat, j: nat, env: Env)
    requires StrictSsa(f, c) && b in c.live && IsPos(f, b, j) && EnvOk(f, c, w, b, j, env)
    requires ConstArgs(f, At(f, b, j)).Some?
    ensures ReadOps(At(f, b, j)) == At(f, b, j).operands
    ensures ConstArgs(f, At(f, b, j)).value <= Args(w, env, At(f, b, j).operands)
  {
    hide StrictSsa, EnvOk, ConstOf;
    var v := At(f, b, j);
    KnownOperand(f, c, w, b, j, env, 0);
    if |v.operands| >= 2 {
      KnownOperand(f, c, w, b, j, env, 1);
    }
  }

  lemma FoldConstIsPure(f: Func, v: Value, args: seq<Int64>)
    requires ConstArgs(f, v).Some? && ConstArgs(f, v).value <= args
    ensures Pure(v.op, v.datum, args) == FoldConst(f, v)
  {
    PureOfPrefix(v.op, v.datum, args, ConstArgs(f, v).value);
  }

  lemma TimesNought(datum: Int64, a: Int64, b: Int64)
    ensures a == 0 || b == 0 ==> Pure(Mul, datum, [a, b]) == Some(0)
  {
    assert a == 0 || b == 0 ==> a * b == 0;
  }

  lemma TimesZeroSound(f: Func, c: Cert, w: World, b: nat, j: nat, env: Env, side: nat)
    requires StrictSsa(f, c) && b in c.live && IsPos(f, b, j) && EnvOk(f, c, w, b, j, env)
    requires side < 2 && TimesZero(f, At(f, b, j), side)
    ensures Pure(At(f, b, j).op, At(f, b, j).datum, Args(w, env, ReadOps(At(f, b, j)))) == Some(0)
  {
    hide Pure, Binary, StrictSsa, EnvOk, ConstOf;
    var v := At(f, b, j);
    var args := Args(w, env, v.operands);
    KnownOperand(f, c, w, b, j, env, side);
    TimesNought(v.datum, args[0], args[1]);
    PureOfPrefix(Mul, v.datum, args, [args[0], args[1]]);
  }

  /** What makes turning `(b, j)` into the constant `r` sound. */
  ghost predicate AlwaysEquals(f: Func, c: Cert, b: nat, j: nat, r: Int64)
    requires IsPos(f, b, j)
  {
    forall w: World, env: Env :: b in c.live && EnvOk(f, c, w, b, j, env) ==>
      Pure(At(f, b, j).op, At(f, b, j).datum, Args(w, env, ReadOps(At(f, b, j)))) == Some(r)
  }

  lemma FoldToShape(f: Func, b: nat, j: nat, r: Int64)
    requires IsPos(f, b, j) && Foldable(At(f, b, j))
    ensures SameShape(f, FoldTo(f, b, j, r))
    ensures forall d: nat, k: nat :: IsPos(f, d, k) ==>
      At(FoldTo(f, b, j, r), d, k) == if d == b && k == j then Folded(At(f, b, j), r) else At(f, d, k)
  {
    var g := FoldTo(f, b, j, r);
    forall d: nat, k: nat | IsPos(f, d, k)
      ensures At(g, d, k) == if d == b && k == j then Folded(At(f, b, j), r) else At(f, d, k)
    {
    }
  }

  lemma FoldToStrict(f: Func, c: Cert, b: nat, j: nat, r: Int64)
    requires StrictSsa(f, c) && IsPos(f, b, j) && Foldable(At(f, b, j))
    ensures StrictSsa(FoldTo(f, b, j, r), c)
  {
    var g := FoldTo(f, b, j, r);
    FoldToShape(f, b, j, r);
    CertCarries(f, g, c);
    forall d: nat, k: nat, o: nat | d in c.live && IsPos(g, d, k) && o in ReadOps(At(g, d, k))
      ensures Available(g, c, o, d, k)
    {
      assert o in ReadOps(At(f, d, k));
      assert Available(f, c, o, d, k);
    }
    forall p: nat, d: nat, k: nat | p in c.live && Edge(g, p, d) && IsPos(g, d, k) && At(g, d, k).op.Phi?
      ensures var phi := At(g, d, k).phi;
              var e := PhiEdge(phi, Some(g.blocks[p].id), 0);
              e < |phi| ==> Available(g, c, phi[e].src, p, |g.blocks[p].values|)
    {
      assert At(g, d, k) == At(f, d, k) && Edge(f, p, d);
    }
  }

  lemma FoldToEquiv(f: Func, c: Cert, w: World, b: nat, j: nat, r: Int64)
    requires StrictSsa(f, c) && IsPos(f, b, j) && Foldable(At(f, b, j)) && AlwaysEquals(f, c, b, j, r)
    ensures LocalEquiv(f, FoldTo(f, b, j, r), c, w)
  {
    hide Binary, FoldTo, EnvOk, StrictSsa;
    FoldToShape(f, b, j, r);
    var g := FoldTo(f, b, j, r);
    forall d: nat, k: nat, env: Env | d in c.live && IsPos(f, d, k) && EnvOk(f, c, w, d, k, env)
      ensures SameEffect(w, env, At(f, d, k), At(g, d, k))
    {
      if d == b && k == j {
        assert Pure(Const, r, Args(w, env, [])) == Some(r);
      }
    }
  }

  lemma FoldToPreserves(f: Func, c: Cert, b: nat, j: nat, r: Int64)
    requires StrictSsa(f, c) && IsPos(f, b, j) && Foldable(At(f, b, j)) && AlwaysEquals(f, c, b, j, r)
    ensures StrictSsa(FoldTo(f, b, j, r), c)
    ensures forall w: World, k: nat :: Run(f, w, k) == Run(FoldTo(f, b, j, r), w, k)
  {
    FoldToStrict(f, c, b, j, r);
    forall w: World, k: nat
      ensures Run(f, w, k) == Run(FoldTo(f, b, j, r), w, k)
    {
      FoldToEquiv(f, c, w, b, j, r);
      RunSame(f, FoldTo(f, b, j, r), c, w, k);
    }
  }

  // ---- The copy rules ----

  /** The value at `(b, j)` is a copy of the value `o` by one of the four algebraic identities. */
  ghost predicate Copies(f: Func, b: nat, j: nat, o: nat) {
    IsPos(f, b, j) &&
    var v := At(f, b, j);
    (CopiesLeft(f, v) && o == v.operands[0]) || (CopiesRight(f, v) && o == v.operands[1])
  }

  /** Wherever a copy reaches, it equals what it copies. */
  lemma CopyEquals(f: Func, c: Cert, w: World, b: nat, j: nat, o: nat, d: nat, k: nat, env: Env)
    requires StrictSsa(f, c) && Copies(f, b, j, o) && d in c.live
    requires EnvOk(f, c, w, d, k, env) && Reaches(f, c, b, j, d, k)
    ensures At(f, b, j).id in env && o in env && env[At(f, b, j).id] == env[o]
  {
    var v := At(f, b, j);
    assert ReadOps(v) == v.operands;
    assert Holds(w, env, v);
    var x, y := v.operands[0], v.operands[1];
    ReadsReach(f, c, b, j, d, k, x);
    ReadsReach(f, c, b, j, d, k, y);
    KnownConst(f, c, w, d, k, env, x);
    KnownConst(f, c, w, d, k, env, y);
    CopyIdentity(v.op, v.datum, Args(w, env, v.operands));
  }

  lemma CopyIdentity(op: Op, datum: Int64, args: seq<Int64>)
    requires |args| >= 2
    ensures (op.Add? || op.Sub?) && args[1] == 0 ==> Pure(op, datum, args) == Some(args[0])
    ensures op.Mul? && args[1] == 1 ==> Pure(op, datum, args) == Some(args[0])
    ensures op.Add? && args[0] == 0 ==> Pure(op, datum, args) == Some(args[1])
    ensures op.Mul? && args[0] == 1 ==> Pure(op, datum, args) == Some(args[1])
  {
  }

  /** Replacing uses of `from` keeps the shape, and keeps the control flow when no BRANCH target is hit. */
  lemma ReplaceShape(f: Func, from: nat, to: nat)
    ensures SameShape(f, ReplaceUses(f, from, to))
    ensures forall d: nat, k: nat :: IsPos(f, d, k) ==>
      At(ReplaceUses(f, from, to), d, k) == ReplaceIn(At(f, d, k), from, to)
  {
  }

  /** `v` is a BRANCH, and the number `id` is one of the two block ids it may go to. */
  predicate NamesTarget(v: Value, id: nat) {
    v.op.Branch? && |v.operands| >= 3 && (v.operands[1] == id || v.operands[2] == id)
  }

  ghost predicate NoTargetIs(f: Func, id: nat) {
    forall b: nat, j: nat :: IsPos(f, b, j) ==> !NamesTarget(At(f, b, j), id)
  }

  lemma ReplaceTargets(v: Value, from: nat, to: nat)
    requires !NamesTarget(v, from)
    ensures Targets(ReplaceIn(v, from, to)) == Targets(v)
  {
  }

  lemma ReplaceReadOps(v: Value, from: nat, to: nat)
    ensures |ReadOps(ReplaceIn(v, from, to))| == |ReadOps(v)|
    ensures forall i :: 0 <= i < |ReadOps(v)| ==>
      ReadOps(ReplaceIn(v, from, to))[i] == Subst(ReadOps(v)[i], from, to)
  {
  }

  /** What is read where `from` was read is available there too. */
  lemma SubstAvailable(f: Func, c: Cert, b: nat, j: nat, to: nat, d: nat, k: nat, x: nat)
    requires StrictSsa(f, c) && Copies(f, b, j, to) && d in c.live && Available(f, c, x, d, k)
    ensures Available(f, c, Subst(x, At(f, b, j).id, to), d, k)
  {
    var from := At(f, b, j).id;
    if x == from {
      var d', k' :| Reaches(f, c, d', k', d, k) && At(f, d', k').id == x;
      assert d' == b && k' == j;
      assert ReadOps(At(f, b, j)) == At(f, b, j).operands;
      ReadsReach(f, c, b, j, d, k, to);
    }
  }

  lemma SubstReads(f: Func, c: Cert, w: World, b: nat, j: nat, to: nat, d: nat, k: nat, env: Env, x: nat)
    requires StrictSsa(f, c) && Copies(f, b, j, to) && d in c.live && Available(f, c, x, d, k)
    requires EnvOk(f, c, w, d, k, env)
    ensures Read(w, env, x) == Read(w, env, Subst(x, At(f, b, j).id, to))
  {
    if x == At(f, b, j).id {
      var d', k' :| Reaches(f, c, d', k', d, k) && At(f, d', k').id == x;
      assert d' == b && k' == j;
      CopyEquals(f, c, w, b, j, to, d, k, env);
    }
  }

  lemma ReplaceStrict(f: Func, c: Cert, b: nat, j: nat, to: nat)
    requires StrictSsa(f, c) && Copies(f, b, j, to) && NoTargetIs(f, At(f, b, j).id)
    ensures StrictSsa(ReplaceUses(f, At(f, b, j).id, to), c)
  {
    var from := At(f, b, j).id;
    var g := ReplaceUses(f, from, to);
    ReplaceShape(f, from, to);
    forall d: nat, k: nat | IsPos(f, d, k)
      ensures Targets(At(f, d, k)) == Targets(At(g, d, k))
    {
      ReplaceTargets(At(f, d, k), from, to);
    }
    CertCarries(f, g, c);
    forall d: nat, k: nat, o: nat | d in c.live && IsPos(g, d, k) && o in ReadOps(At(g, d, k))
      ensures Available(g, c, o, d, k)
    {
      ReplaceReadOps(At(f, d, k), from, to);
      var i :| 0 <= i < |ReadOps(At(g, d, k))| && ReadOps(At(g, d, k))[i] == o;
      var x := ReadOps(At(f, d, k))[i];
      assert x in ReadOps(At(f, d, k));
      SubstAvailable(f, c, b, j, to, d, k, x);
    }
    forall p: nat, d: nat, k: nat | p in c.live && Edge(g, p, d) && IsPos(g, d, k) && At(g, d, k).op.Phi?
      ensures var phi := At(g, d, k).phi;
              var e := PhiEdge(phi, Some(g.blocks[p].id), 0);
              e < |phi| ==> Available(g, c, phi[e].src, p, |g.blocks[p].values|)
    {
      var phi, psi := At(f, d, k).phi, At(g, d, k).phi;
      assert Edge(f, p, d) && At(f, d, k).op.Phi?;
      PhiEdgeSame(phi, psi, Some(f.blocks[p].id), 0);
      var e := PhiEdge(phi, Some(f.blocks[p].id), 0);
      if e < |phi| {
        SubstAvailable(f, c, b, j, to, p, |f.blocks[p].values|, phi[e].src);
      }
    }
  }

  lemma ReplaceSameEffect(f: Func, c: Cert, w: World, b: nat, j: nat, to: nat, d: nat, k: nat, env: Env)
    requires StrictSsa(f, c) && Copies(f, b, j, to) && NoTargetIs(f, At(f, b, j).id)
    requires d in c.live && IsPos(f, d, k) && EnvOk(f, c, w, d, k, env)
    ensures SameEffect(w, env, At(f, d, k), ReplaceIn(At(f, d, k), At(f, b, j).id, to))
  {
    var from, v := At(f, b, j).id, At(f, d, k);
    var u := ReplaceIn(v, from, to);
    ReplaceTargets(v, from, to);
    ReplaceReadOps(v, from, to);
    forall i | 0 <= i < |ReadOps(v)|
      ensures Read(w, env, ReadOps(v)[i]) == Read(w, env, ReadOps(u)[i])
    {
      assert ReadOps(v)[i] in ReadOps(v);
      SubstReads(f, c, w, b, j, to, d, k, env, ReadOps(v)[i]);
    }
    assert Args(w, env, ReadOps(v)) == Args(w, env, ReadOps(u));
  }

  lemma ReplaceSamePhi(f: Func, c: Cert, w: World, b: nat, j: nat, to: nat, p: nat, d: nat, k: nat, env: Env)
    requires StrictSsa(f, c) && Copies(f, b, j, to)
    requires p in c.live && Edge(f, p, d) && IsPos(f, d, k) && At(f, d, k).op.Phi?
    requires EnvOk(f, c, w, p, |f.blocks[p].values|, env)
    ensures SamePhi(w, env, At(f, d, k), ReplaceIn(At(f, d, k), At(f, b, j).id, to),
                    PhiEdge(At(f, d, k).phi, Some(f.blocks[p].id), 0))
  {
    var phi := At(f, d, k).phi;
    var e := PhiEdge(phi, Some(f.blocks[p].id), 0);
    if e < |phi| {
      SubstReads(f, c, w, b, j, to, p, |f.blocks[p].values|, env, phi[e].src);
    }
  }

  lemma ReplaceEquiv(f: Func, c: Cert, w: World, b: nat, j: nat, to: nat)
    requires StrictSsa(f, c) && Copies(f, b, j, to) && NoTargetIs(f, At(f, b, j).id)
    ensures LocalEquiv(f, ReplaceUses(f, At(f, b, j).id, to), c, w)
  {
    var from := At(f, b, j).id;
    var g := ReplaceUses(f, from, to);
    ReplaceShape(f, from, to);
    forall d: nat, k: nat, env: Env | d in c.live && IsPos(f, d, k) && EnvOk(f, c, w, d, k, env)
      ensures SameEffect(w, env, At(f, d, k), At(g, d, k))
    {
      ReplaceSameEffect(f, c, w, b, j, to, d, k, env);
    }
    forall p: nat, d: nat, k: nat, env: Env |
      p in c.live && Edge(f, p, d) && IsPos(f, d, k) && At(f, d, k).op.Phi? &&
      EnvOk(f, c, w, p, |f.blocks[p].values|, env)
      ensures SamePhi(w, env, At(f, d, k), At(g, d, k), PhiEdge(At(f, d, k).phi, Some(f.blocks[p].id), 0))
    {
      ReplaceSamePhi(f, c, w, b, j, to, p, d, k, env);
    }
  }

  lemma ReplacePreserves(f: Func, c: Cert, b: nat, j: nat, to: nat)
    requires StrictSsa(f, c) && Copies(f, b, j, to) && NoTargetIs(f, At(f, b, j).id)
    ensures StrictSsa(ReplaceUses(f, At(f, b, j).id, to), c)
    ensures forall w: World, k: nat :: Run(f, w, k) == Run(ReplaceUses(f, At(f, b, j).id, to), w, k)
  {
    ReplaceStrict(f, c, b, j, to);
    var g := ReplaceUses(f, At(f, b, j).id, to);
    forall w: World, k: nat
      ensures Run(f, w, k) == Run(g, w, k)
    {
      ReplaceEquiv(f, c, w, b, j, to);
      RunSame(f, g, c, w, k);
    }
  }
}
