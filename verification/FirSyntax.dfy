/** The FLUX intermediate representation: values, basic blocks and functions.
    An opcode list, the operand conventions, and the static properties that the
    optimisation passes are stated against. */
module FirSyntax {

  const INT64_MIN: int := -0x8000_0000_0000_0000
  const INT64_MAX: int := 0x7FFF_FFFF_FFFF_FFFF

  type Int64 = x: int | INT64_MIN <= x <= INT64_MAX

  datatype Op =
    | Const | ConstF
    | Add | Sub | Mul | Div | Mod | Neg | Abs
    | And | Or | Xor | Not | Shl | Shr
    | Eq | Ne | Lt | Gt | Le | Ge
    | Jump | Branch | Return | Call | Phi
    | Alloc | Load | Store | Gep
    | Extract | Insert | Aggregate
    | Delegate | Tell | Ask | Barrier | Spawn
    | Tile | Region | Compose | Adapt
    | Syscall | Intrinsic | Trap

  /** One incoming edge of a PHI: the value to take when control arrives from block `blk`. */
  datatype PhiSource = PhiSource(src: nat, blk: nat)

  /** `datum` is the 64-bit union of the source: the constant of a CONST, the target
      block id of a JUMP, the symbol of a CALL. */
  datatype Value = Value(id: nat, op: Op, operands: seq<nat>, datum: Int64, phi: seq<PhiSource>)

  datatype Block = Block(id: nat, values: seq<Value>)

  datatype Func = Func(blocks: seq<Block>, entry: nat)

  predicate IsTerminator(op: Op) {
    op.Jump? || op.Branch? || op.Return?
  }

  /** Operations dead-code elimination must keep even when their result is unused. */
  predicate IsEffect(op: Op) {
    op.Call? || op.Store? || op.Syscall? || op.Intrinsic? || op.Trap? ||
    op.Delegate? || op.Tell? || op.Ask? || op.Spawn? || op.Barrier?
  }

  predicate IsArith(op: Op) {
    op.Add? || op.Sub? || op.Mul? || op.Div? || op.Mod? || op.Neg? || op.Abs?
  }

  predicate IsBitwise(op: Op) {
    op.And? || op.Or? || op.Xor? || op.Not? || op.Shl? || op.Shr?
  }

  predicate IsCompare(op: Op) {
    op.Eq? || op.Ne? || op.Lt? || op.Gt? || op.Le? || op.Ge?
  }

  /** `id` is the source of some incoming edge of a PHI. */
  predicate InSources(phi: seq<PhiSource>, id: nat) {
    exists p :: 0 <= p < |phi| && phi[p].src == id
  }

  /** A use as the passes count it: every operand slot (the block ids of a BRANCH
      included) and every PHI source. */
  predicate Mentions(v: Value, id: nat) {
    id in v.operands || InSources(v.phi, id)
  }

  /** `(b, j)` names a value of `f`. */
  predicate IsPos(f: Func, b: nat, j: nat) {
    b < |f.blocks| && j < |f.blocks[b].values|
  }

  function At(f: Func, b: nat, j: nat): Value
    requires IsPos(f, b, j)
  {
    f.blocks[b].values[j]
  }

  ghost predicate Used(f: Func, id: nat) {
    exists b: nat, j: nat :: IsPos(f, b, j) && Mentions(At(f, b, j), id)
  }

  /** The operand slots that name values, as opposed to the block ids of a BRANCH. */
  function ReadOps(v: Value): (r: seq<nat>)
    ensures forall o :: o in r ==> o in v.operands
  {
    if v.op.Phi? || v.op.Jump? then []
    else if v.op.Branch? || v.op.Return? then
      if |v.operands| == 0 then [] else [v.operands[0]]
    else v.operands
  }

  /** The block ids control may go to after a terminator. */
  function Targets(v: Value): seq<int> {
    if v.op.Jump? then [v.datum]
    else if v.op.Branch? && |v.operands| >= 3 then [v.operands[1], v.operands[2]]
    else []
  }

  /** Index of the first block carrying `id`, or `|f.blocks|` when there is none. */
  function FindBlock(f: Func, id: int): (r: nat)
    ensures r <= |f.blocks|
    ensures r < |f.blocks| ==> f.blocks[r].id == id
  {
    FindBlockFrom(f.blocks, id, 0)
  }

  function FindBlockFrom(blocks: seq<Block>, id: int, i: nat): (r: nat)
    requires i <= |blocks|
    ensures i <= r <= |blocks|
    ensures r < |blocks| ==> blocks[r].id == id
    ensures forall k :: i <= k < r ==> blocks[k].id != id
    decreases |blocks| - i
  {
    if i == |blocks| || blocks[i].id == id then i else FindBlockFrom(blocks, id, i + 1)
  }

  /** Every value is defined once in the whole function. */
  ghost predicate UniqueIds(f: Func) {
    forall b: nat, j: nat, c: nat, k: nat ::
      IsPos(f, b, j) && IsPos(f, c, k) && At(f, b, j).id == At(f, c, k).id ==> b == c && j == k
  }

  /** Two functions with the same blocks in the same places under the same ids. */
  ghost predicate SameBlockIds(f: Func, g: Func) {
    |f.blocks| == |g.blocks| && f.entry == g.entry &&
    forall b: nat :: b < |f.blocks| ==> f.blocks[b].id == g.blocks[b].id
  }

  lemma {:induction false} FindBlockSame(f: Func, g: Func, id: int)
    requires SameBlockIds(f, g)
    ensures FindBlock(f, id) == FindBlock(g, id)
  {
    FindBlockFromSame(f, g, id, 0);
  }

  lemma {:induction false} FindBlockFromSame(f: Func, g: Func, id: int, i: nat)
    requires SameBlockIds(f, g) && i <= |f.blocks|
    ensures FindBlockFrom(f.blocks, id, i) == FindBlockFrom(g.blocks, id, i)
    decreases |f.blocks| - i
  {
    if i < |f.blocks| {
      FindBlockFromSame(f, g, id, i + 1);
    }
  }
}
