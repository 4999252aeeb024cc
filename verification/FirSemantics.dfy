/** What a FIR function does when it runs: one step executes one basic block.
    PHIs are evaluated in parallel from the environment in which the block is entered. */
module FirSemantics {
  import opened Wrappers
  import opened FirSyntax

  const TWO64: int := 0x1_0000_0000_0000_0000
  const TWO63: int := 0x8000_0000_0000_0000

  /** Two's-complement reduction to 64 bits. */
  function Wrap64(x: int): (r: Int64)
    ensures INT64_MIN <= x <= INT64_MAX ==> r == x
    ensures (r - x) % TWO64 == 0
  {
    (x + TWO63) % TWO64 - TWO63
  }

  /** Division that truncates toward zero, and its remainder, which takes the sign of the dividend. */
  function TruncDiv(a: int, b: int): int
    requires b != 0
  {
    if (a >= 0) == (b > 0) then Magnitude(a) / Magnitude(b) else -(Magnitude(a) / Magnitude(b))
  }

  function TruncMod(a: int, b: int): int
    requires b != 0
  {
    a - b * TruncDiv(a, b)
  }

  function Magnitude(x: int): (r: nat)
    ensures x != 0 ==> r > 0
  {
    if x < 0 then -x else x
  }

  function Pow2(n: nat): (r: nat)
    ensures r > 0
  {
    if n == 0 then 1 else 2 * Pow2(n - 1)
  }

  function Bits(x: Int64): bv64 {
    (if x < 0 then x + TWO64 else x) as bv64
  }

  function Signed(x: bv64): Int64 {
    Wrap64(x as int)
  }

  function Truth(b: bool): Int64 {
    if b then 1 else 0
  }

  /** Result of an operation whose value the operands determine; `None` when it comes from
      outside the function (calls, memory, floating point) or is unspecified (division by zero). */
  function Pure(op: Op, datum: Int64, args: seq<Int64>): Option<Int64> {
    if op.Const? then Some(datum)
    else if |args| >= 1 && op.Neg? then (var a: int := args[0]; Some(Wrap64(-a)))
    else if |args| >= 1 && op.Abs? then Some(Wrap64(Magnitude(args[0])))
    else if |args| >= 1 && op.Not? then Some(Signed(!Bits(args[0])))
    else if |args| >= 2 then Binary(op, args[0], args[1])
    else None
  }

  function Binary(op: Op, a: Int64, b: Int64): Option<Int64> {
    match op
    case Add => Some(Wrap64(a + b))
    case Sub => Some(Wrap64(a - b))
    case Mul => Some(Wrap64(a * b))
    case Div => if b == 0 then None else Some(Wrap64(TruncDiv(a, b)))
    case Mod => if b == 0 then None else Some(Wrap64(TruncMod(a, b)))
    case And => Some(Signed(Bits(a) & Bits(b)))
    case Or => Some(Signed(Bits(a) | Bits(b)))
    case Xor => Some(Signed(Bits(a) ^ Bits(b)))
    case Shl => Some(Wrap64(a * Pow2(b % 64)))
    case Shr => Some(Wrap64(a / Pow2(b % 64)))
    case Eq => Some(Truth(a == b))
    case Ne => Some(Truth(a != b))
    case Lt => Some(Truth(a < b))
    case Gt => Some(Truth(a > b))
    case Le => Some(Truth(a <= b))
    case Ge => Some(Truth(a >= b))
    case _ => None
  }

  /** One observable action: which value ran, on what arguments, and what came back. */
  datatype Event = Event(id: nat, op: Op, datum: Int64, args: seq<Int64>, result: Int64)

  /** The outside of the function. `oracle` answers every operation that `Pure` does not; it may
      depend on how many blocks have run and on everything observed so far. `init` is whatever an
      id holds before it is defined (parameters, or garbage). */
  datatype World = World(oracle: (nat, seq<Event>, nat, Op, Int64, seq<Int64>) -> Int64, init: nat -> Int64)

  type Env = map<nat, Int64>

  datatype Status = Running | Returned(result: Option<Int64>) | Stuck

  datatype State = State(cur: nat, prev: Option<nat>, env: Env, trace: seq<Event>, status: Status, time: nat)

  function Read(w: World, env: Env, id: nat): Int64 {
    if id in env then env[id] else w.init(id)
  }

  function Args(w: World, env: Env, ids: seq<nat>): (r: seq<Int64>)
    ensures |r| == |ids|
    ensures forall i :: 0 <= i < |ids| ==> r[i] == Read(w, env, ids[i])
  {
    seq(|ids|, i requires 0 <= i < |ids| => Read(w, env, ids[i]))
  }

  function Result(w: World, st: State, v: Value): Int64 {
    var args := Args(w, st.env, ReadOps(v));
    match Pure(v.op, v.datum, args)
    case Some(r) => r
    case None => w.oracle(st.time, st.trace, v.id, v.op, v.datum, args)
  }

  /** Execute a value that is neither a PHI nor a terminator. */
  function ExecValue(w: World, st: State, v: Value): State {
    var args := Args(w, st.env, ReadOps(v));
    var r := Result(w, st, v);
    st.(env := st.env[v.id := r],
    trace := if IsEffect(v.op) then st.trace + [Event(v.id, v.op, v.datum, args, r)] else st.trace)
  }

  /** Position of the incoming edge from block `prev`, or `|phi|`. */
  function PhiEdge(phi: seq<PhiSource>, prev: Option<nat>, i: nat): (r: nat)
    requires i <= |phi|
    ensures i <= r <= |phi|
    ensures r < |phi| ==> prev == Some(phi[r].blk)
    decreases |phi| - i
  {
    if i == |phi| || prev == Some(phi[i].blk) then i else PhiEdge(phi, prev, i + 1)
  }

  function PhiValue(w: World, st: State, v: Value): Int64 {
    var p := PhiEdge(v.phi, st.prev, 0);
    if p < |v.phi| then Read(w, st.env, v.phi[p].src)
    else w.oracle(st.time, st.trace, v.id, v.op, v.datum, [])
  }

  /** The environment after the PHIs among `vs[i..]`, each read in the entry state `st`. */
  function PhiEnv(w: World, st: State, vs: seq<Value>, i: nat, env: Env): Env
    requires i <= |vs|
    decreases |vs| - i
  {
    if i == |vs| then env
    else if vs[i].op.Phi? then PhiEnv(w, st, vs, i + 1, env[vs[i].id := PhiValue(w, st, vs[i])])
    else PhiEnv(w, st, vs, i + 1, env)
  }

  function Goto(f: Func, st: State, b: nat, target: int): State
    requires b < |f.blocks|
  {
    var t := FindBlock(f, target);
    if t < |f.blocks| then st.(cur := t, prev := Some(f.blocks[b].id)) else st.(status := Stuck)
  }

  function Terminate(f: Func, w: World, st: State, b: nat, v: Value): State
    requires b < |f.blocks|
  {
    if v.op.Jump? then Goto(f, st, b, v.datum)
    else if v.op.Return? then
      st.(status := Returned(if |v.operands| >= 1 then Some(Read(w, st.env, v.operands[0])) else None))
    else if v.op.Branch? && |v.operands| >= 3 then
      Goto(f, st, b, if Read(w, st.env, v.operands[0]) != 0 then v.operands[1] else v.operands[2])
    else st.(status := Stuck)
  }

  /** Run values `i..` of block `b` up to its first terminator; falling off the end is stuck. */
  function ExecFrom(f: Func, w: World, st: State, b: nat, i: nat): State
    requires b < |f.blocks| && i <= |f.blocks[b].values|
    decreases |f.blocks[b].values| - i
  {
    var vs := f.blocks[b].values;
    if i == |vs| then st.(status := Stuck)
    else if IsTerminator(vs[i].op) then Terminate(f, w, st, b, vs[i])
    else if vs[i].op.Phi? then ExecFrom(f, w, st, b, i + 1)
    else ExecFrom(f, w, ExecValue(w, st, vs[i]), b, i + 1)
  }

  function EnterBlock(f: Func, w: World, st: State): State
    requires st.cur < |f.blocks|
  {
    st.(env := PhiEnv(w, st, f.blocks[st.cur].values, 0, st.env))
  }

  function StepBlock(f: Func, w: World, st: State): State {
    if !st.status.Running? then st
    else if st.cur >= |f.blocks| then st.(status := Stuck)
    else
      var next := ExecFrom(f, w, EnterBlock(f, w, st), st.cur, 0);
      next.(time := st.time + 1)
  }

  function Start(f: Func): State {
    State(f.entry, None, map[], [], Running, 0)
  }

  /** The state after `k` block steps. */
  function Run(f: Func, w: World, k: nat): State {
    if k == 0 then Start(f) else StepBlock(f, w, Run(f, w, k - 1))
  }

  /** Everything an outside observer sees: where control is, the effects so far, and the outcome. */
  datatype View = View(cur: nat, prev: Option<nat>, trace: seq<Event>, status: Status, time: nat)

  function Observe(st: State): View {
    View(st.cur, st.prev, st.trace, st.status, st.time)
  }

  /** Same effects, same control and same outcome after every number of steps, in every world. */
  ghost predicate SameMeaning(f: Func, g: Func) {
    forall w: World, k: nat :: Observe(Run(f, w, k)) == Observe(Run(g, w, k))
  }

  lemma SameMeaningTransitive(f: Func, g: Func, h: Func)
    requires SameMeaning(f, g) && SameMeaning(g, h)
    ensures SameMeaning(f, h)
  {
    forall w: World, k: nat
      ensures Observe(Run(f, w, k)) == Observe(Run(h, w, k))
    {
      assert Observe(Run(f, w, k)) == Observe(Run(g, w, k));
    }
  }
}
