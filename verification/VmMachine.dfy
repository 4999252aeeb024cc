/** The bytecode machine: registers, stacks, memory regions and the instruction step. */
module VmMachine {

  const REGS: nat := 64
  /** Words on the operand stack. */
  const STACK: nat := 65536
  const CALLS: nat := 256
  const REGIONS: nat := 16
  const W: nat := 0x1_0000_0000_0000_0000

  type Word = n: nat | n < W
  type Byte = n: nat | n < 256

  const RA: nat := 1
  const SP: nat := 2
  const BP: nat := 3
  const FLAGS: nat := 5
  const FP: nat := 6
  const LOOPS: nat := 56
  const CYCLES: nat := 57
  const REGION_BASE: nat := 58
  const REGION_SIZE: nat := 59
  const SYSCALL: nat := 60
  const ERROR: nat := 61
  const CAPABILITY: nat := 62
  const HANDLER: nat := 63

  datatype State = Idle | Running | Halted | Trapped | Error | Waiting

  /** Undefined stands for what C leaves undefined: an access outside an array. */
  datatype Status = Ok | General | Invalid | Overflow | NotFound | Undefined

  datatype RunStatus = Finished | Failed(st: Status) | TimedOut | Unfinished

  datatype Region = Region(active: bool, size: Word, readonly: bool)

  const NoRegion: Region := Region(false, 0, false)

  predicate Flag(f: Word, bit: nat)
    requires bit < 8
  {
    match bit
    case 0 => f % 2 == 1
    case 1 => f / 2 % 2 == 1
    case 2 => f / 4 % 2 == 1
    case 3 => f / 8 % 2 == 1
    case 4 => f / 16 % 2 == 1
    case 5 => f / 32 % 2 == 1
    case 6 => f / 64 % 2 == 1
    case 7 => f / 128 % 2 == 1
  }

  /** The active region is -1 exactly when no region is active, and otherwise names an active one. */
  predicate ActiveOk(regions: seq<Region>, active: int) {
    if active == -1 then forall i :: 0 <= i < |regions| ==> !regions[i].active
    else 0 <= active < |regions| && regions[active].active
  }

  /** The lowest active region, -1 if there is none. */
  ghost predicate LowestActive(regions: seq<Region>, i: int) {
    ActiveOk(regions, i) && forall j :: 0 <= j < i ==> !regions[j].active
  }

  datatype Instr = Instr(op: nat, rd: nat, rs1: nat, rs2: nat) {
    /** The 24-bit branch target. */
    function Target(): nat {
      rd * 65536 + rs1 * 256 + rs2
    }

    /** The low 16 bits, sign-extended. */
    function Imm(): int {
      var x := rs1 * 256 + rs2;
      if x < 32768 then x else x - 65536
    }
  }

  /** Opcodes that write the register named by `rd`. */
  predicate WritesRd(op: nat) {
    0x10 <= op < 0x30 || 0x50 <= op <= 0x53 || 0x58 <= op <= 0x5B || op in {0x5D, 0x61, 0x6C, 0x85, 0xA0, 0xA1, 0xA3, 0xA5} ||
    op in {0xB2, 0xB4, 0xB5, 0xB6}
  }

  /** Opcodes that may continue elsewhere than at the next instruction. */
  predicate MovesPc(op: nat) {
    op == 0x02 || 0x40 <= op < 0x50 || 0x70 <= op < 0x80
  }

  /** Opcodes after which the machine runs on: jumps, and the start of a profile. */
  predicate StaysOn(op: nat) {
    0x40 <= op < 0x50 || op == 0xAC
  }

  /** Whether a conditional jump is taken, from the flags and its operand. */
  function Taken(op: nat, f: Word, v: Word): bool {
    match op
    case 0x40 => true
    case 0x41 => v == 0
    case 0x42 => v != 0
    case 0x43 => Flag(f, 4)
    case 0x44 => !Flag(f, 4)
    case 0x45 => Flag(f, 6)
    case 0x46 => Flag(f, 5)
    case 0x47 => Flag(f, 6) || Flag(f, 4)
    case 0x48 => Flag(f, 5) || Flag(f, 4)
    case 0x49 => !Flag(f, 2) && !Flag(f, 4)
    case 0x4A => Flag(f, 2)
    case 0x4B => !Flag(f, 2)
    case 0x4C => Flag(f, 2) || Flag(f, 4)
    case 0x4D => Flag(f, 2)
    case 0x4E => Flag(f, 3)
    case _ => false
  }

  /** The flags with one more of them set. */
  function WithFlag(f: Word, bit: nat): (r: Word)
    requires bit == 2 || bit == 7
    ensures Flag(r, bit)
  {
    FlagRoom(f);
    if Flag(f, bit) then f else f + if bit == 2 then 4 else 128
  }

  lemma FlagRoom(f: Word)
    ensures !Flag(f, 2) ==> f + 4 < W && Flag(f + 4, 2)
    ensures !Flag(f, 7) ==> f + 128 < W && Flag(f + 128, 7)
  {
    var a, b := f / 4, f / 128;
    assert (f + 4) / 4 == a + 1 && (f + 128) / 128 == b + 1;
  }

  /** Effective address: a signed byte offset, modulo 2^64. */
  function Address(v: Word, offset: nat): (a: Word) {
    (v + if offset % 256 < 128 then offset % 256 else offset % 256 - 256) % W
  }

  /** Access of `n` bytes at `a` in a space of `size`: inside, ignored as outside, or past the end because the sum wraps. */
  datatype Access = Inside | Outside | Wild

  function AccessOf(a: Word, n: nat, size: Word): (r: Access)
    requires 1 <= n <= 8
    ensures r == Inside ==> a < size
  {
    if n == 1 then (if a < size then Inside else Outside)
    else if (a + n) % W > size then Outside
    else if a + n >= W then Wild
    else Inside
  }

  /** Bytes touched by a load or a store. */
  function Width(op: nat): (n: nat)
    ensures 1 <= n <= 8
  {
    match op
    case 0x51 => 1
    case 0x52 => 2
    case 0x53 => 4
    case 0x55 => 1
    case 0x56 => 2
    case 0x57 => 4
    case _ => 8
  }

  /** The two topmost elements change places. */
  function Swapped(q: seq<Word>): seq<Word>
    requires |q| >= 2
  {
    q[..|q| - 2] + [q[|q| - 1], q[|q| - 2]]
  }

  /** The cycles left of a budget. */
  function Left(cycles: nat, budget: nat): nat {
    if cycles < budget then budget - cycles else 0
  }

  /** With `starts` profile starts, `n` instructions used the cycles of `starts` more budgets at most. */
  ghost predicate Within(n: nat, first: nat, cycles: nat, budget: nat, starts: nat) {
    budget > 0 ==> n + Left(cycles, budget) <= Left(first, budget) + starts * (budget + 1)
  }

  lemma WithinStart(cycles: nat, budget: nat)
    ensures Within(0, cycles, cycles, budget, 0)
  {
  }

  lemma WithinStep(n: nat, first: nat, cycles: nat, budget: nat, starts: nat, start: bool)
    requires Within(n, first, cycles, budget, starts) && (budget > 0 ==> cycles < budget)
    ensures Within(n + 1, first, if start then 0 else cycles + 1, budget, starts + if start then 1 else 0)
  {
    if start {
      assert (starts + 1) * (budget + 1) == starts * (budget + 1) + budget + 1;
    }
  }

  /** Without a profile start a run with a budget is over within as many rounds as there are cycles left, and one. */
  method RunStops(vm: Vm, budget: nat) returns (r: RunStatus, ghost starts: nat)
    requires vm.Valid() && budget > 0
    modifies vm`activeRegion, vm`state, vm`error, vm`cycles, vm`stackPtr, vm`callDepth, vm`pc
    modifies vm`executed, vm`lastCycles, vm.regs, vm.regions, vm.stack, vm.callStack
    ensures vm.Valid()
    ensures starts == 0 ==> r != Unfinished && vm.executed - old(vm.executed) <= Left(old(vm.cycles), budget)
  {
    r, starts := vm.Run(budget, Left(vm.cycles, budget) + 1);
  }

  /** A profile start and a jump back to it. */
  const ProfileLoop: seq<Byte> := [0xAC, 0, 0, 0, 0x40, 0, 0, 0]

  /** One instruction of the profile loop. */
  method ProfileStep(vm: Vm)
    requires vm.Valid() && vm.bytecode == ProfileLoop && vm.breakpoints == [] && vm.pc in {0, 4}
    requires vm.state in {Idle, Running}
    modifies vm`activeRegion, vm`state, vm`error, vm`cycles, vm`stackPtr, vm`callDepth, vm`pc
    modifies vm`executed, vm`lastCycles, vm.regs, vm.regions, vm.stack, vm.callStack
    ensures vm.Valid() && vm.state == Running && vm.executed == old(vm.executed) + 1
    ensures vm.pc == 4 - old(vm.pc) && vm.cycles == if old(vm.pc) == 0 then 0 else old(vm.cycles) + 1
  {
    hide Vm.Valid;
    assert ProfileLoop[0] == 0xAC && ProfileLoop[4] == 0x40;
    var st := vm.Step();
  }

  /**
   * Code that starts profiles outlasts every budget above 1: it runs on for any number of instructions with a
   * cycle count of at most 1.
   */
  method ProfileRunsOn(n: nat, results: (nat, nat) -> Word, callocs: nat -> bool) returns (vm: Vm)
    ensures vm.bytecode == ProfileLoop && vm.executed == n && vm.cycles <= 1
    ensures n > 0 ==> vm.state == Running
  {
    vm := new Vm(results, callocs);
    var st := vm.Load(ProfileLoop);
    hide Vm.Valid;
    for i := 0 to n
      invariant vm.Valid() && fresh(vm) && fresh(vm.regs) && fresh(vm.regions) && fresh(vm.stack) && fresh(vm.callStack)
      invariant vm.bytecode == ProfileLoop && vm.breakpoints == [] && vm.executed == i
      invariant if i == 0 then vm.state == Idle else vm.state == Running
      invariant (vm.pc == 0 && vm.cycles <= 1) || (vm.pc == 4 && vm.cycles == 0)
    {
      ProfileStep(vm);
    }
  }

  class Vm {
    var state: State
    var error: nat
    const regs: array<Word>
    const regions: array<Region>
    var activeRegion: int
    const stack: array<Word>
    var stackPtr: nat
    const callStack: array<Word>
    var callDepth: nat
    var bytecode: seq<Byte>
    var pc: nat
    var cycles: nat
    var lastCycles: nat
    var breakpoints: seq<nat>

    /** Instructions executed. */
    var executed: nat
    /** What the `t`-th instruction computes or loads, at index 256, and reads from fields past the register file. */
    const results: (nat, nat) -> Word
    /** Whether its heap request succeeds. */
    const callocs: nat -> bool

    ghost predicate Shape()
    {
      regs.Length == REGS && stack.Length == STACK && callStack.Length == CALLS && regions.Length == REGIONS &&
      regs != stack && regs != callStack && stack != callStack
    }

    /** What every instruction keeps. */
    ghost predicate Valid()
      reads this`stackPtr, this`callDepth, this`activeRegion, this`pc, this`bytecode, regs, regions
    {
      Shape() && regs[0] == 0 && stackPtr <= STACK && callDepth <= CALLS && ActiveOk(regions[..], activeRegion) &&
      pc < W && |bytecode| < W
    }

    constructor (results: (nat, nat) -> Word, callocs: nat -> bool)
      ensures Valid() && state == Idle && cycles == 0 && executed == 0 && activeRegion == -1 && stackPtr == callDepth == 0
      ensures fresh(regs) && fresh(stack) && fresh(callStack) && fresh(regions)
      ensures regs[SP] == STACK && regs[BP] == STACK && regs[HANDLER] == W - 1
      ensures bytecode == [] && breakpoints == [] && lastCycles == 0
    {
      regs := new Word[REGS](_ => 0);
      stack := new Word[STACK](_ => 0);
      callStack := new Word[CALLS](_ => 0);
      regions := new Region[REGIONS](_ => NoRegion);
      state, error, activeRegion, stackPtr, callDepth := Idle, 0, -1, 0, 0;
      bytecode, pc, cycles, lastCycles, breakpoints, executed := [], 0, 0, 0, [], 0;
      this.results, this.callocs := results, callocs;
      new;
      regs[SP], regs[BP], regs[HANDLER] := STACK, STACK, W - 1;
    }

    method Load(code: seq<Byte>) returns (st: Status)
      requires Valid() && |code| < W
      modifies this`bytecode, this`pc, this`state
      ensures Valid() && st == if |code| < 4 then Invalid else Ok
      ensures st == Ok ==> bytecode == code && pc == 0 && state == Idle
      ensures st != Ok ==> bytecode == old(bytecode) && pc == old(pc) && state == old(state)
    {
      if |code| < 4 {
        return Invalid;
      }
      bytecode, pc, state := code, 0, Idle;
      return Ok;
    }

    // ---- registers and stacks ----

    /** Register 0 reads as zero; a field past the register file reads whatever lies behind it. */
    function Get(r: nat): Word
      requires regs.Length == REGS
      reads this`executed, regs
    {
      if r == 0 then 0 else if r < REGS then regs[r] else results(executed, r)
    }

    method Set(r: nat, v: Word)
      requires Shape() && r < REGS
      modifies regs
      ensures regs[..] == if r == 0 then old(regs[..]) else old(regs[..])[r := v]
    {
      if r != 0 {
        regs[r] := v;
      }
    }

    /** The operand stack, bottom first. */
    ghost function Operands(): seq<Word>
      requires Shape() && stackPtr <= STACK
      reads this`stackPtr, stack
    {
      stack[..stackPtr]
    }

    method Push(v: Word) returns (st: Status)
      requires Valid()
      modifies this`stackPtr, this`state, this`error, stack
      ensures Valid() && st == if old(stackPtr) >= STACK then Overflow else Ok
      ensures st == Ok ==> Operands() == old(Operands()) + [v] && state == old(state) && error == old(error)
      ensures st != Ok ==> Operands() == old(Operands()) && state == Error && error == 1
    {
      if stackPtr >= STACK {
        error, state := 1, Error;
        return Overflow;
      }
      stack[stackPtr] := v;
      stackPtr := stackPtr + 1;
      return Ok;
    }

    method Pop() returns (st: Status, v: Word)
      requires Valid()
      modifies this`stackPtr, this`state, this`error
      ensures Valid() && st == if old(stackPtr) == 0 then General else Ok
      ensures st == Ok ==> old(Operands()) == Operands() + [v] && state == old(state) && error == old(error)
      ensures st != Ok ==> stackPtr == 0 && v == 0 && state == Error && error == 2
    {
      if stackPtr == 0 {
        error, state := 2, Error;
        return General, 0;
      }
      stackPtr := stackPtr - 1;
      v := stack[stackPtr];
      return Ok, v;
    }

    /** Return addresses, outermost first. */
    ghost function Returns(): seq<Word>
      requires Shape() && callDepth <= CALLS
      reads this`callDepth, callStack
    {
      callStack[..callDepth]
    }

    method PushCall(v: Word) returns (st: Status)
      requires Valid()
      modifies this`callDepth, this`state, this`error, callStack
      ensures Valid() && st == if old(callDepth) >= CALLS then Overflow else Ok
      ensures st == Ok ==> Returns() == old(Returns()) + [v] && state == old(state)
      ensures st != Ok ==> Returns() == old(Returns()) && state == Error && error == 3
    {
      if callDepth >= CALLS {
        error, state := 3, Error;
        return Overflow;
      }
      callStack[callDepth] := v;
      callDepth := callDepth + 1;
      return Ok;
    }

    method PopCall() returns (st: Status, v: Word)
      requires Valid()
      modifies this`callDepth, this`state, this`error
      ensures Valid() && st == if old(callDepth) == 0 then General else Ok
      ensures st == Ok ==> old(Returns()) == Returns() + [v] && state == old(state)
      ensures st != Ok ==> callDepth == 0 && state == Error && error == 4
    {
      if callDepth == 0 {
        error, state := 4, Error;
        return General, 0;
      }
      callDepth := callDepth - 1;
      v := callStack[callDepth];
      return Ok, v;
    }

    // ---- regions ----

    method FindFreeRegion() returns (i: int)
      requires Shape()
      ensures i == -1 ==> forall j :: 0 <= j < REGIONS ==> regions[j].active
      ensures i != -1 ==> 0 <= i < REGIONS && !regions[i].active && forall j :: 0 <= j < i ==> regions[j].active
    {
      for k := 0 to REGIONS
        invariant forall j :: 0 <= j < k ==> regions[j].active
      {
        if !regions[k].active {
          return k;
        }
      }
      return -1;
    }

    /** The lowest free slot becomes a region of at least 256 bytes when none are asked for; the first becomes active. */
    method RegionCreate(size: Word, readonly: bool, memory: bool) returns (i: int)
      requires Valid()
      modifies this`activeRegion, regions
      ensures Valid() && -1 <= i < REGIONS
      ensures i == -1 <==> !memory || forall j :: 0 <= j < REGIONS ==> old(regions[..])[j].active
      ensures i == -1 ==> regions[..] == old(regions[..]) && activeRegion == old(activeRegion)
      ensures i != -1 ==>
        !old(regions[..])[i].active && (forall j :: 0 <= j < i ==> old(regions[..])[j].active) &&
        regions[..] == old(regions[..])[i := Region(true, if size == 0 then 256 else size, readonly)] &&
        activeRegion == if old(activeRegion) < 0 then i else old(activeRegion)
    {
      i := FindFreeRegion();
      if i < 0 {
        return -1;
      }
      if !memory {
        return -1;
      }
      regions[i] := Region(true, if size == 0 then 256 else size, readonly);
      if activeRegion < 0 {
        activeRegion := i;
      }
    }

    /** Destroying the active region activates the lowest of the others. */
    method RegionDestroy(id: int) returns (st: Status)
      requires Valid()
      modifies this`activeRegion, regions
      ensures Valid()
      ensures st == if 0 <= id < REGIONS && old(regions[..])[id].active then Ok else NotFound
      ensures st != Ok ==> regions[..] == old(regions[..]) && activeRegion == old(activeRegion)
      ensures st == Ok ==> regions[..] == old(regions[..])[id := NoRegion.(readonly := old(regions[..])[id].readonly)]
      ensures st == Ok && id != old(activeRegion) ==> activeRegion == old(activeRegion)
      ensures st == Ok && id == old(activeRegion) ==> LowestActive(regions[..], activeRegion)
    {
      if id < 0 || id >= REGIONS || !regions[id].active {
        return NotFound;
      }
      regions[id] := Region(false, 0, regions[id].readonly);
      if activeRegion == id {
        activeRegion := -1;
        for i := 0 to REGIONS
          invariant activeRegion == -1 && forall j :: 0 <= j < i ==> !regions[j].active
        {
          if regions[i].active {
            activeRegion := i;
            break;
          }
        }
      }
      return Ok;
    }

    method RegionSetActive(id: int) returns (st: Status)
      requires Valid()
      modifies this`activeRegion, regs
      ensures Valid() && st == if 0 <= id < REGIONS && regions[id].active then Ok else NotFound
      ensures activeRegion == if st == Ok then id else old(activeRegion)
      ensures st != Ok ==> regs[..] == old(regs[..])
      ensures st == Ok ==> regs[..] == old(regs[..])[REGION_BASE := results(executed, 256)][REGION_SIZE := regions[id].size]
    {
      if id < 0 || id >= REGIONS || !regions[id].active {
        return NotFound;
      }
      activeRegion := id;
      regs[REGION_BASE], regs[REGION_SIZE] := results(executed, 256), regions[id].size;
      return Ok;
    }

    // ---- instructions ----

    method Trap(code: nat) returns (st: Status)
      requires Valid()
      modifies this`state, this`error, regs
      ensures Valid() && st == General && state == Trapped && error == code
    {
      state, error := Trapped, code;
      regs[FLAGS] := WithFlag(regs[FLAGS], 7);
      regs[ERROR] := code % W;
      return General;
    }

    method Fail(code: nat, st: Status) returns (r: Status)
      requires Valid()
      modifies this`state, this`error
      ensures Valid() && r == st && state == Error && error == code
    {
      state, error := Error, code;
      return st;
    }

    method SetSp()
      requires Valid()
      modifies regs
      ensures Valid() && regs[..] == old(regs[..])[SP := STACK - stackPtr]
    {
      regs[SP] := STACK - stackPtr;
    }

    /** System operations; `stop` marks those that return at once. */
    method System(i: Instr) returns (st: Status, stop: bool)
      requires Valid() && i.op < 0x10
      modifies this`state, this`error, this`pc, regs
      ensures Valid() && (i.op != 0x02 ==> pc == old(pc))
    {
      stop := false;
      st := Ok;
      match i.op {
        case 0x00 =>
        case 0x01 =>
          state, stop := Halted, true;
        case 0x02 =>
          var handler := regs[HANDLER];
          if handler != W - 1 {
            regs[RA] := pc;
            pc, error := handler, i.Imm() % 256;
          } else {
            st := Trap(i.Imm() % 256);
          }
        case 0x03 =>
          st := Fail(20, Invalid);
        case _ =>
          st := Trap(i.op);
      }
    }

    /** Arithmetic, logic and bit operations write one register; divisions check for zero. */
    method Compute(i: Instr) returns (st: Status)
      requires Valid() && 0x10 <= i.op < 0x30 && i.rd < REGS
      modifies this`state, this`error, regs
      ensures Valid()
      ensures st == (if i.op in {0x13, 0x14} && old(Get(i.rs2)) == 0 then General
                     else if i.op in {0x13, 0x14} && old(Get(i.rs1)) == W / 2 && old(Get(i.rs2)) == W - 1 then Undefined
                     else if i.op == 0x1C && old(Get(i.rs2)) in {0, W / 2} then General else Ok)
      ensures regs[..] == if st == Ok && i.rd != 0 then old(regs[..])[i.rd := results(executed, 256)] else old(regs[..])
    {
      var a, b := Get(i.rs1), Get(i.rs2);
      if i.op == 0x13 || i.op == 0x14 {
        if b == 0 {
          st := Fail(30, General);
          return;
        }
        if a == W / 2 && b == W - 1 {
          return Undefined;
        }
      }
      if i.op == 0x1C && (b == 0 || b == W / 2) {
        st := Fail(31, General);
        return;
      }
      Set(i.rd, results(executed, 256));
      return Ok;
    }

    method Jump(i: Instr)
      requires Valid() && 0x40 <= i.op < 0x50 && i.Target() < W
      modifies this`pc, regs
      ensures Valid()
      ensures i.op != 0x4F ==>
        pc == (if Taken(i.op, old(regs[FLAGS]), old(Get(i.rs1))) then i.Target() else old(pc)) && regs[..] == old(regs[..])
      ensures i.op == 0x4F ==> pc == if old(regs[LOOPS]) > 1 then i.Target() else old(pc)
      ensures i.op == 0x4F ==>
        regs[..] == if old(regs[LOOPS]) > 0 then old(regs[..])[LOOPS := old(regs[LOOPS]) - 1] else old(regs[..])
    {
      if i.op == 0x4F {
        if regs[LOOPS] > 0 {
          regs[LOOPS] := regs[LOOPS] - 1;
          if regs[LOOPS] != 0 {
            pc := i.Target();
          }
        }
      } else if Taken(i.op, regs[FLAGS], Get(i.rs1)) {
        pc := i.Target();
      }
    }

    /** Loads, stores and address computation, on the active region or, without one, on the stack. */
    method Memory(i: Instr) returns (st: Status)
      requires Valid() && 0x50 <= i.op < 0x60 && (WritesRd(i.op) ==> i.rd < REGS)
      modifies regs, stack
      ensures Valid() && st in {Ok, Undefined}
    {
      var v := results(executed, 256);
      var ea := Address(Get(i.rs1), i.rs2);
      if i.op <= 0x58 {
        if activeRegion >= 0 {
          var x := AccessOf(ea, Width(i.op), regions[activeRegion].size);
          if i.op == 0x58 {
            Set(i.rd, ea);
          } else if x == Wild {
            return Undefined;
          } else if i.op <= 0x53 {
            Set(i.rd, if x == Inside then v else 0);
          }
        } else {
          var addr := (regs[SP] - ea) % W;
          var x := AccessOf(addr, Width(i.op), STACK);
          if i.op == 0x58 {
            Set(i.rd, addr);
          } else if x == Wild {
            return Undefined;
          } else if x == Inside && i.op <= 0x53 {
            Set(i.rd, v);
          } else if x == Inside {
            stack[addr] := v;
          }
        }
      } else if i.op <= 0x5B {
        if activeRegion >= 0 {
          var x := AccessOf(ea, 8, regions[activeRegion].size);
          if x == Wild {
            return Undefined;
          }
          Set(i.rd, if x == Inside then v else 0);
        }
        if i.op == 0x59 {
          regs[FLAGS] := 0;
        }
      } else if i.op == 0x5D {
        var rid := Get(i.rs1) % 256;
        if rid < REGIONS && regions[rid].active && Get(i.rd) % 0x1_0000_0000 + 8 <= regions[rid].size {
          Set(i.rd, v);
        }
      }
      return Ok;
    }

    /** Push a value and refresh the stack pointer register. */
    method PushOp(v: Word) returns (st: Status)
      requires Valid()
      modifies this`stackPtr, this`state, this`error, stack, regs
      ensures Valid() && st == if old(stackPtr) >= STACK then Overflow else Ok
      ensures st == Ok ==> Operands() == old(Operands()) + [v]
    {
      st := Push(v);
      if st == Ok {
        SetSp();
      }
    }

    /** Pop into a register, register 0 for none. */
    method PopOp(r: nat) returns (st: Status)
      requires Valid() && r < REGS
      modifies this`stackPtr, this`state, this`error, regs
      ensures Valid() && st == if old(stackPtr) == 0 then General else Ok
      ensures st == Ok ==> |old(Operands())| > 0 && Operands() == old(Operands())[..old(stackPtr) - 1]
      ensures st == Ok && r != 0 && r != SP ==> regs[r] == old(Operands())[old(stackPtr) - 1]
    {
      var v;
      st, v := Pop();
      if st == Ok {
        Set(r, v);
        SetSp();
      }
    }

    /** Flags, a second operand, the stack check, and moving the stack pointer. */
    method StackMore(i: Instr) returns (st: Status)
      requires Valid() && 0x69 <= i.op < 0x70 && (WritesRd(i.op) ==> i.rd < REGS)
      modifies this`stackPtr, this`state, this`error, stack, regs
      ensures Valid()
      ensures i.op == 0x69 && st == Ok ==> Operands() == old(Operands()) + [old(regs[FLAGS])]
      ensures i.op == 0x6A && st == Ok ==>
        old(stackPtr) > 0 && Operands() == old(Operands())[..old(stackPtr) - 1] && regs[FLAGS] == old(Operands())[old(stackPtr) - 1]
      ensures i.op == 0x6B && st == Ok ==> Operands() == old(Operands()) + [old(Get(i.rs1))]
      ensures i.op == 0x6C && st == Ok ==> old(stackPtr) > 0 && Operands() == old(Operands())[..old(stackPtr) - 1]
      ensures i.op == 0x6D ==> st == Ok && stackPtr == old(stackPtr) && (old(stackPtr) > STACK - 256 ==> Flag(regs[FLAGS], 2))
      ensures i.op == 0x6E && st == Ok ==> stackPtr == old(stackPtr) + old(Get(i.rd)) / 8
      ensures i.op == 0x6F ==> st == Ok && stackPtr == if old(stackPtr) >= old(Get(i.rd)) / 8 then old(stackPtr) - old(Get(i.rd)) / 8 else 0
    {
      st := Ok;
      match i.op {
        case 0x69 =>
          st := PushOp(regs[FLAGS]);
        case 0x6A =>
          st := PopOp(FLAGS);
        case 0x6B =>
          st := PushOp(Get(i.rs1));
        case 0x6C =>
          st := PopOp(i.rd);
        case 0x6D =>
          if stackPtr > STACK - 256 {
            regs[FLAGS] := WithFlag(regs[FLAGS], 2);
          }
        case 0x6E =>
          stackPtr := stackPtr + Get(i.rd) / 8;
          if stackPtr > STACK {
            stackPtr := STACK;
            st := Trap(1);
          } else {
            SetSp();
          }
        case 0x6F =>
          var n := Get(i.rd) / 8;
          stackPtr := if stackPtr >= n then stackPtr - n else 0;
          SetSp();
      }
    }

    method Stack(i: Instr) returns (st: Status)
      requires Valid() && 0x60 <= i.op < 0x70 && (WritesRd(i.op) ==> i.rd < REGS)
      modifies this`stackPtr, this`state, this`error, stack, regs
      ensures Valid()
      ensures i.op == 0x60 && st == Ok ==> Operands() == old(Operands()) + [old(Get(i.rd))]
      ensures i.op == 0x61 && st == Ok ==> old(stackPtr) > 0 && Operands() == old(Operands())[..old(stackPtr) - 1]
      ensures i.op == 0x61 && st == Ok && i.rd != 0 && i.rd != SP ==> regs[i.rd] == old(Operands())[old(stackPtr) - 1]
      ensures i.op == 0x62 && st == Ok ==> Operands() == old(Operands()) + [i.Imm() % W]
      ensures i.op == 0x63 && st == Ok ==> old(stackPtr) > 0 && Operands() == old(Operands()) + [old(Operands())[old(stackPtr) - 1]]
      ensures i.op == 0x64 && st == Ok ==> old(stackPtr) >= 2 && Operands() == Swapped(old(Operands()))
      ensures i.op == 0x69 && st == Ok ==> Operands() == old(Operands()) + [old(regs[FLAGS])]
      ensures i.op == 0x6A && st == Ok ==>
        old(stackPtr) > 0 && Operands() == old(Operands())[..old(stackPtr) - 1] && regs[FLAGS] == old(Operands())[old(stackPtr) - 1]
      ensures i.op == 0x6B && st == Ok ==> Operands() == old(Operands()) + [old(Get(i.rs1))]
      ensures i.op == 0x6C && st == Ok ==> old(stackPtr) > 0 && Operands() == old(Operands())[..old(stackPtr) - 1]
      ensures i.op == 0x6D ==> st == Ok && stackPtr == old(stackPtr) && (old(stackPtr) > STACK - 256 ==> Flag(regs[FLAGS], 2))
      ensures i.op == 0x6E && st == Ok ==> stackPtr == old(stackPtr) + old(Get(i.rd)) / 8
      ensures i.op == 0x6F ==> st == Ok && stackPtr == if old(stackPtr) >= old(Get(i.rd)) / 8 then old(stackPtr) - old(Get(i.rd)) / 8 else 0
    {
      st := Ok;
      match i.op {
        case 0x60 =>
          st := PushOp(Get(i.rd));
        case 0x61 =>
          st := PopOp(i.rd);
        case 0x62 =>
          st := PushOp(i.Imm() % W);
        case 0x63 =>
          if stackPtr == 0 {
            st := Fail(2, General);
          } else {
            st := PushOp(stack[stackPtr - 1]);
          }
        case 0x64 =>
          if stackPtr < 2 {
            st := Fail(2, General);
          } else {
            stack[stackPtr - 1], stack[stackPtr - 2] := stack[stackPtr - 2], stack[stackPtr - 1];
          }
        case 0x65 =>
          st := Enter(if i.Imm() < 0 then 0 else i.Imm());
        case 0x66 =>
          st := Leave();
        case 0x67 =>
          st := PushAll();
        case 0x68 =>
          st := PopAll();
        case _ =>
          st := StackMore(i);
      }
    }

    /** The two pushes are not checked: on a full stack the machine is in error but goes on. */
    method Enter(frame: nat) returns (st: Status)
      requires Valid()
      modifies this`stackPtr, this`state, this`error, stack, regs
      ensures Valid() && st in {Ok, Overflow}
    {
      var s1 := Push(regs[BP]);
      var s2 := Push(regs[FP]);
      regs[FP] := regs[SP];
      stackPtr := stackPtr + frame / 8;
      if stackPtr > STACK {
        stackPtr := STACK;
        st := Fail(1, Overflow);
        return;
      }
      SetSp();
      return Ok;
    }

    /** A frame pointer beyond the stack would pop from outside it. */
    method Leave() returns (st: Status)
      requires Valid()
      modifies this`stackPtr, this`state, this`error, regs
      ensures Valid() && (st == Undefined <==> old(regs[FP]) > STACK) && st in {Ok, Undefined}
      ensures st == Ok ==>
        var top := STACK - old(regs[FP]);
        stackPtr == (if top >= 2 then top - 2 else 0) && regs[SP] == STACK - stackPtr &&
        regs[FP] == (if top > 0 then stack[top - 1] else 0) && regs[BP] == if top > 1 then stack[top - 2] else 0
    {
      if regs[FP] > STACK {
        return Undefined;
      }
      stackPtr := STACK - regs[FP];
      var s1, fp := Pop();
      var s2, bp := Pop();
      regs[FP], regs[BP] := fp, bp;
      SetSp();
      return Ok;
    }

    /** Push registers 1 to 15; on overflow those pushed so far stay. */
    method PushAll() returns (st: Status)
      requires Valid()
      modifies this`stackPtr, this`state, this`error, stack, regs
      ensures Valid() && st == if old(stackPtr) + 15 > STACK then Overflow else Ok
      ensures st == Ok ==> Operands() == old(Operands()) + old(regs[1..16])
    {
      for i := 1 to 16
        invariant Valid() && stackPtr == old(stackPtr) + i - 1
        invariant regs[..] == old(regs[..]) && Operands() == old(Operands()) + old(regs[1..i])
      {
        st := Push(regs[i]);
        if st != Ok {
          return;
        }
        assert old(regs[1..i + 1]) == old(regs[1..i]) + [old(regs[i])];
      }
      SetSp();
      return Ok;
    }

    method PopAll() returns (st: Status)
      requires Valid()
      modifies this`stackPtr, this`state, this`error, regs
      ensures Valid() && st == if old(stackPtr) < 15 then General else Ok
      ensures st == Ok ==> stackPtr == old(stackPtr) - 15
      ensures st == Ok ==> forall k :: 1 <= k < 16 && k != SP ==> regs[k] == old(Operands()[stackPtr - 16 + k])
    {
      var i := 15;
      while i >= 1
        invariant 0 <= i <= 15 && Valid() && stackPtr == old(stackPtr) - (15 - i)
        invariant forall k :: i < k < 16 ==> regs[k] == old(stack[stackPtr - 16 + k])
      {
        var v;
        st, v := Pop();
        if st != Ok {
          return;
        }
        assert v == stack[stackPtr];
        regs[i] := v;
        i := i - 1;
      }
      SetSp();
      return Ok;
    }

    /** Calls save the address of the next instruction; a return with no caller halts. */
    method Call(i: Instr) returns (st: Status, stop: bool)
      requires Valid() && 0x70 <= i.op < 0x80 && i.Target() < W
      modifies this`stackPtr, this`callDepth, this`pc, this`state, this`error, callStack, regs
      ensures Valid() && (i.op != 0x73 ==> stackPtr == old(stackPtr))
      ensures i.op == 0x71 && st == Ok ==> pc == i.Target() && Returns() == old(Returns()) + [old(pc)]
      ensures i.op == 0x72 && old(callDepth) > 0 ==>
        st == Ok && !stop && pc == old(Returns())[old(callDepth) - 1] && Returns() == old(Returns())[..old(callDepth) - 1]
      ensures i.op == 0x72 && old(callDepth) == 0 ==> st == Ok && stop && state == Halted
    {
      st, stop := Ok, false;
      match i.op {
        case 0x70 =>
          st := CallTo(Get(i.rs1));
        case 0x71 =>
          st := CallTo(i.Target());
        case 0x72 =>
          stop := Return();
        case 0x73 =>
          stop := Return();
          if !stop {
            var s, flags := Pop();
            regs[FLAGS] := flags;
          }
        case 0x74 =>
          regs[RA] := pc;
          error := regs[SYSCALL] % 256;
        case 0x75 =>
          st := CallTo(Get(i.rd));
        case 0x76 =>
          pc := Get(i.rs1);
        case 0x77 =>
          st := CallTo(Get(i.rs1));
        case 0x7B =>
          st := Fail(Get(i.rs1) % 256, General);
        case 0x7C =>
          regs[HANDLER] := Get(i.rs1);
        case 0x7D =>
        case 0x7E =>
          st := Fail(50, General);
        case 0x7F =>
          regs[HANDLER] := Get(i.rs1);
        case _ =>
          st := Trap(i.op);
      }
    }

    method CallTo(target: Word) returns (st: Status)
      requires Valid()
      modifies this`callDepth, this`pc, this`state, this`error, callStack
      ensures Valid() && st == if old(callDepth) >= CALLS then Overflow else Ok
      ensures st == Ok ==> pc == target && Returns() == old(Returns()) + [old(pc)]
      ensures st != Ok ==> pc == old(pc)
    {
      st := PushCall(pc);
      if st == Ok {
        pc := target;
      }
    }

    method Return() returns (halted: bool)
      requires Valid()
      modifies this`callDepth, this`pc, this`state, this`error
      ensures Valid() && halted == (old(callDepth) == 0)
      ensures halted ==> state == Halted && pc == old(pc)
      ensures !halted ==> pc == old(Returns())[old(callDepth) - 1] && Returns() == old(Returns())[..old(callDepth) - 1]
    {
      var st, v := PopCall();
      if st != Ok {
        state := Halted;
        return true;
      }
      pc := v;
      return false;
    }

    method Agent(i: Instr) returns (st: Status, stop: bool)
      requires Valid() && 0x80 <= i.op < 0x90 && (WritesRd(i.op) ==> i.rd < REGS)
      modifies this`state, this`error, regs
      ensures Valid()
    {
      st, stop := Ok, false;
      if i.op <= 0x84 {
        regs[ERROR] := 0;
      } else if i.op == 0x85 {
        Set(i.rd, 42);
        regs[ERROR] := 0;
      } else if i.op == 0x86 {
        state, stop := Waiting, true;
      } else if i.op == 0x87 {
        regs[CAPABILITY] := Get(i.rs1);
      } else if i.op == 0x88 {
        regs[FLAGS] := results(executed, 256);
      } else if i.op == 0x89 {
        regs[CAPABILITY] := results(executed, 256);
      } else {
        st := Trap(i.op);
      }
    }

    /** Tiles, regions, profiling and gas. Starting a profile clears the cycle count. */
    method Flux(i: Instr) returns (st: Status)
      requires Valid() && 0xA0 <= i.op < 0xB0 && (WritesRd(i.op) ==> i.rd < REGS)
      modifies this`activeRegion, this`state, this`error, this`cycles, regs, regions
      ensures Valid() && cycles == if i.op == 0xAC then 0 else old(cycles)
      ensures i.op !in {0xA3, 0xA4} ==> regions[..] == old(regions[..]) && activeRegion == old(activeRegion)
      ensures i.op == 0xAC ==> st == Ok && state == old(state)
    {
      st := Ok;
      var v := Get(i.rs1);
      if i.op == 0xA0 || i.op == 0xA1 {
        Set(i.rd, results(executed, 256));
      } else if i.op == 0xA3 {
        var r := RegionCreate(v, false, callocs(executed));
        Set(i.rd, if r == -1 then W - 1 else r);
      } else if i.op == 0xA4 {
        var s := RegionDestroy(v % 256);
      } else if i.op == 0xA5 {
        if v < REGIONS && regions[v].active {
          Set(i.rd, results(executed, 256));
        }
      } else if i.op == 0xAC {
        cycles := 0;
      } else if i.op == 0xAE {
        regs[CYCLES] := Get(i.rd);
      } else if i.op == 0xAF {
        var gas, cost := regs[CYCLES], Get(i.rd);
        if gas < cost {
          st := Trap(0xFE);
        } else {
          regs[CYCLES] := gas - cost;
        }
      }
    }

    method Native(i: Instr) returns (st: Status)
      requires Valid() && 0xB0 <= i.op < 0xB8 && (WritesRd(i.op) ==> i.rd < REGS)
      modifies this`state, this`error, regs
      ensures Valid()
    {
      if i.op <= 0xB1 {
        st := Trap(i.op);
        return;
      }
      if WritesRd(i.op) {
        Set(i.rd, if i.op == 0xB2 then Get(i.rs1) else results(executed, 256));
      }
      return Ok;
    }

    /** The four instruction bytes at `at`. */
    function Decode(at: nat): (i: Instr)
      requires at + 4 <= |bytecode|
      reads this`bytecode
      ensures i.op < 256 && i.Target() < 0x1_00_0000
    {
      Instr(bytecode[at], bytecode[at + 1], bytecode[at + 2], bytecode[at + 3])
    }

    /** Carry out one decoded instruction. */
    method Dispatch(i: Instr) returns (st: Status, stop: bool)
      requires Valid() && i.op < 256 && i.Target() < W && (WritesRd(i.op) ==> i.rd < REGS)
      modifies this`activeRegion, this`state, this`error, this`cycles, this`stackPtr, this`callDepth, this`pc
      modifies regs, regions, stack, callStack
      ensures Valid() && cycles == if i.op == 0xAC then 0 else old(cycles)
      ensures !(0x70 <= i.op < 0x80) ==> Returns() == old(Returns())
      ensures i.op !in {0xA3, 0xA4} ==> regions[..] == old(regions[..]) && activeRegion == old(activeRegion)
      ensures !(0x60 <= i.op < 0x70) && i.op != 0x73 ==> stackPtr == old(stackPtr)
      ensures !MovesPc(i.op) ==> pc == old(pc)
      ensures 0x40 <= i.op < 0x4F ==> pc == if Taken(i.op, old(regs[FLAGS]), old(Get(i.rs1))) then i.Target() else old(pc)
      ensures StaysOn(i.op) ==> st == Ok && !stop && state == old(state)
      ensures i.op == 0x71 && st == Ok ==> pc == i.Target() && Returns() == old(Returns()) + [old(pc)]
      ensures i.op == 0x72 && old(callDepth) > 0 ==>
        pc == old(Returns())[old(callDepth) - 1] && Returns() == old(Returns())[..old(callDepth) - 1]
      ensures i.op == 0x72 && old(callDepth) == 0 ==> state == Halted
    {
      st, stop := Ok, false;
      if i.op < 0x10 {
        st, stop := System(i);
      } else if i.op < 0x30 {
        st := Compute(i);
      } else if i.op < 0x40 {
        regs[FLAGS] := results(executed, 256);
      } else if i.op < 0x50 {
        Jump(i);
      } else if i.op < 0x60 {
        st := Memory(i);
      } else if i.op < 0x70 {
        st := Stack(i);
      } else if i.op < 0x80 {
        st, stop := Call(i);
      } else if i.op < 0x90 {
        st, stop := Agent(i);
      } else if i.op < 0xA0 {
        regs[ERROR] := 0;
      } else if i.op < 0xB0 {
        st := Flux(i);
      } else if i.op < 0xB8 {
        st := Native(i);
      } else {
        st := Fail(20, Invalid);
      }
    }

    /** Can an instruction be fetched here? */
    method Fetchable() returns (st: Status)
      requires Valid()
      modifies this`state, this`error
      ensures Valid() && (st == Ok ==> pc + 4 <= |bytecode| && state == old(state) && old(state) !in {Halted, Error})
      ensures st != Ok && state == Running ==> st == Undefined && old(state) == Running
      ensures breakpoints == [] && pc + 4 <= |bytecode| && old(state) !in {Halted, Error} ==> st == Ok
    {
      if state == Halted || state == Error {
        return General;
      }
      for k := 0 to |breakpoints|
        invariant state == old(state)
      {
        if breakpoints[k] == pc % 0x1_0000_0000 {
          state, error := Trapped, 0;
          return General;
        }
      }
      if (pc + 4) % W > |bytecode| {
        st := Fail(10, General);
        return;
      }
      return if pc + 4 >= W then Undefined else Ok;
    }

    /**
     * One instruction. Whatever it is and whatever it computes, the machine stays valid; unless it starts
     * a profile it counts one cycle, and nothing is counted when no instruction is fetched.
     */
    method Step() returns (st: Status)
      requires Valid()
      modifies this`activeRegion, this`state, this`error, this`cycles, this`stackPtr, this`callDepth, this`pc
      modifies this`executed, this`lastCycles, regs, regions, stack, callStack
      ensures Valid()
      ensures executed == old(executed) ==> cycles == old(cycles) && lastCycles == old(lastCycles) && st != Ok
      ensures executed == old(executed) || executed == old(executed) + 1
      ensures executed > old(executed) ==> old(pc) + 4 <= |bytecode| && lastCycles == 1
      ensures executed > old(executed) ==> cycles == if bytecode[old(pc)] == 0xAC then 0 else old(cycles) + 1
      ensures executed > old(executed) ==> old(state) !in {Halted, Error}
      ensures executed > old(executed) && !MovesPc(bytecode[old(pc)]) ==> pc == old(pc) + 4
      ensures executed > old(executed) && StaysOn(bytecode[old(pc)]) ==> st == Ok && state == Running
      ensures executed > old(executed) && bytecode[old(pc)] == 0x40 ==> pc == old(Decode(pc)).Target()
      ensures (breakpoints == [] && old(pc) + 4 <= |bytecode| && old(state) !in {Halted, Error} && !WritesRd(bytecode[old(pc)]))
        ==> executed == old(executed) + 1
      ensures executed > old(executed) && !(0x70 <= bytecode[old(pc)] < 0x80) ==> Returns() == old(Returns())
      ensures executed > old(executed) && bytecode[old(pc)] !in {0xA3, 0xA4} ==>
        regions[..] == old(regions[..]) && activeRegion == old(activeRegion)
      ensures executed > old(executed) && bytecode[old(pc)] == 0x71 && st == Ok ==>
        pc == old(Decode(pc)).Target() && Returns() == old(Returns()) + [old(pc) + 4]
      ensures executed > old(executed) && bytecode[old(pc)] == 0x72 && old(callDepth) > 0 ==>
        pc == old(Returns())[old(callDepth) - 1] && Returns() == old(Returns())[..old(callDepth) - 1]
    {
      hide Valid, WritesRd;
      st := Fetchable();
      if st != Ok {
        return;
      }
      var i := Decode(pc);
      if WritesRd(i.op) && i.rd >= REGS {
        return Undefined;
      }
      Advance();
      var stop;
      st, stop := Dispatch(i);
      if st == Ok && !stop {
        ShowCycles();
      }
    }

    /** Count the instruction and move past it. */
    method Advance()
      requires Valid() && pc + 4 <= |bytecode|
      modifies this`state, this`cycles, this`executed, this`lastCycles, this`pc
      ensures Valid() && state == Running && lastCycles == 1 && pc == old(pc) + 4
      ensures cycles == old(cycles) + 1 && executed == old(executed) + 1
    {
      state := Running;
      cycles, executed, lastCycles := cycles + 1, executed + 1, 1;
      pc := pc + 4;
    }

    method ShowCycles()
      requires Valid()
      modifies regs
      ensures Valid() && Returns() == old(Returns())
    {
      regs[CYCLES] := cycles % W;
    }

    /**
     * The first `turns` rounds of the run loop; budget 0 is no budget. Each instruction uses up a cycle of the budget,
     * and one that starts a profile gives the whole budget back: `starts` counts those.
     */
    method Run(budget: nat, turns: nat) returns (r: RunStatus, ghost starts: nat)
      requires Valid()
      modifies this`activeRegion, this`state, this`error, this`cycles, this`stackPtr, this`callDepth, this`pc
      modifies this`executed, this`lastCycles, regs, regions, stack, callStack
      ensures Valid() && executed >= old(executed)
      ensures Within(executed - old(executed), old(cycles), cycles, budget, starts)
      ensures starts == 0 ==> executed - old(executed) == cycles - old(cycles)
      ensures r == Unfinished ==> state == Running && executed - old(executed) == turns
      ensures r == TimedOut ==> state == Waiting && cycles >= budget > 0
      ensures r == Finished ==> state != Running
    {
      hide Valid, Within, MovesPc, StaysOn, WritesRd;
      state := Running;
      starts := 0;
      WithinStart(cycles, budget);
      for i := 0 to turns
        invariant Valid() && state == Running && executed == old(executed) + i
        invariant starts == 0 ==> executed - old(executed) == cycles - old(cycles)
        invariant Within(i, old(cycles), cycles, budget, starts)
      {
        if budget > 0 && cycles >= budget {
          state := Waiting;
          return TimedOut, starts;
        }
        ghost var at, before := pc, cycles;
        var st := Step();
        ghost var start := executed > old(executed) + i && bytecode[at] == 0xAC;
        if executed > old(executed) + i {
          WithinStep(i, old(cycles), before, budget, starts, start);
          starts := starts + if start then 1 else 0;
        }
        if st != Ok {
          return Failed(st), starts;
        }
        if state != Running {
          return Finished, starts;
        }
      }
      return Unfinished, starts;
    }
  }
}
