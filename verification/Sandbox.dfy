/** Running an agent's code under limits on ticks, memory and I/O. */
module Sandbox {
  import V = VmMachine

  const STEP_CAP: nat := 10000000

  datatype State = Created | Initializing | Idle | Thinking | Waiting | Delegating | Terminated | Failed

  /** Undefined is where C leaves the machine step undefined. */
  datatype Status = Ok | General | Invalid | Denied | Busy | Undefined

  predicate IsIo(op: nat) {
    0x90 <= op <= 0x97
  }

  predicate IsA2a(op: nat) {
    0x80 <= op <= 0x84 || op == 0x86
  }

  /** The sizes of all active regions together. */
  function ActiveTotal(regions: seq<V.Region>): nat {
    if regions == [] then 0
    else ActiveTotal(regions[..|regions| - 1]) + if regions[|regions| - 1].active then regions[|regions| - 1].size else 0
  }

  lemma ActiveTotalStep(regions: seq<V.Region>, i: nat)
    requires i < |regions|
    ensures ActiveTotal(regions[..i + 1]) == ActiveTotal(regions[..i]) + if regions[i].active then regions[i].size else 0
  {
    assert regions[..i + 1][..i] == regions[..i];
  }

  class Box {
    var state: State
    const mayIo: bool
    var maxCpu: nat
    var usedCpu: nat
    var maxMemory: nat
    var usedMemory: nat
    var maxIo: nat
    var usedIo: nat
    var paused: bool
    var ready: bool
    const vm: V.Vm

    /** The machine is valid, and with a limit the ticks used never exceed it. */
    ghost predicate Valid()
      reads this`maxCpu, this`usedCpu, vm, vm.regs, vm.regions
    {
      vm.Valid() && vm.lastCycles <= 1 && (maxCpu > 0 ==> usedCpu <= maxCpu)
    }

    /** Room for another tick, and memory within its limit: the sum is kept in 64 bits. */
    ghost predicate MayStep()
      reads this`maxCpu, this`usedCpu, this`maxMemory, vm.regions
    {
      (maxCpu > 0 ==> usedCpu < maxCpu) && (maxMemory > 0 ==> ActiveTotal(vm.regions[..]) % V.W <= maxMemory)
    }

    constructor (vm: V.Vm, mayIo: bool, maxCpu: nat, maxMemory: nat)
      requires vm.Valid() && vm.lastCycles <= 1
      ensures Valid() && this.vm == vm && usedCpu == 0 && this.maxCpu == maxCpu && this.maxMemory == maxMemory && ready
    {
      this.vm, this.mayIo, this.maxCpu, this.maxMemory := vm, mayIo, maxCpu, maxMemory;
      state, usedCpu, usedMemory, maxIo, usedIo, paused, ready := Created, 0, 0, 1024, 0, false, true;
    }

    method CheckCpu() returns (violated: bool)
      modifies this`state
      ensures violated == (maxCpu > 0 && usedCpu >= maxCpu)
      ensures state == if violated then Failed else old(state)
    {
      if maxCpu == 0 {
        return false;
      }
      if usedCpu >= maxCpu {
        state := Failed;
        return true;
      }
      return false;
    }

    method CheckMemory() returns (violated: bool)
      requires vm.Valid()
      modifies this`state, this`usedMemory
      ensures violated == (maxMemory > 0 && ready && ActiveTotal(vm.regions[..]) % V.W > maxMemory)
      ensures state == if violated then Failed else old(state)
    {
      if maxMemory == 0 || !ready {
        return false;
      }
      var total := 0;
      for i := 0 to V.REGIONS
        invariant state == old(state) && total == ActiveTotal(vm.regions[..i]) % V.W
      {
        ActiveTotalStep(vm.regions[..], i);
        assert vm.regions[..][..i] == vm.regions[..i] && vm.regions[..][..i + 1] == vm.regions[..i + 1];
        if vm.regions[i].active {
          total := (total + vm.regions[i].size) % V.W;
        }
      }
      assert vm.regions[..V.REGIONS] == vm.regions[..];
      usedMemory := total;
      if total > maxMemory {
        state := Failed;
        return true;
      }
      return false;
    }

    method Violation(code: nat)
      requires vm.Valid()
      modifies this`state, vm`state, vm`error
      ensures vm.Valid() && state == Failed && (ready ==> vm.state == V.Error && vm.error == code)
    {
      state := Failed;
      if ready {
        vm.state, vm.error := V.Error, code;
      }
    }

    /** The I/O check for the next instruction; an allowed one is counted. */
    method CheckIo() returns (denied: bool)
      requires vm.Valid()
      modifies this`state, this`usedIo, vm`state, vm`error
      ensures vm.Valid() && (!denied ==> state == old(state))
      ensures denied <==> !mayIo || (maxIo > 0 && old(usedIo) >= maxIo)
      ensures usedIo == old(usedIo) + if denied then 0 else 1
    {
      if !mayIo {
        Violation(5);
        return true;
      }
      if maxIo > 0 && usedIo >= maxIo {
        Violation(3);
        return true;
      }
      usedIo := usedIo + 1;
      return false;
    }

    /**
     * One monitored step. No instruction is executed without a tick and memory to spare; a step costs at
     * most one tick, and exactly one when it succeeds.
     */
    method Step() returns (st: Status)
      requires Valid()
      modifies this`state, this`usedCpu, this`usedMemory, this`usedIo
      modifies vm, vm.regs, vm.regions, vm.stack, vm.callStack
      ensures Valid() && old(usedCpu) <= usedCpu <= old(usedCpu) + 1
      ensures old(vm.executed) <= vm.executed <= old(vm.executed) + 1
      ensures vm.executed > old(vm.executed) ==> ready && old(MayStep())
      ensures vm.executed > old(vm.executed) ==> usedCpu == old(usedCpu) + 1
      ensures st == Ok ==> usedCpu == old(usedCpu) + 1 && vm.executed == old(vm.executed) + 1 && state == Thinking
      ensures st == Busy ==> state == Waiting && vm.executed == old(vm.executed) + 1
    {
      hide ActiveTotal;
      if !ready {
        return Invalid;
      }
      var v := CheckCpu();
      if v {
        Violation(1);
        return Invalid;
      }
      v := CheckMemory();
      if v {
        Violation(2);
        return Invalid;
      }
      if vm.state != V.Idle && vm.state != V.Running {
        if vm.state == V.Halted {
          state := Terminated;
          return General;
        }
        return Invalid;
      }
      if vm.pc < |vm.bytecode| {
        var op := vm.bytecode[vm.pc];
        if IsIo(op) {
          var denied := CheckIo();
          if denied {
            return Denied;
          }
        }
        if IsA2a(op) {
          st := StepA2a();
          return;
        }
      }
      st := StepPlain();
    }

    /** A messaging instruction yields when it succeeds. */
    method StepA2a() returns (st: Status)
      requires Valid() && (maxCpu > 0 ==> usedCpu < maxCpu)
      modifies this`state, this`usedCpu
      modifies vm, vm.regs, vm.regions, vm.stack, vm.callStack
      ensures Valid() && old(usedCpu) <= usedCpu <= old(usedCpu) + 1 && st != Ok
      ensures old(vm.executed) <= vm.executed <= old(vm.executed) + 1
      ensures vm.executed > old(vm.executed) ==> usedCpu == old(usedCpu) + 1
      ensures st == Busy ==> state == Waiting && vm.executed == old(vm.executed) + 1
    {
      hide V.Vm.Valid;
      var s := vm.Step();
      usedCpu := usedCpu + vm.lastCycles;
      if s == V.Ok {
        state := Waiting;
        return Busy;
      }
      return if s == V.Invalid then Invalid else if s == V.Undefined then Undefined else General;
    }

    method StepPlain() returns (st: Status)
      requires Valid() && (maxCpu > 0 ==> usedCpu < maxCpu)
      modifies this`state, this`usedCpu
      modifies vm, vm.regs, vm.regions, vm.stack, vm.callStack
      ensures Valid() && usedCpu == old(usedCpu) + 1 && st != Busy
      ensures old(vm.executed) <= vm.executed <= old(vm.executed) + 1
      ensures st == Ok ==> vm.executed == old(vm.executed) + 1 && state == Thinking
    {
      var s := vm.Step();
      usedCpu := usedCpu + vm.lastCycles;
      if vm.lastCycles == 0 {
        usedCpu := usedCpu + 1;
      }
      if s == V.Ok {
        state := Thinking;
        return Ok;
      }
      if s == V.General {
        state := Terminated;
        return General;
      }
      state := Failed;
      vm.state := V.Error;
      return if s == V.Undefined then Undefined else General;
    }

    /**
     * Run an agent. The run ends for every program: a tick limit is never exceeded, and without one the
     * steps are capped. The agent's own limit holds throughout.
     */
    method Run(maxTicks: nat) returns (st: Status)
      requires Valid()
      modifies this`state, this`usedCpu, this`usedMemory, this`usedIo
      modifies vm, vm.regs, vm.regions, vm.stack, vm.callStack
      ensures Valid() && usedCpu >= old(usedCpu) && vm.executed >= old(vm.executed)
      ensures vm.executed - old(vm.executed) <= usedCpu - old(usedCpu)
      ensures maxTicks > 0 ==> usedCpu - old(usedCpu) <= maxTicks
      ensures maxTicks == 0 ==> usedCpu - old(usedCpu) <= STEP_CAP
      ensures maxTicks == 0 && maxCpu > 0 ==> usedCpu - old(usedCpu) <= maxCpu
      ensures old(state) in {Terminated, Failed} || old(paused) ==> st == Invalid && vm.executed == old(vm.executed)
      ensures st != Ok
      ensures st == Busy ==>
        state == Waiting ||
        (state == Idle && usedCpu - old(usedCpu) in if maxTicks > 0 then {maxTicks} else {maxCpu, STEP_CAP})
    {
      if state == Terminated || state == Failed || paused {
        return Invalid;
      }
      var limit, start := if maxTicks > 0 then maxTicks else maxCpu, usedCpu;
      state := Thinking;
      if ready && vm.state == V.Idle {
        vm.state := V.Running;
      }
      st := Loop(limit, maxTicks == 0);
      if state == Terminated && ready {
        vm.state := V.Halted;
      }
    }

    /** The execution loop of a run. */
    method Loop(limit: nat, capped: bool) returns (st: Status)
      requires Valid() && (limit == 0 ==> capped)
      modifies this`state, this`usedCpu, this`usedMemory, this`usedIo
      modifies vm, vm.regs, vm.regions, vm.stack, vm.callStack
      ensures Valid() && usedCpu >= old(usedCpu) && vm.executed >= old(vm.executed)
      ensures vm.executed - old(vm.executed) <= usedCpu - old(usedCpu)
      ensures limit > 0 ==> usedCpu - old(usedCpu) <= limit
      ensures capped ==> usedCpu - old(usedCpu) <= STEP_CAP
      ensures st != Ok
      ensures st == Busy ==>
        state == Waiting ||
        (state == Idle && (usedCpu - old(usedCpu) == limit > 0 || (capped && usedCpu - old(usedCpu) == STEP_CAP)))
    {
      hide V.Vm.Valid, ActiveTotal;
      ghost var start := usedCpu;
      var first := usedCpu;
      var steps := 0;
      while true
        invariant Valid() && steps == usedCpu - start && first == start && (capped ==> steps < STEP_CAP)
        invariant old(vm.executed) <= vm.executed && vm.executed - old(vm.executed) <= steps
        invariant limit > 0 ==> steps <= limit
        decreases if limit > 0 then limit - steps else STEP_CAP - steps
      {
        if limit > 0 && usedCpu - first >= limit {
          state := Idle;
          return Busy;
        }
        var v := CheckCpu();
        if v {
          Violate(1);
          return Invalid;
        }
        v := CheckMem();
        if v {
          Violate(2);
          return Invalid;
        }
        st := Step();
        steps := steps + 1;
        if st != Ok {
          return;
        }
        if steps >= STEP_CAP && capped {
          state := Idle;
          return Busy;
        }
      }
    }

    method CheckMem() returns (violated: bool)
      requires Valid()
      modifies this`state, this`usedMemory
      ensures Valid()
    {
      violated := CheckMemory();
    }

    method Violate(code: nat)
      requires Valid()
      modifies this`state, vm`state, vm`error
      ensures Valid() && state == Failed
    {
      Violation(code);
    }
  }
}
