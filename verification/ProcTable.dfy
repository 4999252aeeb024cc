/** The process table: PID allocation, creation, exit and kill. */
module ProcTable {

  const SLOTS: nat := 256
  const HALF: nat := 0x8000_0000
  const WRAP: nat := 0x1_0000_0000

  /** A 32-bit process id; 0 is no process and 1 the kernel. */
  type Pid = n: nat | n < WRAP

  const KERNEL: Pid := 1
  const FIRST_APP: Pid := 2

  datatype State = Unused | Ready | Running | Blocked | Zombie | AgentIdle | AgentThinking | Compiled

  datatype Pcb = Pcb(pid: Pid, parent: Pid, state: State, agent: bool, waitingFor: Pid, caps: bv64, created: nat)

  datatype Status = Ok | Invalid | Denied | NotFound | Panic

  const Empty: Pcb := Pcb(0, 0, Unused, false, 0, 0, 0)
  const KernelPcb: Pcb := Pcb(KERNEL, 0, Running, false, 0, 0xFFFF_FFFF_FFFF_FFFF, 0)

  /** The slot of a PID: `pid - 1` converted to a signed int, remainder truncated toward zero. */
  function Index(pid: Pid): (r: int)
    ensures r < SLOTS
    ensures r >= 0 ==> pid > 0 && r == (pid - 1) % SLOTS
    ensures 0 < pid <= HALF ==> r >= 0
  {
    if pid == 0 then -1
    else if pid - 1 < HALF then (pid - 1) % SLOTS
    else -((WRAP - (pid - 1)) % SLOTS)
  }

  /** Where the PID counter goes next: it wraps at 32 bits and skips 0 and 1. */
  function Advance(next: Pid): (r: Pid)
  {
    var n := (next + 1) % WRAP;
    if n <= KERNEL then FIRST_APP else n
  }

  /** The `k`-th PID tried by a scan that starts at `start`. */
  function Candidate(start: Pid, k: nat): (r: Pid)
    requires start >= FIRST_APP
    ensures r >= FIRST_APP
  {
    2 + (start - 2 + k) % (WRAP - 2)
  }

  lemma CandidateBelow(start: Pid, k: nat)
    requires start >= FIRST_APP && start + k < WRAP
    ensures Candidate(start, k) == start + k
  {
  }

  lemma CandidateStep(start: Pid, k: nat)
    requires start >= FIRST_APP
    ensures Candidate(start, 0) == start
    ensures Candidate(start, k + 1) == Advance(Candidate(start, k))
  {
    NextResidue(start - 2 + k);
  }

  lemma NextResidue(x: nat)
    ensures (x + 1) % (WRAP - 2) == if x % (WRAP - 2) == WRAP - 3 then 0 else x % (WRAP - 2) + 1
  {
  }

  /** `pid`'s slot exists and is unused. */
  predicate Free(t: seq<Pcb>, pid: Pid)
    requires |t| == SLOTS
  {
    Index(pid) >= 0 && t[Index(pid)].state.Unused?
  }

  /** No candidate before the `k`-th is free. */
  ghost predicate NoneBefore(t: seq<Pcb>, start: Pid, k: nat)
    requires |t| == SLOTS && start >= FIRST_APP
  {
    forall j :: 0 <= j < k ==> !Free(t, Candidate(start, j))
  }

  /** Below 2^31 the 256 candidates of one scan visit every slot. */
  lemma ScanCoversSlots(start: Pid, slot: nat) returns (k: nat)
    requires FIRST_APP <= start && start + SLOTS - 1 <= HALF && slot < SLOTS
    ensures k < SLOTS && Candidate(start, k) == start + k && Index(Candidate(start, k)) == slot
  {
    k := (slot - (start - 1)) % SLOTS;
  }

  /** So there the scan fails only on a full table. */
  lemma ScanCompleteBelowHalf(t: seq<Pcb>, start: Pid)
    requires |t| == SLOTS && FIRST_APP <= start && start + SLOTS - 1 <= HALF
    ensures NoneBefore(t, start, SLOTS) <==> forall i :: 0 <= i < SLOTS ==> !t[i].state.Unused?
  {
    if NoneBefore(t, start, SLOTS) {
      forall i | 0 <= i < SLOTS
        ensures !t[i].state.Unused?
      {
        var k := ScanCoversSlots(start, i);
        assert !Free(t, Candidate(start, k));
      }
    }
  }

  /** Two PIDs name the same slot exactly when they agree modulo 256. */
  lemma SlotShared(p: Pid, q: Pid)
    requires Index(p) >= 0 && Index(q) >= 0
    ensures Index(p) == Index(q) <==> p % SLOTS == q % SLOTS
  {
    hide Index;
    Residue(p);
    Residue(q);
  }

  lemma Residue(p: nat)
    requires p > 0
    ensures (p - 1) % SLOTS == if p % SLOTS == 0 then SLOTS - 1 else p % SLOTS - 1
  {
  }

  function Count(t: seq<Pcb>, p: Pcb -> bool): (n: nat)
    ensures n <= |t|
  {
    if t == [] then 0 else Count(t[..|t| - 1], p) + if p(t[|t| - 1]) then 1 else 0
  }

  predicate Live(x: Pcb) {
    !x.state.Unused?
  }

  predicate LiveAgent(x: Pcb) {
    Live(x) && x.agent
  }

  lemma {:induction false} CountUpdate(t: seq<Pcb>, i: nat, x: Pcb, p: Pcb -> bool)
    requires i < |t|
    ensures Count(t[i := x], p) == Count(t, p) - (if p(t[i]) then 1 else 0) + if p(x) then 1 else 0
  {
    var n := |t| - 1;
    if i < n {
      CountUpdate(t[..n], i, x, p);
      assert t[i := x][..n] == t[..n][i := x];
    } else {
      assert t[i := x][..n] == t[..n];
    }
  }

  /** A count short of the length leaves a slot that does not satisfy `p`, and the other way round. */
  lemma {:induction false} CountFull(t: seq<Pcb>, p: Pcb -> bool)
    ensures Count(t, p) < |t| <==> exists i :: 0 <= i < |t| && !p(t[i])
  {
    if t != [] {
      var n := |t| - 1;
      CountFull(t[..n], p);
      if i :| 0 <= i < |t| && !p(t[i]) {
        assert i < n ==> !p(t[..n][i]);
      }
      if i :| 0 <= i < |t[..n]| && !p(t[..n][i]) {
        assert !p(t[i]);
      }
    }
  }

  lemma {:induction false} CountNone(t: seq<Pcb>, p: Pcb -> bool)
    requires forall i :: 0 <= i < |t| ==> !p(t[i])
    ensures Count(t, p) == 0
  {
    if t != [] {
      CountNone(t[..|t| - 1], p);
    }
  }

  /** Every live process sits in the slot of its own PID; an unused slot is no agent. */
  ghost predicate Slotted(t: seq<Pcb>) {
    |t| == SLOTS && forall i :: 0 <= i < SLOTS ==> SlotOk(t[i], i)
  }

  ghost predicate SlotOk(x: Pcb, i: nat) {
    if x.state.Unused? then !x.agent else Index(x.pid) == i
  }

  /** Live processes have distinct PIDs. */
  lemma LivePidsDistinct(t: seq<Pcb>, i: nat, j: nat)
    requires Slotted(t) && i < SLOTS && j < SLOTS
    requires Live(t[i]) && Live(t[j]) && t[i].pid == t[j].pid
    ensures i == j
  {
    assert SlotOk(t[i], i) && SlotOk(t[j], j);
  }

  /** `pid` is the id of some live process. */
  ghost predicate Alive(t: seq<Pcb>, pid: Pid) {
    exists i :: 0 <= i < |t| && Live(t[i]) && t[i].pid == pid
  }

  /** Looking a PID up finds the process of that id exactly when the process is alive. */
  lemma LookupNamesIffAlive(t: seq<Pcb>, pid: Pid)
    requires Slotted(t)
    ensures Alive(t, pid) <==> Index(pid) >= 0 && Live(t[Index(pid)]) && t[Index(pid)].pid == pid
  {
    if i :| 0 <= i < |t| && Live(t[i]) && t[i].pid == pid {
      assert SlotOk(t[i], i);
    }
  }

  /** The lookup does not compare ids: 258 finds the process whose id is 2. */
  lemma StaleLookup(x: Pcb) returns (t: seq<Pcb>)
    requires x.pid == 2 && !x.state.Unused?
    ensures Slotted(t) && !Alive(t, 258) && Index(258) >= 0 && t[Index(258)] == x
  {
    t := seq(SLOTS, i => if i == 1 then x else Empty);
    assert Index(258) == 1;
  }

  function Cleaned(x: Pcb): Pcb {
    x.(pid := 0, state := Unused, agent := false, waitingFor := 0)
  }

  /** After an exit: the slot is unused, a parent that waited for the process is ready, and no other slot changed. */
  ghost predicate Exited(t: seq<Pcb>, idx: nat, pid: Pid, u: seq<Pcb>)
    requires |t| == SLOTS && idx < SLOTS
  {
    |u| == SLOTS && u[idx] == Cleaned(t[idx]) &&
    forall i :: 0 <= i < SLOTS && i != idx ==>
      u[i] == if i == Index(t[idx].parent) && (t[i].state.Blocked? || t[i].state.AgentIdle?) && t[i].waitingFor == pid
              then t[i].(state := Ready, waitingFor := 0) else t[i]
  }

  lemma NotAliveIfFree(t: seq<Pcb>, pid: Pid)
    requires Slotted(t) && Free(t, pid)
    ensures !Alive(t, pid)
  {
    LookupNamesIffAlive(t, pid);
  }

  /** What one scan says about the PIDs between the counter and its result. */
  lemma ScanResult(t: seq<Pcb>, start: Pid, pid: Pid, next: Pid)
    requires |t| == SLOTS && start >= FIRST_APP && start + SLOTS - 1 <= HALF
    requires pid == 0 ==> NoneBefore(t, start, SLOTS)
    requires pid != 0 ==>
      exists k: nat :: k < SLOTS && pid == Candidate(start, k) && next == Advance(pid) &&
                       NoneBefore(t, start, k) && Free(t, pid)
    ensures pid == 0 ==> forall i :: 0 <= i < SLOTS ==> !t[i].state.Unused?
    ensures pid != 0 ==> start <= pid < start + SLOTS && next == pid + 1
    ensures forall p: Pid :: start <= p < pid ==> !Free(t, p)
  {
    hide Candidate, Free, Index;
    ScanCompleteBelowHalf(t, start);
    if pid != 0 {
      var k: nat :| k < SLOTS && pid == Candidate(start, k) && next == Advance(pid) && NoneBefore(t, start, k);
      CandidateBelow(start, k);
      forall p: Pid | start <= p < pid
        ensures !Free(t, p)
      {
        CandidateBelow(start, p - start);
      }
    }
  }

  /** A kill: PIDs 0 and 1 are refused, any other takes the process in its slot. */
  function Killed(t: seq<Pcb>, pid: Pid): (seq<Pcb>, Status)
    requires |t| == SLOTS
  {
    if pid <= KERNEL then (t, Denied)
    else if Index(pid) < 0 || !Live(t[Index(pid)]) then (t, NotFound)
    else (t[Index(pid) := Cleaned(t[Index(pid)])], Ok)
  }

  lemma KernelSlotIff(pid: Pid)
    ensures Index(pid) == 0 <==> pid % SLOTS == 1
  {
    if pid > 0 {
      Residue(pid);
      if pid - 1 >= HALF {
        var m := pid - 1;
        assert WRAP - m == SLOTS * (WRAP / SLOTS - m / SLOTS) - m % SLOTS;
      }
    }
  }

  /** The guard compares with PID 1 only: a kill leaves the kernel live exactly when it is refused or its PID is not
      1 modulo 256. */
  lemma KernelSurvivesIff(t: seq<Pcb>, pid: Pid)
    requires Slotted(t) && Live(t[0])
    ensures Live(Killed(t, pid).0[0]) <==> Killed(t, pid).1 != Ok || pid % SLOTS != 1
  {
    hide Index;
    KernelSlotIff(pid);
  }

  /** PID 257 takes the kernel. */
  lemma KillTakesKernel(t: seq<Pcb>)
    requires Slotted(t) && t[0] == KernelPcb
    ensures Killed(t, 257).1 == Ok && !Live(Killed(t, 257).0[0])
  {
  }

  class Processes {
    const table: array<Pcb>
    var activeCount: int
    var agentCount: int
    var nextPid: Pid

    ghost predicate Valid()
      reads this, table
    {
      Slotted(table[..]) && nextPid >= FIRST_APP &&
      activeCount == Count(table[..], Live) && agentCount == Count(table[..], LiveAgent)
    }

    constructor ()
      ensures Valid() && fresh(table) && nextPid == FIRST_APP
      ensures table[..] == [KernelPcb] + seq(SLOTS - 1, _ => Empty)
    {
      table := new Pcb[SLOTS](_ => Empty);
      activeCount, agentCount := 1, 0;
      nextPid := FIRST_APP;
      new;
      ghost var empty := table[..];
      CountNone(empty, Live);
      CountNone(empty, LiveAgent);
      CountUpdate(empty, 0, KernelPcb, Live);
      CountUpdate(empty, 0, KernelPcb, LiveAgent);
      table[0] := KernelPcb;
      assert table[..] == empty[0 := KernelPcb];
    }

    /** The first free candidate of 256, counting from the PID counter; 0 when there is none. */
    method AllocatePid() returns (pid: Pid)
      requires table.Length == SLOTS && nextPid >= FIRST_APP
      modifies this`nextPid
      ensures nextPid >= FIRST_APP
      ensures pid == 0 ==> NoneBefore(table[..], old(nextPid), SLOTS)
      ensures pid != 0 ==>
        exists k: nat :: k < SLOTS && pid == Candidate(old(nextPid), k) && nextPid == Advance(pid) &&
                         NoneBefore(table[..], old(nextPid), k) && Free(table[..], pid)
    {
      ghost var start := nextPid;
      CandidateStep(start, 0);
      for i := 0 to SLOTS
        invariant nextPid >= FIRST_APP && nextPid == Candidate(start, i)
        invariant NoneBefore(table[..], start, i)
      {
        hide Candidate;
        var candidate := nextPid;
        if candidate <= KERNEL {
          // The counter never falls below 2: the source's guard against it does not fire.
          assert false;
        }
        var idx := Index(candidate);
        CandidateStep(start, i);
        if idx >= 0 && table[idx].state.Unused? {
          nextPid := Advance(candidate);
          return candidate;
        }
        nextPid := Advance(nextPid);
      }
      return 0;
    }

    /** The lowest unused slot, -1 if none. */
    method FindUnusedSlot() returns (slot: int)
      requires table.Length == SLOTS
      ensures slot == -1 ==> forall i :: 0 <= i < SLOTS ==> !table[i].state.Unused?
      ensures slot != -1 ==> 0 <= slot < SLOTS && table[slot].state.Unused?
      ensures forall i :: 0 <= i < slot ==> !table[i].state.Unused?
    {
      for i := 0 to SLOTS
        invariant forall j :: 0 <= j < i ==> !table[j].state.Unused?
      {
        if table[i].state.Unused? {
          return i;
        }
      }
      return -1;
    }

    /** A slot takes a new process control block; the counters follow. */
    method SetSlot(idx: nat, x: Pcb)
      requires Valid() && idx < SLOTS && SlotOk(x, idx)
      modifies table, `activeCount, `agentCount
      ensures Valid() && table[..] == old(table[..])[idx := x]
    {
      ghost var t := table[..];
      var was := table[idx];
      if !was.state.Unused? {
        activeCount := activeCount - 1;
        if was.agent {
          agentCount := agentCount - 1;
        }
      }
      if !x.state.Unused? {
        activeCount := activeCount + 1;
        if x.agent {
          agentCount := agentCount + 1;
        }
      }
      table[idx] := x;
      CountUpdate(t, idx, x, Live);
      CountUpdate(t, idx, x, LiveAgent);
      assert table[..] == t[idx := x];
    }

    /**
     * Create a process. It gets a PID no live process has, whenever a slot is unused and the stack
     * can be allocated; below 2^31 that PID is the next one up whose slot is unused.
     */
    method Spawn(agent: bool, stackOk: bool, current: Pid, now: nat) returns (pid: Pid)
      requires Valid()
      modifies this`nextPid, this`activeCount, this`agentCount, table
      ensures Valid()
      ensures pid != 0 <==> stackOk && exists i :: 0 <= i < SLOTS && old(table[i]).state.Unused?
      ensures pid != 0 ==> Free(old(table[..]), pid) && !Alive(old(table[..]), pid)
      ensures pid != 0 ==> table[..] == old(table[..])[Index(pid) := Pcb(pid, current, Ready, agent, 0, 3, now)]
      ensures pid == 0 ==> table[..] == old(table[..])
      ensures (pid != 0 && old(nextPid) + SLOTS - 1 <= HALF) ==>
        old(nextPid) <= pid < old(nextPid) + SLOTS && nextPid == pid + 1
      ensures old(nextPid) + SLOTS - 1 <= HALF ==>
        forall p: Pid :: old(nextPid) <= p < pid ==> !Free(old(table[..]), p)
    {
      CountFull(table[..], Live);
      if activeCount >= SLOTS {
        return 0;
      }
      ghost var start := nextPid;
      pid := AllocatePid();
      if start + SLOTS - 1 <= HALF {
        ScanResult(table[..], start, pid, nextPid);
      }
      if pid == 0 {
        var slot := FindUnusedSlot();
        pid := slot + 1;
      }
      var idx := Index(pid);
      NotAliveIfFree(table[..], pid);
      if !stackOk {
        return 0;
      }
      SetSlot(idx, Pcb(pid, current, Ready, agent, 0, 3, now));
    }

    /** Free the slot; its other fields keep their values. */
    method Cleanup(idx: nat)
      requires Valid() && idx < SLOTS && Live(table[idx])
      modifies table, `activeCount, `agentCount
      ensures Valid() && table[..] == old(table[..])[idx := Cleaned(old(table[idx]))]
    {
      SetSlot(idx, Cleaned(table[idx]));
    }

    /** End the current process and wake a parent that waits for it. */
    method Exit(current: Pid) returns (r: Status)
      requires Valid()
      modifies table, `activeCount, `agentCount
      ensures Valid()
      ensures r == (if current == 0 then Invalid else if current == KERNEL then Panic
                    else if Index(current) < 0 || !Live(old(table[..])[Index(current)]) then Invalid else Ok)
      ensures r != Ok ==> table[..] == old(table[..])
      ensures r == Ok ==> Exited(old(table[..]), Index(current), current, table[..])
    {
      if current == 0 {
        return Invalid;
      }
      if current == KERNEL {
        return Panic;
      }
      var idx := Index(current);
      if idx < 0 || table[idx].state.Unused? {
        return Invalid;
      }
      ghost var t := table[..];
      assert SlotOk(t[idx], idx);
      SetSlot(idx, table[idx].(state := Zombie));
      var parent := table[idx].parent;
      if parent != 0 {
        var p := Index(parent);
        if p >= 0 && (table[p].state.Blocked? || table[p].state.AgentIdle?) {
          if table[p].waitingFor == current {
            assert SlotOk(table[..][p], p);
            SetSlot(p, table[p].(state := Ready, waitingFor := 0));
          }
        }
      }
      Cleanup(idx);
      return Ok;
    }

    /** Free the slot that `pid` maps to, unless it is unused or `pid` is the kernel's. */
    method Kill(pid: Pid) returns (r: Status)
      requires Valid()
      modifies table, `activeCount, `agentCount
      ensures Valid()
      ensures (table[..], r) == Killed(old(table[..]), pid)
    {
      if pid == 0 || pid == KERNEL {
        return Denied;
      }
      var idx := Index(pid);
      if idx < 0 || table[idx].state.Unused? {
        return NotFound;
      }
      Cleanup(idx);
      return Ok;
    }
  }
}
