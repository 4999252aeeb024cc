/** The scheduler as the kernel runs it: a ring of 256 entries, aged and shifted in place. */
module KernelScheduler {
  import opened Seqs
  import opened Wrappers
  import opened SchedSpec
  import opened SchedRing

  const DEFAULT_SLICE: nat := 10
  const THINK_BONUS: nat := 20

  datatype ProcState = Ready | Running | Blocked | Zombie | AgentIdle | AgentThinking | Compiled

  datatype Pcb = Pcb(priority: Priority, isAgent: bool, state: ProcState)

  datatype Status = Ok | Invalid | Overflow | NotFound

  /** The process table after one aging round wrote the boosted priorities back, for the first `n` entries. */
  function WriteBack(pcbs: map<nat, Pcb>, q: seq<Entry>, now: nat, n: nat): map<nat, Pcb>
    requires n <= |q|
  {
    if n == 0 then pcbs
    else
      var m := WriteBack(pcbs, q, now, n - 1);
      var e := Boost(q[n - 1], now);
      if e != q[n - 1] && e.pid in m then m[e.pid := m[e.pid].(priority := e.priority)] else m
  }

  function Woken(p: Pcb): Pcb {
    if p.state == Blocked || p.state == AgentIdle then p.(state := Ready) else p
  }

  /** The queue entry made for `pid`; a thinking agent gets a longer slice. */
  function NewEntry(pid: nat, pcb: Pcb, now: nat, slice: nat): Entry {
    var thinking := pcb.isAgent && pcb.state == AgentThinking;
    Entry(pid, pcb.priority, now, if thinking then slice + THINK_BONUS else slice, thinking)
  }

  lemma NextSlot(head: nat, i: nat)
    ensures Slot(head, i + 1) == (Slot(head, i) + 1) % QUEUE_SIZE
    ensures Slot(head, i) == (Slot(head, i + 1) - 1 + QUEUE_SIZE) % QUEUE_SIZE
    ensures head < QUEUE_SIZE ==> Slot(head, 0) == head
  {
  }

  class Scheduler {
    const queue: array<Entry>
    var head: nat
    var tail: nat
    var count: nat
    var timer: nat
    var slice: nat
    var pcbs: map<nat, Pcb>
    /** The tick of the last dequeue. */
    ghost var last: int

    ghost predicate Valid()
      reads this, queue
    {
      queue.Length == QUEUE_SIZE && head < QUEUE_SIZE && count <= QUEUE_SIZE && tail == Slot(head, count) &&
      timer < BOOST_INTERVAL
    }

    ghost function State(): (r: RingState)
      requires Valid()
      reads this, queue
      ensures RingOk(r)
    {
      RingState(queue[..], head, count, timer, last)
    }

    /** The queued entries, oldest first. */
    ghost function Contents(): seq<Entry>
      requires queue.Length == QUEUE_SIZE && count <= QUEUE_SIZE
      reads this, queue
    {
      Logical(queue[..], head, count)
    }

    constructor (pcbs: map<nat, Pcb>)
      ensures Valid() && Contents() == [] && timer == 0 && last == 0 && this.pcbs == pcbs && fresh(queue)
    {
      queue := new Entry[QUEUE_SIZE](_ => Entry(0, 0, 0, 0, false));
      head, tail, count, timer, slice := 0, 0, 0, 0, DEFAULT_SLICE;
      last := 0;
      this.pcbs := pcbs;
    }

    /** Ring index of the earliest entry of maximal priority. */
    method FindHighestPriority() returns (best: int)
      requires Valid()
      ensures count == 0 ==> best == -1
      ensures count > 0 ==> best == Slot(head, Best(Contents()))
    {
      hide Slot;
      if count == 0 {
        return -1;
      }
      best := head;
      ghost var q := Contents();
      var bestPriority := queue[head].priority;
      NextSlot(head, 0);
      assert q[0] == queue[Slot(head, 0)];
      for i := 0 to count
        invariant 0 <= best < QUEUE_SIZE && bestPriority == queue[best].priority
        invariant best == Slot(head, if i == 0 then 0 else BestOf(q, i))
      {
        var idx := Slot(head, i);
        assert q[i] == queue[Slot(head, i)];
        if queue[idx].priority > bestPriority {
          bestPriority := queue[idx].priority;
          best := idx;
        }
      }
      assert q[..|q|] == q;
    }

    /** Count the dequeue; every 1000th boosts the entries that have waited long. */
    method AgePriorities(now: nat)
      requires Valid() && forall i :: 0 <= i < |Contents()| ==> Contents()[i].waitStart <= now
      modifies queue, `timer, `pcbs
      ensures Valid() && State() == RingAge(old(State()), now)
      ensures pcbs == if old(timer) + 1 < BOOST_INTERVAL then old(pcbs)
                      else WriteBack(old(pcbs), old(Contents()), now, count)
    {
      hide Slot, Aged;
      timer := timer + 1;
      if timer < BOOST_INTERVAL {
        return;
      }
      timer := 0;
      ghost var ring, q := queue[..], Contents();
      AgedNone(ring, head, now);
      for i := 0 to count
        invariant timer == 0
        invariant queue[..] == Aged(ring, head, i, now)
        invariant pcbs == WriteBack(old(pcbs), q, now, i)
      {
        var idx := Slot(head, i);
        var entry := queue[idx];
        AgedNext(ring, head, i, now);
        assert q[i] == ring[idx];
        if now - entry.waitStart > BOOST_INTERVAL {
          if entry.priority < MAX_BOOST {
            var priority := entry.priority + BOOST_AMOUNT;
            if priority > MAX_BOOST {
              priority := MAX_BOOST;
            }
            queue[idx] := entry.(priority := priority);
            if entry.pid in pcbs {
              pcbs := pcbs[entry.pid := pcbs[entry.pid].(priority := priority)];
            }
          }
        }
      }
    }

    /** Append `pid` unless it is queued already. */
    method Enqueue(pid: nat, now: nat) returns (status: Status)
      requires Valid()
      modifies queue, `tail, `count, `pcbs
      ensures Valid()
      ensures status == if pid == 0 then Invalid else if Queued(old(Contents()), pid) then Ok
                        else if old(count) == QUEUE_SIZE then Overflow
                        else if pid !in old(pcbs) then NotFound else Ok
      ensures State() == if pid == 0 || pid !in old(pcbs) then old(State())
                         else RingEnqueue(old(State()), NewEntry(pid, old(pcbs)[pid], now, slice))
      ensures pcbs == if pid == 0 || Queued(old(Contents()), pid) || status != Ok then old(pcbs)
                      else old(pcbs)[pid := Woken(old(pcbs)[pid])]
    {
      hide Slot;
      if pid == 0 {
        return Invalid;
      }
      for i := 0 to count
        invariant forall k :: 0 <= k < i ==> Contents()[k].pid != pid
      {
        if queue[Slot(head, i)].pid == pid {
          assert Contents()[i].pid == pid;
          return Ok;
        }
      }
      if count >= QUEUE_SIZE {
        return Overflow;
      }
      if pid !in pcbs {
        return NotFound;
      }
      var pcb := pcbs[pid];
      var thinking := pcb.isAgent && pcb.state == AgentThinking;
      queue[tail] := Entry(pid, pcb.priority, now, if thinking then slice + THINK_BONUS else slice, thinking);
      NextSlot(head, count);
      tail := (tail + 1) % QUEUE_SIZE;
      count := count + 1;
      if pcb.state == Blocked || pcb.state == AgentIdle {
        pcbs := pcbs[pid := pcb.(state := Ready)];
      }
      assert pcbs == old(pcbs)[pid := Woken(pcb)];
      return Ok;
    }

    /** Copy the next slot into each of `steps` slots from `best` on. */
    method ShiftDown(best: nat, steps: nat)
      requires queue.Length == QUEUE_SIZE
      modifies queue
      ensures queue[..] == Moves(old(queue[..]), best, steps)
    {
      for i := 0 to steps
        invariant queue[..] == Moves(old(queue[..]), best, i)
      {
        var src := Slot(best, i + 1);
        var dst := Slot(best, i);
        queue[dst] := queue[src];
      }
    }

    /** Close the gap at ring index `best` by shifting; the number of steps assumes that `best` does
        not lie before the head of the ring. */
    method RemoveLater(best: nat)
      requires Valid() && 0 < count && best < QUEUE_SIZE && best != head
      requires best > head ==> best - head < count
      modifies queue, `tail, `count
      ensures Valid() && count == old(count) - 1
      ensures queue[..] == Moves(old(queue[..]), best, Steps(head, best, old(count)))
    {
      hide Slot, Moves;
      var countToMove := count - (best - head + 1);
      ShiftDown(best, countToMove);
      NextSlot(head, count - 1);
      tail := (tail - 1 + QUEUE_SIZE) % QUEUE_SIZE;
      count := count - 1;
    }

    /** Take the entry at ring index `best` out. */
    method RemoveEntry(best: nat, ghost k: nat)
      requires Valid() && k < count && best == Slot(head, k)
      modifies queue, `head, `tail, `count
      ensures Valid() && count == old(count) - 1
      ensures head == if best == old(head) then (old(head) + 1) % QUEUE_SIZE else old(head)
      ensures queue[..] == if best == old(head) then old(queue[..])
                           else Moves(old(queue[..]), best, Steps(old(head), best, old(count)))
    {
      hide Slot, Moves;
      WrapsIff(head, k);
      if best == head {
        FromNext(head, count - 1);
        head := (head + 1) % QUEUE_SIZE;
        count := count - 1;
      } else {
        RemoveLater(best);
      }
    }

    /** Remove the best entry and return its process. */
    method Dequeue(now: nat) returns (pid: nat)
      requires Valid() && forall i :: 0 <= i < |Contents()| ==> Contents()[i].waitStart <= now
      modifies queue, `head, `tail, `count, `timer, `pcbs, `last
      ensures Valid() && State() == RingDequeue(old(State()), now).0
      ensures old(count) == 0 ==> pid == 0 && pcbs == old(pcbs)
      ensures old(count) > 0 ==>
        RingDequeue(old(State()), now).1.Some? && pid == RingDequeue(old(State()), now).1.value.pid &&
        Contents() == Remaining(old(State()), now)
      ensures old(count) > 0 ==>
        var aged := if old(timer) + 1 < BOOST_INTERVAL then old(pcbs)
                    else WriteBack(old(pcbs), old(Contents()), now, old(count));
        pcbs == if pid in aged then aged[pid := aged[pid].(state := Running)] else aged
    {
      hide Slot, Best, RingAge, Moves, Remaining, WriteBack, Logical, Boost, BoostAll, Age;
      if count == 0 {
        return 0;
      }
      DequeueQueue(State(), now);
      AgePriorities(now);
      var found := FindHighestPriority();
      var best: nat := found;
      pid := queue[best].pid;
      RemoveEntry(best, Best(Contents()));
      last := now;
      if pid in pcbs {
        pcbs := pcbs[pid := pcbs[pid].(state := Running)];
      }
    }
  }
}
