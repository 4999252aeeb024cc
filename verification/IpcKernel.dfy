/** Kernel message passing: send, receive and broadcast over the 256 process queues. */
module IpcKernel {
  import opened Seqs
  import opened Wrappers
  import opened Ring64
  import opened Sums
  import opened IpcQueues
  import P = ProcTable

  const QUEUES: nat := 256
  const MAX_PAYLOAD: nat := 4096
  const COMMUNICATE: bv64 := 2

  datatype Status = Sent | Invalid | Denied | NotFound | Overflow

  /** A received message is reported as its sender, its full length and as many bytes as fit. */
  datatype RecvResult = Bad | NoMessage | WouldBlock | Got(sender: nat, length: nat, bytes: seq<bv8>)

  /** The queues of all processes: PID p's is at index p - 1. */
  type Net = seq<Ledger>

  /** `pid`'s slot holds a live process. */
  predicate Found(t: seq<P.Pcb>, pid: P.Pid)
    requires |t| == P.SLOTS
  {
    P.Index(pid) >= 0 && P.Live(t[P.Index(pid)])
  }

  predicate MayCommunicate(t: seq<P.Pcb>, pid: P.Pid)
    requires |t| == P.SLOTS
  {
    Found(t, pid) && t[P.Index(pid)].caps & COMMUNICATE != 0
  }

  /** The outcome of a send, in the order of the source's checks. */
  function SendStatus(net: Net, t: seq<P.Pcb>, current: P.Pid, target: P.Pid, payload: seq<bv8>): Status
    requires |net| == QUEUES && |t| == P.SLOTS
  {
    if payload == [] || |payload| > MAX_PAYLOAD || target == 0 || current == 0 then Invalid
    else if !MayCommunicate(t, current) then Denied
    else if !Found(t, target) || target > QUEUES then NotFound
    else if |net[target - 1].pending| >= SIZE then Overflow
    else Sent
  }

  /** The message as sent, carrying the sender's capabilities. */
  function Outgoing(t: seq<P.Pcb>, id: nat, current: P.Pid, target: P.Pid, payload: seq<bv8>, tick: nat): Message
    requires |t| == P.SLOTS && MayCommunicate(t, current)
  {
    Message(id, current, target, t[P.Index(current)].caps, tick, payload)
  }

  function BroadcastStatus(t: seq<P.Pcb>, current: P.Pid, payload: seq<bv8>): Status
    requires |t| == P.SLOTS
  {
    if payload == [] || |payload| > MAX_PAYLOAD || current == 0 then Invalid
    else if !MayCommunicate(t, current) then Denied
    else Sent
  }

  /** `pid` gets a copy of `current`'s broadcast if its queue has room. */
  predicate Listens(t: seq<P.Pcb>, current: P.Pid, pid: P.Pid)
    requires |t| == P.SLOTS
  {
    P.FIRST_APP <= pid <= QUEUES && Found(t, pid) && t[P.Index(pid)].agent && pid != current
  }

  /** A blocked or idle receiver becomes ready. */
  function Woken(x: P.Pcb): P.Pcb {
    if x.state.Blocked? || x.state.AgentIdle? then x.(state := P.Ready, waitingFor := 0) else x
  }

  function WokenByBroadcast(x: P.Pcb): P.Pcb {
    if x.state.AgentIdle? then x.(state := P.Ready) else x
  }

  function Wake(t: seq<P.Pcb>, pid: P.Pid): seq<P.Pcb>
    requires |t| == P.SLOTS && Found(t, pid)
  {
    t[P.Index(pid) := Woken(t[P.Index(pid)])]
  }

  /** `pid` waits for a message from `filter`. */
  function Block(t: seq<P.Pcb>, pid: P.Pid, filter: P.Pid): seq<P.Pcb>
    requires |t| == P.SLOTS
  {
    if Found(t, pid) then t[P.Index(pid) := t[P.Index(pid)].(state := P.Blocked, waitingFor := filter)] else t
  }

  /** As much of a payload as fits in `room` bytes. */
  function Fit(payload: seq<bv8>, room: nat): seq<bv8> {
    payload[..if |payload| > room then room else |payload|]
  }

  ghost predicate AllBelow(q: seq<Message>, id: nat) {
    forall m :: m in q ==> m.id < id
  }

  ghost predicate Addressed(q: seq<Message>, pid: nat) {
    forall m :: m in q ==> m.target == pid || m.target == 0
  }

  /** A queue's history: only messages for its process, numbered upwards until the id counter wraps. */
  ghost predicate LogOk(log: seq<Message>, pid: nat, issued: nat) {
    Addressed(log, pid) && (issued <= P.WRAP ==> IdsIncrease(log) && AllBelow(log, issued))
  }

  /** Arrivals and pending messages alike; the pending ones need their own clause as any of them may be taken first. */
  ghost predicate HistoryOk(l: Ledger, pid: nat, issued: nat) {
    LogOk(l.arrived, pid, issued) && LogOk(l.pending, pid, issued)
  }

  ghost predicate NewTo(l: Ledger, id: nat) {
    AllBelow(l.arrived, id) && AllBelow(l.pending, id)
  }

  ghost predicate NetOk(net: Net, issued: nat) {
    |net| == QUEUES && forall i :: 0 <= i < QUEUES ==> HistoryOk(net[i], i + 1, issued)
  }

  lemma AppendOk(log: seq<Message>, m: Message, pid: nat, issued: nat)
    requires LogOk(log, pid, issued) && (m.target == pid || m.target == 0)
    requires issued <= P.WRAP ==> AllBelow(log, m.id) && m.id < issued
    ensures LogOk(log + [m], pid, issued)
  {
    forall i, j | 0 <= i < j < |log + [m]| && issued <= P.WRAP
      ensures (log + [m])[i].id < (log + [m])[j].id
    {
      assert log[i] in log;
    }
  }

  lemma ArrivesOk(l: Ledger, m: Message, pid: nat, issued: nat)
    requires HistoryOk(l, pid, issued) && (m.target == pid || m.target == 0)
    requires issued <= P.WRAP ==> NewTo(l, m.id) && m.id < issued
    ensures HistoryOk(Arrives(l, m), pid, issued)
  {
    AppendOk(l.arrived, m, pid, issued);
    AppendOk(l.pending, m, pid, issued);
  }

  /** Taking out any message leaves the others in order. */
  lemma LeavesOk(l: Ledger, k: nat, pid: nat, issued: nat)
    requires HistoryOk(l, pid, issued) && k < |l.pending|
    ensures HistoryOk(Leaves(l, k), pid, issued)
  {
    var q := Without(l.pending, k);
    forall m | m in q
      ensures m in l.pending
    {
    }
    assert issued <= P.WRAP ==> IdsIncrease(q);
  }

  /** Taking a number keeps the histories in order, and the number is new to each of them. */
  lemma IssueKeeps(net: Net, issued: nat)
    requires NetOk(net, issued)
    ensures NetOk(net, issued + 1)
    ensures forall q :: q in net && issued < P.WRAP ==> NewTo(q, issued)
  {
    hide IdsIncrease, Addressed;
    forall i | 0 <= i < QUEUES
      ensures HistoryOk(net[i], i + 1, issued + 1)
      ensures issued < P.WRAP ==> NewTo(net[i], issued)
    {
      assert HistoryOk(net[i], i + 1, issued);
    }
  }

  /** The pending messages of a process carry strictly increasing ids until the counter wraps, and all are meant for it. */
  lemma PendingInOrder(net: Net, issued: nat, pid: nat, j: nat, k: nat)
    requires NetOk(net, issued) && issued <= P.WRAP && 0 < pid <= QUEUES && j < k < |net[pid - 1].pending|
    ensures net[pid - 1].pending[j].id < net[pid - 1].pending[k].id < issued
    ensures net[pid - 1].pending[k].target in {0, pid}
  {
    assert HistoryOk(net[pid - 1], pid, issued);
    assert net[pid - 1].pending[k] in net[pid - 1].pending;
  }

  function Arrived(net: Net): seq<nat> {
    seq(|net|, i requires 0 <= i < |net| => |net[i].arrived|)
  }

  function Delivered(net: Net): seq<nat> {
    seq(|net|, i requires 0 <= i < |net| => |net[i].delivered|)
  }

  function Waiting(net: Net): seq<nat> {
    seq(|net|, i requires 0 <= i < |net| => |net[i].pending|)
  }

  /** Everything enqueued has been received or is still pending. */
  lemma Conservation(net: Net)
    requires forall i :: 0 <= i < |net| ==> Balanced(net[i])
    ensures Sum(Arrived(net)) == Sum(Delivered(net)) + Sum(Waiting(net))
  {
    hide From;
    SumPlus(Arrived(net), Delivered(net), Waiting(net));
  }

  /** `m` reaches queue `i` if there is room. */
  function Offered(net: Net, i: nat, m: Message): Net
    requires i < |net|
  {
    if |net[i].pending| < SIZE then net[i := Arrives(net[i], m)] else net
  }

  lemma PutSums(net: Net, i: nat, m: Message)
    requires i < |net|
    ensures Sum(Arrived(net[i := Arrives(net[i], m)])) == Sum(Arrived(net)) + 1
    ensures Delivered(net[i := Arrives(net[i], m)]) == Delivered(net)
  {
    hide Sum;
    SumUpdate(Arrived(net), i, |net[i].arrived| + 1);
    assert Arrived(net[i := Arrives(net[i], m)]) == Arrived(net)[i := |net[i].arrived| + 1];
  }

  lemma TakeSums(net: Net, i: nat, k: nat)
    requires i < |net| && k < |net[i].pending|
    ensures Sum(Delivered(net[i := Leaves(net[i], k)])) == Sum(Delivered(net)) + 1
    ensures Arrived(net[i := Leaves(net[i], k)]) == Arrived(net)
  {
    hide Sum;
    SumUpdate(Delivered(net), i, |net[i].delivered| + 1);
    assert Delivered(net[i := Leaves(net[i], k)]) == Delivered(net)[i := |net[i].delivered| + 1];
  }

  /** A receive from queue `i` keeps the histories in order and delivers at most one message. */
  lemma TakeKeeps(net: Net, i: nat, filter: nat, r: Option<Message>, after: Ledger, issued: nat)
    requires NetOk(net, issued) && i < QUEUES && Receives(net[i], filter, r, after)
    ensures NetOk(net[i := after], issued)
    ensures Arrived(net[i := after]) == Arrived(net)
    ensures Sum(Delivered(net[i := after])) == Sum(Delivered(net)) + if r.Some? then 1 else 0
  {
    hide Sum, HistoryOk;
    if r.Some? {
      var k: nat :| OldestFrom(net[i].pending, filter, k) && after == Leaves(net[i], k);
      TakeSums(net, i, k);
      LeavesOk(net[i], k, i + 1, issued);
    } else {
      assert net[i := after] == net;
    }
  }

  /** PID `p`'s queue and process after a broadcast of `m` from `current`, where they were `was` and `x`. */
  ghost predicate Copied(was: Ledger, x: P.Pcb, current: P.Pid, m: Message, p: nat, q: Ledger, x': P.Pcb) {
    if P.FIRST_APP <= p && P.Live(x) && x.agent && p != current && |was.pending| < SIZE
    then q == Arrives(was, m) && x' == WokenByBroadcast(x)
    else q == was && x' == x
  }

  /** A broadcast that has visited the first `n` processes. */
  ghost predicate Spread(net: Net, t: seq<P.Pcb>, current: P.Pid, m: Message, n: nat, net': Net, t': seq<P.Pcb>) {
    |net| == |net'| == QUEUES && |t| == |t'| == P.SLOTS && n <= QUEUES &&
    (forall i :: 0 <= i < n ==> Copied(net[i], t[i], current, m, i + 1, net'[i], t'[i])) &&
    forall i :: n <= i < QUEUES ==> net'[i] == net[i] && t'[i] == t[i]
  }

  lemma SpreadStart(net: Net, t: seq<P.Pcb>, current: P.Pid, m: Message)
    requires |net| == QUEUES && |t| == P.SLOTS
    ensures Spread(net, t, current, m, 1, net, t)
  {
  }

  lemma SpreadAt(net: Net, t: seq<P.Pcb>, current: P.Pid, m: Message, n: nat, net': Net, t': seq<P.Pcb>)
    requires n < QUEUES && Spread(net, t, current, m, n, net', t')
    ensures |net'| == QUEUES && net'[n] == net[n] && net'[n] in net
  {
  }

  lemma SpreadStep(net: Net, t: seq<P.Pcb>, current: P.Pid, m: Message, n: nat, net': Net, t': seq<P.Pcb>,
                   q: Ledger, x: P.Pcb)
    requires n < QUEUES && Spread(net, t, current, m, n, net', t')
    requires Copied(net'[n], t'[n], current, m, n + 1, q, x)
    ensures Spread(net, t, current, m, n + 1, net'[n := q], t'[n := x])
  {
    hide Copied;
  }

  /** Exactly the live agents other than the sender, from PID 2 up and with room, get a copy; no one else's queue changes. */
  lemma SpreadExact(net: Net, t: seq<P.Pcb>, current: P.Pid, m: Message, net': Net, t': seq<P.Pcb>, i: nat)
    requires Spread(net, t, current, m, QUEUES, net', t') && i < QUEUES
    ensures Listens(t, current, i + 1) && |net[i].pending| < SIZE ==> net'[i].pending == net[i].pending + [m]
    ensures !(Listens(t, current, i + 1) && |net[i].pending| < SIZE) ==> net'[i] == net[i]
  {
    assert Copied(net[i], t[i], current, m, i + 1, net'[i], t'[i]);
  }

  class Ipc {
    const queues: seq<IpcQueue>
    const procs: P.Processes
    var totalSent: nat
    var totalRecv: nat
    var denied: nat
    var full: nat
    var broadcasts: nat
    /** The 32-bit message counter. */
    var nextId: P.Pid

    /** Messages numbered so far, and broadcast copies delivered. */
    ghost var issued: nat
    ghost var copies: nat
    /** The queues and their arrays. */
    ghost const repr: set<object>

    /** The queues are separate objects, and the process table is none of them. */
    ghost predicate Shape() {
      |queues| == QUEUES && this !in repr && procs !in repr && procs.table !in repr &&
      (forall i :: 0 <= i < QUEUES ==> queues[i] in repr && queues[i].messages in repr) &&
      forall i, j :: 0 <= i < j < QUEUES ==> queues[i] != queues[j] && queues[i].messages != queues[j].messages
    }

    ghost predicate QueuesOk()
      reads repr
    {
      Shape() && forall i :: 0 <= i < QUEUES ==> queues[i].Valid()
    }

    ghost predicate Valid()
      reads this`totalSent, this`totalRecv, this`nextId, this`issued, this`copies
      reads repr, procs, procs.table
    {
      QueuesOk() && procs.Valid() && NetOk(Net(), issued) && nextId == issued % P.WRAP &&
      Sum(Arrived(Net())) == totalSent + copies && Sum(Delivered(Net())) == totalRecv
    }

    /** The histories of all queues. */
    ghost function Net(): (net: Net)
      requires Shape()
      reads repr
      ensures |net| == QUEUES && forall i :: 0 <= i < QUEUES ==> net[i] == queues[i].ledger
    {
      seq(QUEUES, i requires 0 <= i < QUEUES && Shape() reads repr => queues[i].ledger)
    }

    lemma Bounds()
      requires Valid()
      ensures Shape() && procs.table.Length == P.SLOTS
      ensures forall i :: 0 <= i < QUEUES ==> queues[i].count == |Net()[i].pending|
    {
      assert forall i :: 0 <= i < QUEUES ==> queues[i].Valid();
    }

    /** Append to one queue if it has room: only that queue changes. */
    method Put(i: nat, m: Message) returns (ok: bool)
      requires QueuesOk() && i < QUEUES
      modifies queues[i], queues[i].messages
      ensures QueuesOk() && ok == (|old(Net())[i].pending| < SIZE)
      ensures Net() == Offered(old(Net()), i, m)
    {
      assert queues[i].Valid();
      hide IpcQueue.Valid;
      ok := queues[i].Enqueue(m);
      assert forall j :: 0 <= j < QUEUES && j != i ==> old(queues[j].Valid());
      assert Net() == Offered(old(Net()), i, m);
    }

    /** Receive from one queue: only that queue changes. */
    method Take(i: nat, filter: nat) returns (r: Option<Message>)
      requires QueuesOk() && i < QUEUES
      modifies queues[i], queues[i].messages
      ensures QueuesOk()
      ensures Net() == old(Net())[i := Net()[i]]
      ensures Receives(old(Net())[i], filter, r, Net()[i])
    {
      hide IpcQueue.Valid, Receives;
      r := queues[i].Receive(filter);
      assert forall j :: 0 <= j < QUEUES && j != i ==> old(queues[j].Valid());
      assert Net() == old(Net())[i := Net()[i]];
    }

    constructor (procs: P.Processes)
      requires procs.Valid()
      ensures Valid() && this.procs == procs && fresh(repr)
      ensures nextId == 0 && issued == 0
      ensures forall i :: 0 <= i < QUEUES ==> Net()[i] == Ledger([], [], [])
    {
      hide Sum, IpcQueue.Valid;
      var qs: seq<IpcQueue> := [];
      ghost var all: set<object> := {};
      for i := 0 to QUEUES
        invariant |qs| == i && fresh(all)
        invariant forall q :: q in qs ==> q in all && q.messages in all
        invariant forall q :: q in qs ==> fresh(q) && fresh(q.messages) && q.Valid() && q.ledger == Ledger([], [], [])
        invariant forall j, k :: 0 <= j < k < i ==> qs[j] != qs[k] && qs[j].messages != qs[k].messages
      {
        var q := new IpcQueue();
        qs := qs + [q];
        all := all + {q, q.messages};
      }
      queues, repr := qs, all;
      this.procs := procs;
      totalSent, totalRecv, denied, full, broadcasts, nextId := 0, 0, 0, 0, 0, 0;
      issued, copies := 0, 0;
      new;
      SumZero(Arrived(Net()));
      SumZero(Delivered(Net()));
    }

    /** Number a message, queue it for its target and count it. */
    method Post(current: P.Pid, target: P.Pid, caps: bv64, payload: seq<bv8>, tick: nat)
      requires Valid() && 0 < target <= QUEUES && |Net()[target - 1].pending| < SIZE
      modifies this`nextId, this`issued, this`totalSent, repr
      ensures Valid() && issued == old(issued) + 1 && totalSent == old(totalSent) + 1
      ensures Net() == old(Net())[target - 1 := Arrives(old(Net())[target - 1],
                                                        Message(old(nextId), current, target, caps, tick, payload))]
    {
      hide Sum, HistoryOk, NewTo, P.Processes.Valid, Arrived, Delivered, IpcQueue.Valid;
      ghost var net := Net();
      var m := Message(nextId, current, target, caps, tick, payload);
      TakeNumber();
      assert net[target - 1] in Net();
      var ok := Put(target - 1, m);
      ArrivesOk(net[target - 1], m, target, issued);
      PutSums(net, target - 1, m);
      totalSent := totalSent + 1;
    }

    /** Make `pid` ready if it waits. */
    method Rouse(pid: P.Pid)
      requires Valid() && Found(procs.table[..], pid)
      modifies procs`activeCount, procs`agentCount, procs.table
      ensures Valid() && Net() == old(Net()) && procs.table[..] == Wake(old(procs.table[..]), pid)
    {
      hide Sum, IpcQueue.Valid, P.Count, NetOk;
      var t := P.Index(pid);
      assert P.SlotOk(procs.table[..][t], t);
      procs.SetSlot(t, Woken(procs.table[t]));
    }

    /** Send: on success exactly the target's queue grows, by exactly this message, and the target is woken. */
    method Send(current: P.Pid, target: P.Pid, payload: seq<bv8>, tick: nat) returns (st: Status)
      requires Valid()
      modifies this, repr, procs, procs.table
      ensures Valid()
      ensures st == SendStatus(old(Net()), old(procs.table[..]), current, target, payload)
      ensures st != Sent ==> Net() == old(Net()) && procs.table[..] == old(procs.table[..]) && issued == old(issued)
      ensures st == Sent ==> issued == old(issued) + 1 && totalSent == old(totalSent) + 1
      ensures st == Sent ==>
        Net() == old(Net())[target - 1 := Arrives(old(Net())[target - 1],
                              Outgoing(old(procs.table[..]), old(nextId), current, target, payload, tick))]
      ensures st == Sent ==> procs.table[..] == Wake(old(procs.table[..]), target)
    {
      Bounds();
      hide Valid, Woken;
      if payload == [] || |payload| > MAX_PAYLOAD || target == 0 || current == 0 {
        return Invalid;
      }
      var sender := P.Index(current);
      if sender < 0 || !P.Live(procs.table[sender]) || procs.table[sender].caps & COMMUNICATE == 0 {
        denied := denied + 1;
        return Denied;
      }
      var t := P.Index(target);
      if t < 0 || !P.Live(procs.table[t]) || target > QUEUES {
        return NotFound;
      }
      var q := queues[target - 1];
      if q.count >= SIZE {
        full := full + 1;
        return Overflow;
      }
      Post(current, target, procs.table[sender].caps, payload, tick);
      Rouse(target);
      return Sent;
    }

    /** Receive without waiting, or block when nothing is accepted. */
    method Recv(current: P.Pid, filter: P.Pid, room: nat, wait: bool) returns (r: RecvResult, ghost m: Option<Message>)
      requires Valid()
      modifies this, repr, procs, procs.table
      ensures Valid() && issued == old(issued)
      ensures r.Bad? <==> current == 0 || current > QUEUES
      ensures r.Bad? ==> Net() == old(Net()) && procs.table[..] == old(procs.table[..])
      ensures !r.Bad? ==> Receives(old(Net())[current - 1], filter, m, Net()[current - 1])
      ensures !r.Bad? ==> Net() == old(Net())[current - 1 := Net()[current - 1]]
      ensures !r.Bad? ==> r == match m case None => (if wait then WouldBlock else NoMessage)
                                       case Some(x) => Got(x.sender, |x.payload|, Fit(x.payload, room))
      ensures procs.table[..] == if r.WouldBlock? then Block(old(procs.table[..]), current, filter) else old(procs.table[..])
    {
      hide Sum, HistoryOk, P.Count, Arrived, Delivered, IpcQueue.Valid, Woken, P.SlotOk, Receives;
      if current == 0 || current > QUEUES {
        return Bad, None;
      }
      ghost var net := Net();
      var x := Take(current - 1, filter);
      m := x;
      TakeKeeps(net, current - 1, filter, x, Net()[current - 1], issued);
      if x.Some? {
        totalRecv := totalRecv + 1;
        r := Got(x.value.sender, |x.value.payload|, Fit(x.value.payload, room));
      } else if wait {
        Pause(current, filter);
        r := WouldBlock;
      } else {
        r := NoMessage;
      }
    }

    /** Mark the caller as blocked on `filter`. */
    method Pause(current: P.Pid, filter: P.Pid)
      requires procs.Valid()
      modifies procs`activeCount, procs`agentCount, procs.table
      ensures procs.Valid() && procs.table[..] == Block(old(procs.table[..]), current, filter)
    {
      var t := P.Index(current);
      if t >= 0 && P.Live(procs.table[t]) {
        assert P.SlotOk(procs.table[..][t], t);
        procs.SetSlot(t, procs.table[t].(state := P.Blocked, waitingFor := filter));
      }
    }

    /** A broadcast's copy for PID `p`: queued and the receiver woken, or dropped when there is no room. */
    method Copy(p: P.Pid, m: Message) returns (ok: bool)
      requires Valid() && P.FIRST_APP <= p <= QUEUES && Found(procs.table[..], p) && m.target == 0
      requires issued <= P.WRAP ==> NewTo(Net()[p - 1], m.id) && m.id < issued
      modifies this`copies, repr, procs`activeCount, procs`agentCount, procs.table
      ensures Valid() && ok == (|old(Net())[p - 1].pending| < SIZE)
      ensures Net() == Offered(old(Net()), p - 1, m) && copies == old(copies) + if ok then 1 else 0
      ensures procs.table[..] == if ok then old(procs.table[..])[p - 1 := WokenByBroadcast(old(procs.table[..])[p - 1])]
                                 else old(procs.table[..])
    {
      hide Sum, HistoryOk, NewTo, P.Count, Arrived, Delivered, IpcQueue.Valid, Balanced;
      ghost var net := Net();
      ok := Put(p - 1, m);
      if ok {
        ArrivesOk(net[p - 1], m, p, issued);
        PutSums(net, p - 1, m);
        copies := copies + 1;
        assert P.SlotOk(procs.table[..][p - 1], p - 1);
        procs.SetSlot(p - 1, WokenByBroadcast(procs.table[p - 1]));
      }
    }

    /**
     * Broadcast: exactly the live agents from PID 2 up, other than the sender, whose queues have room
     * get one copy each, and idle ones among them are woken.
     */
    method Broadcast(current: P.Pid, payload: seq<bv8>, tick: nat) returns (st: Status, delivered: nat)
      requires Valid()
      modifies this, repr, procs, procs.table
      ensures Valid() && st == BroadcastStatus(old(procs.table[..]), current, payload)
      ensures st != Sent ==> Net() == old(Net()) && procs.table[..] == old(procs.table[..]) && issued == old(issued)
      ensures st == Sent ==> issued == old(issued) + 1 && copies == old(copies) + delivered
      ensures st == Sent ==>
        Spread(old(Net()), old(procs.table[..]), current,
               Outgoing(old(procs.table[..]), old(nextId), current, 0, payload, tick),
               QUEUES, Net(), procs.table[..])
    {
      hide Valid, Spread, NewTo, Net, Copied, QueuesOk, Shape;
      Bounds();
      delivered := 0;
      if payload == [] || |payload| > MAX_PAYLOAD || current == 0 {
        return Invalid, 0;
      }
      var sender := P.Index(current);
      if sender < 0 || !P.Live(procs.table[sender]) || procs.table[sender].caps & COMMUNICATE == 0 {
        denied := denied + 1;
        return Denied, 0;
      }
      var m := Message(nextId, current, 0, procs.table[sender].caps, tick, payload);
      TakeNumber();
      delivered := CopyToAll(current, m);
      broadcasts := broadcasts + 1;
      st := Sent;
    }

    /** Advance the message counter. */
    method TakeNumber()
      requires Valid()
      modifies this`nextId, this`issued
      ensures Valid() && issued == old(issued) + 1
      ensures issued <= P.WRAP ==> old(nextId) < issued && forall q :: q in Net() ==> NewTo(q, old(nextId))
    {
      hide Sum, HistoryOk, P.Processes.Valid, Arrived, Delivered, IpcQueue.Valid;
      IssueKeeps(Net(), issued);
      nextId := (nextId + 1) % P.WRAP;
      issued := issued + 1;
    }

    /** One step of a broadcast's loop. */
    method Visit(p: P.Pid, current: P.Pid, m: Message) returns (ok: bool)
      requires Valid() && P.FIRST_APP <= p <= QUEUES && m.target == 0
      requires issued <= P.WRAP ==> NewTo(Net()[p - 1], m.id) && m.id < issued
      modifies this`copies, repr, procs`activeCount, procs`agentCount, procs.table
      ensures Valid() && copies == old(copies) + if ok then 1 else 0
      ensures |Net()| == QUEUES && procs.table.Length == P.SLOTS
      ensures Net() == old(Net())[p - 1 := Net()[p - 1]]
      ensures procs.table[..] == old(procs.table[..])[p - 1 := procs.table[p - 1]]
      ensures Copied(old(Net())[p - 1], old(procs.table[..])[p - 1], current, m, p, Net()[p - 1], procs.table[p - 1])
    {
      Bounds();
      hide Valid, NewTo, Net;
      ok := false;
      var x := procs.table[P.Index(p)];
      if P.Live(x) && x.agent && p != current {
        ok := Copy(p, m);
      }
    }

    /** The delivery loop of a broadcast. */
    method CopyToAll(current: P.Pid, m: Message) returns (delivered: nat)
      requires Valid() && m.target == 0
      requires issued <= P.WRAP ==> m.id < issued && forall q :: q in Net() ==> NewTo(q, m.id)
      modifies this`copies, repr, procs`activeCount, procs`agentCount, procs.table
      ensures Valid() && copies == old(copies) + delivered
      ensures Spread(old(Net()), old(procs.table[..]), current, m, QUEUES, Net(), procs.table[..])
    {
      assert 0 < P.FIRST_APP <= QUEUES;
      hide *;
      Bounds();
      ghost var net, t := Net(), procs.table[..];
      delivered := 0;
      var p: nat := P.FIRST_APP;
      SpreadStart(net, t, current, m);
      while p <= QUEUES
        invariant P.FIRST_APP <= p <= QUEUES + 1 && Valid() && copies == old(copies) + delivered && issued == old(issued)
        invariant Spread(net, t, current, m, p - 1, Net(), procs.table[..])
      {
        ghost var net', t' := Net(), procs.table[..];
        SpreadAt(net, t, current, m, p - 1, net', t');
        var ok := Visit(p, current, m);
        SpreadStep(net, t, current, m, p - 1, net', t', Net()[p - 1], procs.table[p - 1]);
        if ok {
          delivered := delivered + 1;
        }
        p := p + 1;
      }
    }
  }
}
