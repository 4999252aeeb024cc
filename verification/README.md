# FLUX OS kernel, agent runtime and FIR optimiser: a verified model

This project models the parts of FLUX OS whose correctness depends on state kept over long runs, and proves properties
of them with Dafny 4.11. Check it with `dafny verify dfyconfig.toml`.

The files follow the components of the system.

- `Fir*.dfy`: the FIR optimiser. A block-step semantics with a trace of effectful operations and an oracle for
  unknown results; dead-code elimination, constant folding, use replacement, the validator and the optimisation
  pipeline as methods that rewrite a function in place, each proved against a function on values.
- `HeapSpec.dfy`, `HeapLists.dfy`, `Heap.dfy`: the kernel heap. A sequence of blocks that tile the heap is the
  specification; the class works on headers threaded into a doubly linked, address-sorted free list.
- `SchedSpec.dfy`, `SchedRun.dfy`, `SchedRing.dfy`, `SchedRingRun.dfy`, `Scheduler.dfy`: the ready queue as a sequence
  with aging, the ring that holds it, their runs, and the code.
- `ProcTable.dfy`: PID allocation, spawn, exit and kill.
- `Ring64.dfy`, `IpcQueue.dfy`, `IpcKernel.dfy`: kernel message passing.
- `A2aSpec.dfy`, `MsgPool.dfy`, `AgentSlot.dfy`, `Topics.dfy`, `AgentRuntime.dfy`: the agent runtime.
- `PageSpec.dfy`, `PhysMem.dfy`: the physical page bitmap.
- `VmMachine.dfy`, `Sandbox.dfy`: the bytecode machine and the sandbox that runs agents in it.
- `Bits.dfy`, `PopCount.dfy`, `Rotate.dfy`: the bit kernels.
- `Sums.dfy`, `Seqs.dfy`, `Wrappers.dfy`: sums of sequences, removal at an index, optional values.

An object the source updates in place is a class whose ghost fields hold its abstract value; each method says what the
new value is, and the lemmas are about those values. A locked section of the source is one atomic call.

## Assumptions

- FIR: unknown results (calls, loads, messages, division and remainder by zero) come from an oracle that may depend on
  everything that happened so far. Phis of a block take effect together. Signed overflow wraps. Dead-code
  elimination needs unique value ids only. Folding needs strict SSA form, which is shown to be definition before use on
  every path. The code rewrites branch target ids along with operands, so that its passes preserve meaning as long as no
  copy rule that fires rewrites an id some branch names as a target (`SafeVisit`, carried along passes by `SafePasses`);
  a visit keeps all targets exactly then (`VisitKeepsTargetsIff`), and `ClashRedirects` is a function where it does not.
  `NeutralSafe` is a sufficient condition on the function as given (`AlwaysSafeIfNeutralSafe`).
- Heap: the header size is a symbolic positive constant; clients write only payload bytes, and free and realloc get
  NULL or a pointer whose header is intact.
- Scheduler: ticks do not wrap.
- Message ids, PIDs and page counts have the widths of the source, with their wrap-around. Statistics counters and
  the cycle and tick counters are unbounded.
- Agent runtime: which heap requests succeed is an arbitrary function; heap addresses are not reused.
- Machine: the values instructions compute or load are arbitrary, which covers every arithmetic and every memory
  content; only division by zero and the tests that steer control are exact. `Undefined` stands for accesses the C code
  would make outside its arrays (a register field of 64 or more that is written, an address sum that leaves 64 bits, a
  frame pointer beyond the stack); the claims hold up to there.

## Where code and documentation disagree

The model follows the code.

- The folding loop does not terminate on a function that holds `x + 0`, `x - 0` or `x * 1` with an unknown `x`
  (`AddZeroNeverStops`); it stops exactly when there is none, where the neutral operand counts if it is known after
  propagation (`LoopStopsIff`).
- A use rewrite also hits branch target ids (`ClashRedirects`, `TargetsKeptIff`).
- The heap's comments say first fit; the search is best fit.
- The scheduler's removal shifts one array distance, not the logical one, when the entry lies before the head of the
  ring: the oldest entry is lost (`ShiftOverruns`, `OverrunRightIff`), and with it the promises of no duplicates and no
  starvation (`OverrunDuplicates`, `LostProcess`). They hold in the runs in which every dequeue is exact, a condition on
  the ring before the call (`Exact`, `RunRefinesIff`). Removal is not constant time.
- Aging stops at 200, so that a process above it can starve others (`HighPriorityStarves`).
- A process lookup does not compare ids (`StaleLookup`), so that a kill can end a later process in the same slot, and
  PID 257 the kernel (`KillTakesKernel`, `KernelSurvivesIff`).
- Topic names are cut to 31 characters when stored and then compared whole (`SubscriptionReachesIff`).
- Agent id 4 is never handed out.
- A page request of size 0 returns 2^64 - 4096, and page counts are cut to an int (`PagesForExactIff`).
- An agent run never returns its success status: a halted agent is reported by the general error.

## Model

| member | source | states |
|---|---|---|
| `FirDeadCode.RemovalPreservesMeaning` | fluxc/fir.c:427-463 | Removing one unused effect-free value leaves effect trace and return value of every run unchanged, for every function with unique ids and every behaviour of the unknown operations |
| `FirDeadCode.StepRemoved` | fluxc/fir.c:336-357 | One block step of the function with and without an unused value stays in agreement, phis included |
| `FirPasses.FirFunc.ValueIsUsed` | fluxc/fir.c:336-357 | The scan answers true exactly when some other value has the id among its operands or phi sources |
| `FirPasses.FirFunc.DeadCodeElim` | fluxc/fir.c:427-463 | The whole pass terminates, preserves meaning, and ends where every remaining effect-free non-terminator is used |
| `FirPasses.FirFunc.SweepBlock` | fluxc/fir.c:438-460 | One sweep over a block removes only unused values, and lowers the value count when it reports a change |
| `FirPasses.ShiftOut` | fluxc/fir.c:446-452 | Shifting the tail of the value array down deletes exactly the chosen value |
| `FirSsa.EquationsHold` | fluxc/fir.c:143-175 | In every reachable state of a strict SSA function each defined value equals its defining operation on its operands |
| `FirEquiv.RunSame` | fluxc/fir.c:466-615 | Functions that agree on every reachable environment run identically, step by step |
| `FirFold.KnownConst` | fluxc/fir.c:374-387 | What the constant lookup returns is the value the id has whenever it is available |
| `FirPasses.FirFunc.GetConstInt` | fluxc/fir.c:374-387 | The lookup returns the first constant with that id, or fails when there is none |
| `FirFold.TimesZeroSound` | fluxc/fir.c:584-611 | A product with a constant zero on either side is always zero |
| `FirFold.FoldToPreserves` | fluxc/fir.c:482-560 | Replacing a value by the constant it always has preserves every run |
| `FirFold.CopyEquals` | fluxc/fir.c:574-603 | A value computed as x+0, x-0 or x*1 always equals x |
| `FirFold.ReplacePreserves` | fluxc/fir.c:406-423 | Rewriting all uses of a copy to its source preserves every run and the strict SSA form when no branch names the rewritten id as a target |
| `FirPasses.FirFunc.ReplaceAllUses` | fluxc/fir.c:406-423 | The two loops rewrite exactly the operands and phi sources equal to the old id |
| `FirPasses.RewriteValue` | fluxc/fir.c:410-421 | One value's operands and phi sources are rewritten as specified |
| `FirPasses.FoldArith` | fluxc/fir.c:485-512 | Folded arithmetic wraps to 64 bits, divides toward zero and refuses a zero divisor |
| `FirPasses.FoldBitwise` | fluxc/fir.c:514-536 | Folded bit operations and shifts equal the run-time operations |
| `FirPasses.FoldCompare` | fluxc/fir.c:538-560 | Folded comparisons equal the run-time comparisons |
| `FirPasses.FirFunc.FoldToConstant` | fluxc/fir.c:482-560 | The in-place overwrite is the specified replacement of one value by a constant |
| `FirPasses.FirFunc.SimplifySecond` | fluxc/fir.c:570-592 | The rules on a constant second operand, in the order of the code |
| `FirPasses.FirFunc.SimplifyFirst` | fluxc/fir.c:594-611 | The rules on a constant first operand |
| `FirPasses.FirFunc.VisitValue` | fluxc/fir.c:472-612 | One value's visit is the specified rewrite, with the reported change flag |
| `FirFoldLoop.VisitKeeps` | fluxc/fir.c:472-612 | One visit preserves all runs and the strict SSA form if the copy rules that fire in it rewrite no branch target |
| `FirFoldLoop.FoldingPreservesRuns` | fluxc/fir.c:466-615 | Any number of folding passes preserves every run in full, environment included, if the copy rules that fire in them rewrite no branch target |
| `FirPasses.FirFunc.FoldPass` | fluxc/fir.c:470-613 | One pass over all blocks is the specified pass and reports whether any rule fired |
| `FirPasses.FirFunc.ConstantFold` | fluxc/fir.c:466-615 | For unique ids and no known neutral operand the loop ends, after some number of passes, where no pass changes anything; meaning, strict form and validity are kept if the copy rules that fire rewrite no branch target |
| `FirKnown.LearnedIsLeast` | fluxc/fir.c:466-615 | What the folder can come to know of a function, as the least fixed point of its constant rules, read off the function as given |
| `FirKnown.PassesKeepNeutrals` | fluxc/fir.c:466-615 | Passes neither add to what is known nor lose from it, whatever they rewrite |
| `FirKnown.LoopStopsIff` | fluxc/fir.c:466-615 | The loop stops if and only if the function as given has no ADD, SUB or MUL of unknown result with an operand known to be neutral |
| `FirKnown.NeutralSafePasses` | fluxc/fir.c:574-603 | No pass rewrites a branch target if no branch names a value with a known neutral operand |
| `FirKnown.BranchSafeIsSafe` | fluxc/fir.c:574-603 | In particular if no branch names an ADD, SUB or MUL |
| `FirFoldLoop.EventuallySaturated` | fluxc/fir.c:466-615 | After at most as many passes as there are foldable values no constant rule applies any more |
| `FirFoldLoop.UnchangedPass` | fluxc/fir.c:466-615 | A pass that reports no change changes nothing |
| `FirFoldLoop.AddZeroNeverStops` | fluxc/fir.c:574-583 | A function with x+0 for which every pass reports a change: the loop does not terminate |
| `FirValid.RemovalKeepsValid` | fluxc/fir.c:232-317 | Removal keeps a function valid for the validator |
| `FirValid.PassesStayValid` | fluxc/fir.c:232-317 | Folding passes keep a function valid if the copy rules that fire in them rewrite no branch target |
| `FirValid.TargetsKeptIff` | fluxc/fir.c:406-423 | A use rewrite keeps every branch target exactly when no branch names the rewritten id as a target |
| `FirValid.VisitKeepsTargetsIff` | fluxc/fir.c:472-612 | A visit keeps every branch target exactly when the copy rules that fire in it rewrite none |
| `FirValid.ClashRedirects` | fluxc/fir.c:277-285 | A function whose folding redirects a branch, because a block id equals a value id |
| `FirPasses.FirFunc.Validate` | fluxc/fir.c:232-317 | Zero errors are returned exactly for a valid function |
| `FirPasses.FirFunc.TerminatorErrors` | fluxc/fir.c:247-272 | Zero errors exactly when the block has one terminator, at its end |
| `FirPasses.FirFunc.TargetErrors` | fluxc/fir.c:274-313 | Zero errors exactly when every block a value names exists, both targets of a branch included |
| `FirOptimize.RemovalKeepsStrict` | fluxc/fir.c:427-463 | Removal keeps the strict SSA form with its dominators |
| `FirOptimize.RemovalKeepsSettled` | fluxc/fir.c:662-701 | Removal does not make a folding rule applicable again |
| `FirOptimize.SettledIff` | fluxc/fir.c:466-615 | No folding rule applies exactly when no value has constant operands or a neutral one |
| `FirPasses.FirFunc.Optimize` | fluxc/fir.c:662-701 | For unique ids and no known neutral operand the pipeline ends settled and free of dead code; it preserves meaning and validity if the copy rules that fire rewrite no branch target |
| `FirPasses.OptimizeChain` | fluxc/fir.c:662-701 | Folding followed by elimination composes to one transformation that preserves meaning, strict form and validity under the same condition on branch targets |
| `FirDominance.PathCertValid` | fluxc/fir.c:143-175 | The dominators defined by paths form a certificate for the SSA argument |
| `FirDominance.CertSound` | fluxc/fir.c:143-175 | Every certificate's dominators dominate along all paths |
| `FirDominance.StrictSsaByPaths` | fluxc/fir.c:143-175 | Strict SSA form by certificate is definition before use on every path |
| `HeapSpec.EnoughRoomIff` | kernel/mem.c:160-163 | Rounding a size up to 16 gives enough room exactly when the sum does not leave 64 bits |
| `HeapSpec.BestFitUnique` | kernel/mem.c:193-207 | At most one block is the smallest fitting one, lowest on ties |
| `HeapSpec.BestExists` | kernel/mem.c:193-207 | If some free block fits there is a best one |
| `HeapSpec.TakeOk` | kernel/mem.c:302-327 | Allocation from a tiled heap without adjacent free blocks leaves such a heap |
| `HeapSpec.ReleaseOk` | kernel/mem.c:525-566 | So does freeing |
| `HeapSpec.CoalesceMerge` | kernel/mem.c:265-296 | Merging pairs in any order ends in the same heap |
| `HeapSpec.AllFree` | kernel/mem.c:265-296 | With every block free the heap is the single initial block |
| `HeapSpec.PayloadsDisjoint` | kernel/mem.c:459-514 | Payloads of distinct blocks never overlap, nor meet a header |
| `HeapSpec.TakeLive` | kernel/mem.c:459-514 | Bytes handed out were not live before and all live bytes stay live |
| `HeapSpec.ReleaseKeeps` | kernel/mem.c:525-566 | Freeing one block leaves every other block in use as it was |
| `HeapSpec.RunOk` | kernel/mem.c:459-566 | Over any run of alloc, free and realloc the heap stays tiled and coalesced, and with nothing in use it is one block of heap size minus header |
| `HeapSpec.ChargeConserves` | kernel/mem.c:492-553 | Moving a charge between the used and free counters keeps their sum |
| `HeapLists.BestIsBestFit` | kernel/mem.c:193-207 | The best block on the complete free list is the best of all blocks |
| `HeapLists.Unlink` | kernel/mem.c:212-224 | Bypassing a node both ways takes exactly it off the list, links consistent |
| `HeapLists.LinkIn` | kernel/mem.c:229-259 | Linking a node between its neighbours by address keeps the list sorted with consistent links |
| `KernelHeap.Heap.constructor` | kernel/mem.c:410-442 | The initial heap is one free block of heap size minus header |
| `KernelHeap.Heap.FindFreeBlock` | kernel/mem.c:193-207 | The list walk returns the smallest fitting block, lowest on ties, or NULL exactly when none fits |
| `KernelHeap.Heap.RemoveFromFreeList` | kernel/mem.c:212-224 | Exactly the given node leaves the list |
| `KernelHeap.Heap.AddToFreeList` | kernel/mem.c:229-259 | The node is put between the nodes below and above it by address, and nothing else on the list moves |
| `KernelHeap.Heap.CoalesceFree` | kernel/mem.c:265-296 | The restart loop ends with the fully coalesced heap |
| `KernelHeap.Heap.SplitBlock` | kernel/mem.c:302-327 | The block is cut when the rest can hold a block of its own, and kept whole otherwise |
| `KernelHeap.Heap.TakeBlock` | kernel/mem.c:478-497 | The chosen block leaves the list, is split and marked in use |
| `KernelHeap.Heap.Alloc` | kernel/mem.c:459-514 | NULL exactly when no free block fits; otherwise the best fit, zeroed, with every other live byte unchanged |
| `KernelHeap.Heap.Free` | kernel/mem.c:525-566 | The block is released and merged; no live byte of another block changes; NULL and blocks not in use are ignored |
| `KernelHeap.Heap.Realloc` | kernel/mem.c:731-768 | All old payload bytes survive, in place or by a move; on failure the old block stays |
| `KernelHeap.Heap.Move` | kernel/mem.c:754-767 | Allocate, copy, free: the composition is an allocation followed by the release of the old block |
| `KernelHeap.Heap.AllocCopy` | kernel/mem.c:754-763 | The new block holds a copy of the old payload while both are in use |
| `KernelScheduler.Scheduler.FindHighestPriority` | kernel/sched.c:170-191 | The scan finds the earliest entry of maximal priority |
| `KernelScheduler.Scheduler.AgePriorities` | kernel/sched.c:198-230 | Every 1000th call boosts exactly the long-waiting entries below 200, in their ring slots and in the process table |
| `KernelScheduler.Scheduler.Enqueue` | kernel/sched.c:282-343 | A process already queued is not added again, a full queue refuses, otherwise the entry is written at the tail; the ring steps as specified |
| `KernelScheduler.Scheduler.Dequeue` | kernel/sched.c:356-405 | The best entry is returned and the ring steps exactly as specified, shift loop included, on either side of the head; it goes on from any state |
| `KernelScheduler.Scheduler.RemoveLater` | kernel/sched.c:380-394 | The shift loop runs for the array distance and leaves the specified ring, whichever side of the head the entry lies |
| `SchedRing.MovesAt` | kernel/sched.c:380-388 | Every slot after any number of shift steps, including slots shifted twice |
| `SchedRing.ShiftRemoves` | kernel/sched.c:380-394 | With the logical distance as step count exactly the entry is removed |
| `SchedRing.ShiftOverruns` | kernel/sched.c:380-394 | With the count of the code and an entry before the head, the oldest entry is lost and the slot behind the queue is taken in |
| `SchedRing.OverrunRightIff` | kernel/sched.c:384-384 | The overrun queue is the right one exactly when the entry it loses lies, stale, in the slot behind the queue |
| `SchedRing.EnqueueRefines` | kernel/sched.c:282-343 | Enqueueing in the ring is enqueueing in the sequence it holds |
| `SchedRing.DequeueQueue` | kernel/sched.c:356-405 | What a dequeue selects, and what it leaves on either side of the head |
| `SchedRing.DequeueExactIff` | kernel/sched.c:356-405 | A dequeue of the ring is the dequeue of the sequence it holds if and only if the selected entry does not lie before the head, or the oldest of two entries also lies stale behind the queue |
| `SchedSpec.PatienceBound` | kernel/sched.c:170-230 | The patience of any queued entry is at most 22255 |
| `SchedSpec.DequeuePatience` | kernel/sched.c:170-230 | A dequeue of the sequence that goes to another entry uses up patience; the ring's dequeue is that one exactly under the condition of DequeueExactIff |
| `SchedRingRun.RunRefinesIff` | kernel/sched.c:282-405 | A run of the ring is the run of the sequence, event by event, if and only if each of its dequeues is exact in the sense of DequeueExactIff |
| `SchedRun.RunOk` | kernel/sched.c:282-405 | Over any run of the sequence it is duplicate-free and holds at most 256 entries |
| `SchedRingRun.RingRunOk` | kernel/sched.c:282-405 | So is the ring's queue over any run whose dequeues are exact |
| `SchedRun.NoStarvation` | kernel/sched.c:198-230 | With priorities up to 200 and increasing ticks the sequence selects every queued process within 22256 dequeues |
| `SchedRingRun.RingNoStarvation` | kernel/sched.c:198-230 | So does the ring, in any run whose dequeues are exact |
| `SchedRingRun.LostProcess` | kernel/sched.c:380-394 | A ring reached from the initial one by 255 turns of one process and two arrivals, in which every hypothesis of NoStarvation holds but the queued process of priority 5 is never selected, however many dequeues follow |
| `SchedRingRun.OverrunDuplicates` | kernel/sched.c:380-394 | A dequeue that is not exact can leave one entry twice |
| `SchedRun.HighPriorityStarves` | kernel/sched.c:198-230 | Next to a process of any priority above 200 one at priority 200 is passed over in every dequeue, forever: the limit in NoStarvation is exact |
| `ProcTable.ScanCoversSlots` | kernel/proc.c:121-146 | Below 2^31 the 256 candidates of one scan visit every slot |
| `ProcTable.ScanCompleteBelowHalf` | kernel/proc.c:121-146 | There the scan fails exactly on a full table |
| `ProcTable.ScanResult` | kernel/proc.c:121-146 | There it returns the next PID whose slot is unused and moves the counter past it |
| `ProcTable.SlotShared` | kernel/proc.c:107-114 | Two PIDs share a slot exactly when they agree modulo 256 |
| `ProcTable.LivePidsDistinct` | kernel/proc.c:107-114 | Live processes, each in its own PID's slot, have distinct PIDs |
| `ProcTable.LookupNamesIffAlive` | kernel/proc.c:608-620 | A lookup finds the process of that id exactly when it is alive |
| `ProcTable.StaleLookup` | kernel/proc.c:608-620 | The lookup does not compare ids: 258 finds the process with id 2 |
| `ProcTable.Processes.constructor` | kernel/proc.c:232-286 | Only the kernel process is live |
| `ProcTable.Processes.AllocatePid` | kernel/proc.c:121-146 | The first free candidate of 256, or none |
| `ProcTable.Processes.FindUnusedSlot` | kernel/proc.c:152-159 | The lowest unused slot |
| `ProcTable.Processes.Spawn` | kernel/proc.c:306-438 | Succeeds exactly when a slot is unused and the stack can be allocated, with a PID no live process has, in its own slot |
| `ProcTable.Processes.Cleanup` | kernel/proc.c:183-220 | Only the slot's process goes; both counts follow |
| `ProcTable.Processes.Exit` | kernel/proc.c:449-507 | The current process goes, its waiting parent becomes ready, no other slot changes |
| `ProcTable.Processes.Kill` | kernel/proc.c:518-547 | The status and the table of the specified kill: exactly the process in the PID's slot goes |
| `ProcTable.KernelSurvivesIff` | kernel/proc.c:518-547 | A kill leaves the kernel live exactly when it is refused or the PID is not 1 modulo 256 |
| `ProcTable.KillTakesKernel` | kernel/proc.c:518-547 | Killing PID 257 clears the kernel's slot |
| `Ring64.Append` | kernel/ipc.c:209-223 | Writing behind the last element of a 64-slot ring appends |
| `Ring64.DropFirst` | kernel/ipc.c:228-238 | Advancing the head drops the first element |
| `IpcQueues.TakeOldest` | kernel/ipc.c:450-465 | Taking a sender's oldest message takes the first of that sender's and none of another's |
| `IpcQueues.ArrivesBalanced` | kernel/ipc.c:209-223 | An arrival keeps the ledger balanced: nothing lost or duplicated, each sender in order |
| `IpcQueues.LeavesBalanced` | kernel/ipc.c:268-286 | So does a filtered delivery |
| `IpcQueues.IpcQueue.Enqueue` | kernel/ipc.c:209-223 | Appends, or drops and counts the drop when 64 are pending |
| `IpcQueues.IpcQueue.Find` | kernel/ipc.c:451-473 | The index of the oldest message the filter accepts |
| `IpcQueues.IpcQueue.ShiftDown` | kernel/ipc.c:276-280 | The shift loop closes the gap |
| `IpcQueues.IpcQueue.Remove` | kernel/ipc.c:268-286 | Deletes exactly the message at a logical index, the others in order |
| `IpcQueues.IpcQueue.Receive` | kernel/ipc.c:436-500 | Receives the oldest accepted message, or nothing exactly when none is accepted |
| `IpcKernel.Conservation` | kernel/ipc.c:209-286 | Total enqueued equals total received plus pending, over all queues |
| `IpcKernel.PendingInOrder` | kernel/ipc.c:179-182 | Until the id counter wraps, pending ids strictly increase and all messages are meant for the process |
| `IpcKernel.IssueKeeps` | kernel/ipc.c:179-182 | A number taken from the counter is new to every queue |
| `IpcKernel.SpreadExact` | kernel/ipc.c:638-676 | A broadcast reaches exactly the live agents other than the sender with room; no other queue changes |
| `IpcKernel.Ipc.Send` | kernel/ipc.c:333-417 | The outcome of every check; on success exactly the target's queue gains exactly this message and the target is woken |
| `IpcKernel.Ipc.Recv` | kernel/ipc.c:436-515 | One receive attempt: the oldest accepted message cut to the buffer, else timeout or blocking |
| `IpcKernel.Ipc.CopyToAll` | kernel/ipc.c:638-676 | The broadcast loop |
| `IpcKernel.Ipc.Broadcast` | kernel/ipc.c:610-694 | One numbered copy for each listening agent with room, idle ones woken |
| `IpcKernel.Ipc.constructor` | kernel/ipc.c:296-311 | All queues empty, counter at 0 |
| `A2aSpec.DelegationIdsDistinct` | agent/a2a.c:657-697 | Until the id counter wraps, tracked delegation ids are distinct across all agents |
| `A2aSpec.TrackerIsIssuer` | agent/a2a.c:754-772 | Whoever tracks a delegation id issued it |
| `A2aSpec.FlowPush` | agent/a2a.c:115-127 | After a delivery every allocated message is in exactly one inbox, once, with its contents, and the received count balances |
| `A2aSpec.FlowPop` | agent/a2a.c:138-149 | The same after a receive |
| `A2aSpec.ReceiveKeeps` | agent/a2a.c:115-127 | A delivery keeps, for every agent, what arrived equal to what it took followed by what waits |
| `A2aSpec.TakeKeeps` | agent/a2a.c:138-149 | So does taking the oldest message |
| `AgentRuntime.Runtime.FirstInFirstOut` | agent/a2a.c:115-149 | In every state of the runtime each agent has taken the messages delivered to it in the order of delivery, each once, and the rest wait in its inbox |
| `MsgPools.MsgPool.Alloc` | agent/a2a.c:39-57 | A message not allocated before: lowest free slot, else heap, NULL only when both fail |
| `MsgPools.MsgPool.Free` | agent/a2a.c:63-87 | Exactly the given message is no longer allocated |
| `MsgPools.MsgPool.Write` | agent/a2a.c:228-242 | Only the given message changes |
| `AgentSlots.AgentSlot.Enqueue` | agent/a2a.c:115-127 | Appends to the inbox ring, or refuses at 64 |
| `AgentSlots.AgentSlot.Dequeue` | agent/a2a.c:138-149 | Takes the oldest entry out |
| `AgentRuntime.Runtime.GenerateId` | agent/a2a.c:93-99 | The next id in the cycle 1 to 2^32 - 1 |
| `AgentRuntime.Runtime.Post` | agent/a2a.c:219-250 | Allocate, number, deliver; give the message back when the inbox is full |
| `AgentRuntime.Runtime.Deliver` | agent/a2a.c:219-261 | The same, counted as sent: sent equals received |
| `AgentRuntime.Runtime.Send` | agent/a2a.c:180-272 | The outcome of every check; on success exactly the target's inbox gains exactly the message |
| `AgentRuntime.Runtime.CheckSend` | agent/a2a.c:190-217 | The checks of a send in their order |
| `AgentRuntime.Runtime.Recv` | agent/a2a.c:287-322 | One attempt: the oldest message is returned, leaves the inbox, is freed and recorded as taken; timeout exactly on an empty inbox |
| `AgentRuntime.Runtime.SendReply` | agent/a2a.c:512-596 | The original's sender receives the answer, which names it, with its deadline, priority and topic |
| `AgentRuntime.Runtime.SendTask` | agent/a2a.c:618-721 | The worker receives the task and the delegator tracks its id, at most 16 |
| `AgentRuntime.Runtime.Track` | agent/a2a.c:680-697 | The delegator records exactly the new delegation |
| `AgentRuntime.Runtime.FindDelegation` | agent/a2a.c:754-772 | The first active agent tracking the id |
| `AgentRuntime.Runtime.SendResult` | agent/a2a.c:730-825 | The result goes to the first tracker, until the wrap the issuer, and names the delegation; it is closed even if delivery fails |
| `AgentRuntime.SpreadExact` | agent/a2a.c:428-475 | With allocation succeeding, each active non-sender subscriber with room gets exactly one copy and no one else anything |
| `AgentRuntime.Runtime.CopyToAll` | agent/a2a.c:428-475 | The broadcast loop over a duplicate-free list; a copy is only missing if a heap request failed |
| `AgentRuntime.Runtime.Broadcast` | agent/a2a.c:385-490 | Checks, topic lookup and delivery to the topic's subscribers |
| `A2aSpec.NothingLeaks` | agent/agent.c:256-300 | With no agent left, no message is allocated |
| `A2aSpec.FlowDrain` | agent/agent.c:127-135 | Emptying one inbox frees exactly its messages |
| `AgentSlots.AgentSlot.Drain` | agent/agent.c:127-152 | Every message of the inbox is given back and the slot cleared |
| `AgentRuntime.Runtime.SlotById` | agent/agent.c:38-57 | An id finds its slot exactly when the agent is active |
| `AgentRuntime.Runtime.AllocId` | agent/agent.c:86-94 | The lowest free id bit |
| `AgentRuntime.Runtime.Cleanup` | agent/agent.c:109-152 | The agent is gone, its messages freed, its id released |
| `AgentRuntime.Runtime.Init` | agent/agent.c:185-246 | No agents, topics or messages, statistics at 0, ids from 1, and the agent limit of the configuration but at most 64 |
| `AgentRuntime.Runtime.Shutdown` | agent/agent.c:256-300 | All agents and topics gone, statistics at 0 and no message left allocated; nothing happens before initialisation |
| `AgentRuntime.Runtime.Spawn` | agent/agent.c:315-443 | Succeeds exactly below the agent limit with a free id and memory; the lowest free id from 5 up; nothing else changes |
| `AgentRuntime.Runtime.Terminate` | agent/agent.c:453-484 | Exactly the agent goes |
| `Topics.SubscriptionReachesIff` | agent/discovery.c:68-96 | After a subscription a broadcast to that name reaches the agent exactly when the name has at most 31 characters |
| `Topics.LongNamesUnknown` | agent/discovery.c:46-58 | A longer name is never found |
| `Topics.SubscribeKeepsOk` | agent/discovery.c:480-526 | No duplicate subscribers, and no duplicate names while subscribed names have at most 31 characters |
| `Topics.SubscribeExact` | agent/discovery.c:480-526 | Only the topic's own list changes: the agent is added once, at the end |
| `Topics.UnsubscribeExact` | agent/discovery.c:537-571 | Only the topic's own list changes: the agent is removed |
| `Topics.UnsubscribeKeepsOk` | agent/discovery.c:537-571 | Lists stay free of duplicates |
| `Topics.UnsubscribeUndoes` | agent/discovery.c:537-571 | Unsubscribing undoes a new subscription, for every topic |
| `Topics.TopicTable.FindByName` | agent/discovery.c:46-58 | The first topic of that name |
| `Topics.TopicTable.FindOrCreate` | agent/discovery.c:68-96 | The first topic of that name, a new one with the cut name if there is none and room for it |
| `Topics.TopicTable.Subscribe` | agent/discovery.c:480-526 | The table and status of the specified subscription |
| `Topics.TopicTable.Unsubscribe` | agent/discovery.c:537-571 | The table and status of the specified removal, by the shift loop |
| `PageSpec.PagesForExactIff` | hal/arch/native/hal_native.c:267-271 | The computed page count is right exactly when it fits an int |
| `PageSpec.HugeRequestIsOnePage` | hal/arch/native/hal_native.c:267-271 | A request for 2^44 + 4096 bytes is taken for one page |
| `PageSpec.AllocKeeps` | hal/arch/native/hal_native.c:267-296 | A first-fit allocation keeps live extents disjoint and conserves pages |
| `PageSpec.FreeKeeps` | hal/arch/native/hal_native.c:298-308 | So does freeing a live extent |
| `PageSpec.RunsKeep` | hal/arch/native/hal_native.c:267-308 | So does every run of allocations and matching frees |
| `PhysMem.SetOneBit` | hal/arch/native/hal_native.c:66-69 | Setting a bit of a byte sets that bit and no other |
| `PhysMem.ClearOneBit` | hal/arch/native/hal_native.c:71-74 | Clearing a bit clears that bit and no other |
| `PhysMem.FreeUndoesAlloc` | hal/arch/native/hal_native.c:267-308 | Freeing what an allocation returned restores the bitmap |
| `PhysMem.PageMap.constructor` | hal/arch/native/hal_native.c:245-250 | Only page 0 is in use |
| `PhysMem.PageMap.FreeBytes` | hal/arch/native/hal_native.c:257-265 | The free byte count |
| `PhysMem.PageMap.FindRun` | hal/arch/native/hal_native.c:273-287 | The lowest run of free pages at or above page 1, none exactly when there is none |
| `PhysMem.PageMap.AllocPhys` | hal/arch/native/hal_native.c:267-296 | Complete first fit for a positive page count; 2^64 - 4096 and no change otherwise |
| `PhysMem.PageMap.FreePhys` | hal/arch/native/hal_native.c:298-308 | Exactly the pages of the range inside memory become free |
| `VmMachine.Vm.Push` | vm/vm.c:121-129 | Stack push, or overflow error with nothing pushed |
| `VmMachine.Vm.Pop` | vm/vm.c:132-140 | Pops what was last pushed, or underflow |
| `VmMachine.Vm.PushCall` | vm/vm.c:143-151 | Return address push, at most 256 |
| `VmMachine.Vm.PopCall` | vm/vm.c:154-162 | Return address pop |
| `VmMachine.Vm.Step` | vm/vm.c:494-1708 | Whatever the instruction and whatever it computes: register 0 is zero, stack pointer and call depth in bounds, the active region valid; one cycle is counted; where the program counter goes, and that only calls and returns change return addresses and only region operations change regions |
| `VmMachine.Vm.Run` | vm/vm.c:1714-1732 | For any program the instructions of the first n rounds are bounded by the cycles left of the budget, plus one full budget and one for each profile start executed |
| `VmMachine.RunStops` | vm/vm.c:1714-1732 | A run in which no executed instruction starts a profile is over, after no more instructions than there are cycles left of the budget |
| `VmMachine.ProfileRunsOn` | vm/vm.c:1621-1626 | A program that starts profiles runs on for any number of instructions with a cycle count of at most 1 |
| `VmMachine.Vm.Stack` | vm/vm.c:1177-1330 | What each push, pop, duplicate, swap, flag and stack pointer instruction does to the operand stack |
| `VmMachine.Vm.PushAll` | vm/vm.c:1253-1261 | Registers 1 to 15 on the stack, in order, or overflow |
| `VmMachine.Vm.PopAll` | vm/vm.c:1263-1273 | Registers 1 to 15 from the stack |
| `VmMachine.Vm.Leave` | vm/vm.c:1241-1251 | Leaves the arrays exactly when the frame pointer is beyond the stack; otherwise restores it and the base pointer from the two words below it |
| `VmMachine.Vm.Compute` | vm/vm.c:608-776 | Which computations fail: division by zero, and the one overflowing division; otherwise exactly the destination register changes |
| `VmMachine.Vm.Jump` | vm/vm.c:868-950 | Which jumps are taken, by the flags; LOOP counts down and jumps while the count is not used up |
| `VmMachine.Vm.Call` | vm/vm.c:1337-1448 | The immediate call pushes the return address and the plain return pops it and goes there, or halts without one |
| `Bits.Clz` | vm/vm.c:194-204 | The six steps count all leading zeros |
| `Bits.Ctz` | vm/vm.c:207-217 | The six steps count all trailing zeros |
| `Bits.BswapReverses` | vm/vm.c:228-233 | Byte k of the result is byte 7 - k |
| `Bits.BswapInvolution` | vm/vm.c:228-233 | Byte swap is its own inverse |
| `PopCount.Popcount` | vm/vm.c:220-225 | The masked additions and the product count all ones |
| `PopCount.Ones64` | vm/vm.c:220-225 | The byte counts add up to the ones of the word |
| `Rotate.RotLIsSteps` | vm/vm.c:236-239 | The union of the two shifted words is n rotations to the left by one place |
| `Rotate.RotRIsSteps` | vm/vm.c:242-245 | The union of the two shifted words is n rotations to the right by one place |
| `Rotate.RotRUndoesRotL` | vm/vm.c:236-245 | Rotating right undoes rotating left, for every word and count |
| `VmMachine.Vm.RegionCreate` | vm/region.c:62-106 | The lowest free slot, active if it is the first; fails exactly without a slot or memory |
| `VmMachine.Vm.RegionDestroy` | vm/region.c:132-164 | Exactly that region goes; destroying the active one activates the lowest other |
| `VmMachine.Vm.RegionSetActive` | vm/region.c:172-185 | Only an active region can become the active one; the base and size registers follow |
| `Sandbox.Box.CheckCpu` | agent/sandbox.c:95-106 | Violated exactly when a nonzero limit is used up |
| `Sandbox.Box.CheckMemory` | agent/sandbox.c:117-141 | Violated exactly when the sum of active region sizes, in 64 bits, exceeds a nonzero limit |
| `Sandbox.Box.CheckIo` | agent/sandbox.c:148-165 | Denied exactly without the capability or past the rate limit |
| `Sandbox.Box.Step` | agent/sandbox.c:233-324 | No instruction is executed without a tick and memory to spare; a step costs at most one tick; the ticks used never exceed the limit |
| `Sandbox.Box.Loop` | agent/sandbox.c:396-437 | The execution loop terminates, never exceeds its tick limit or step cap, and reports busy only for a waiting agent, at the limit or at the cap |
| `Sandbox.Box.Run` | agent/sandbox.c:346-448 | A run ends for every program, within its tick limit; when it reports busy the agent waits or the limit or cap is reached |

## Left out

- FIR value creation with float constants, float folding and `get_const_float`: IEEE arithmetic.
- `fir_inline_small`: it inlines nothing.
- KernelHeap.Heap: the memory map, permissions, memory types, owner tags and `flux_mem_check` are not modelled; header bytes are written with an arbitrary image.
- KernelScheduler.Scheduler: the loop of `flux_sched_run`, time slices and the statistics are not modelled; its enqueue and dequeue calls are.
- FirPasses.FirFunc.ConstantFold: requires the condition under which the loop stops, by `LoopStopsIff`, since a Dafny method must terminate.
- FirPasses.FirFunc.Optimize: requires the same at the levels that fold.
- FirPasses.FirFunc.Validate: tells zero errors from some; the number counted is not specified.
- FirPasses.FirFunc.TerminatorErrors: the same.
- FirPasses.FirFunc.TargetErrors: the same.
- IpcKernel.Ipc.Recv: one attempt under the lock; the busy-wait with a timeout is a sequence of such attempts. The send statistics of the sender's own queue and the list of past broadcasts are not kept.
- AgentRuntime.Runtime.Recv: one attempt without waiting. Descriptor names, models, timestamps, per-agent counters and the audit log are not kept; a NULL payload with a length is not modelled.
- AgentRuntime.Runtime.Broadcast: a copy is promised when heap requests succeed; otherwise the copy may be missing. Subscriptions of a terminated agent stay, as in the source, and pass to the next agent of that id.
- MsgPools.MsgPool: the allocation bitmap is one flag for each bit rather than 64-bit words; so is the agent id bitmap.
- VmMachine.Vm.Step: contents of memory regions, flags set by comparisons, trace buffer and opcode counts are not modelled; values are arbitrary.
- VmMachine.Vm.Run: the first rounds of the loop, as many as asked for, since with a budget of 0 or with profile starts it may run for ever (`ProfileRunsOn`).
- VmMachine.Vm.Compute: the computed value is arbitrary.
- VmMachine.Vm.Stack: ENTER is only known to keep the machine valid; it is not undone by LEAVE in the source.
- VmMachine.Vm.Call: indirect calls, the return that restores flags, and the handler registers are only known to keep the machine valid.
- Sandbox.Box.Loop: of the statuses other than busy it is not said which ending produced them.
- Sandbox.Box.Run: the lookup of the agent and the round-robin over agents that calls it are not modelled, nor are the statuses other than busy told apart.
- Published capabilities, capability operations, the audit log, syscalls: one-branch facts.
- The lexer and parser: zero-length tokens and a shared token buffer leave no clean round trip.
- Consoles, logging, device lists, port I/O, context switching, boot: hardware or I/O.
