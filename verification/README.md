# Verified models of the system-programming projects

Dafny models, with proofs, of the parts of the repository that carry an
invariant: the process table and the scheduler of the modified xv6 kernel, a
ticket reader/writer lock, a producer/consumer program, a slot allocator, an
infix-to-postfix rearrangement of tokens, the fields of a cron table, a paged
record file with its text format, heap sort of such a file, and the overwriting
of a page on a flash device.

Each component is a module of its own. Where the program changes state in
place, the module has a class (or a method over an array) with the program's
own fields and loops. Each of those methods is proved equal to a step of a
specification, written as functions on values, and the promises of the program
are proved about that specification: about one operation, about sequences of
operations that undo each other, and about every run from the initial state.
Concurrent programs are transition systems whose steps interleave freely.
Every lemma switches automatic induction off, so an induction is where it is
written. `dafny verify dfyconfig.toml` checks the whole project.

| file | what it models |
|---|---|
| ProcTable.dfy | the table operations of `proc.c` and the timer branch of `trap.c`, as functions on the table and as methods over an array |
| ProcInvariant.dfy | the table as a transition system, its invariant, and the proof that every step keeps it |
| ProcRuns.dfy | what follows for every run: parent forest, wakeups, kill and set_prio, time slices |
| ProcKills.dfy | what a kill does to a slot without a process, and which forked processes start killed |
| ProcHistory.dfy | until when a process sleeps, in every run |
| ProcSlots.dfy | what the fields of a slot hold in every run: rank, number of dispatches, nice value, pids, and what fork, exit, wait and kill leave |
| Scheduler.dfy | the round-robin scan on one processor and its starvation bound |
| TicketLock.dfy | the lock, with a writer's ticket and announcement one step; its deadlock |
| TicketSplit.dfy | the same lock with every update of a counter its own step; the weakest guard that keeps it exclusive |
| MasterWorker.dfy | masters, workers, the buffer and the two condition variables |
| SlotAlloc.dfy | first-fit allocation over 512 slots |
| Postfix.dfy, PostfixLists.dfy | the rearrangement as a stack machine, and the same on linked lists relinked in place |
| PostfixOrder.dfy | in what order operators, operands and brackets come out of it |
| Common.dfy | an optional value, and facts about sequences of anything |
| CStrings.dfy | `strtok` and copying, on texts and in place |
| Cron.dfy | the checker and the evaluator of cron terms, and the terms of the manual |
| CronLists.dfy | comma lists in the evaluator, where all calls of `strtok` share one place |
| CronTerms.dfy | what the terms of a comma list are, and what checker and evaluator make of a list of terms of the manual |
| Pack.dfy, RecordSlots.dfy | pack/unpack, the bytes of a slot of the record file, and what unpack makes of them |
| RecordFile.dfy, RecordStore.dfy | insert and delete with the list of deleted slots, as functions on the file and as methods over its pages |
| RecordRuns.dfy | what holds in every run of the record program, and three runs that do not go as one would think |
| HeapSort.dfy | heapify, building the heap, writing the sorted pages |
| Flash.dfy | page and block operations, and every single write of a page overwrite |

Some expectations turn out false of the code. Each is a pair of statements
here: what the code does, and exactly when that is what was expected.

- The lock stays exclusive exactly as long as no reader slips in past a writer
  that has its ticket but has not announced itself (`TicketSplit`), and it
  deadlocks exactly when a reader was overtaken by a waiting writer
  (`TicketLock`).
- The buffer bound of the producer/consumer program holds in every run exactly
  when there is no master, no worker, at most twice the buffer to produce, or
  one master and a buffer of at least one (`MasterWorker`).
- A page overwrite touches nothing else exactly when the page or some block is
  erased, or nothing was there to lose; and so for any sequence of writes
  (`Flash`).
- A deletion comes to its end exactly when every slot up to the first that
  bears the number, or to the end of the file, can be read; a slot cannot if it
  was never written, if it is deleted and not the oldest such, or if it has less
  than six fields, as a record with two empty fields in a new slot does
  (`RecordFile`). Three
  records with long numbers, deleted in the order they came in, stop the program
  at the third (`RecordRuns`). A slot bears the number of its record exactly if
  that number is plain (`RecordSlots`).
- The list of deleted slots stays a list exactly as long as no deletion finds
  its number in the oldest of them, before any record (`RecordRuns`).
- A deletion undoes an insertion exactly when the insertion reused a slot and
  the scan gets to it and finds the number there, and an insertion undoes a
  deletion to the last byte exactly when nothing of the mark stays behind the
  record (`RecordFile`). unpack undoes pack exactly for non-empty fields without
  `#` (`Pack`).
- Infix text with binary operators always becomes well-formed postfix, whatever
  their labels; with unary ones exactly when no prefix operator makes another
  operator give way too early. As every `+` and `-` behind an operand is labelled
  a prefix operator, `a + -b` is a text for which it does (`Postfix`).
- The sort command ends, with every record in the sorted file, exactly for odd
  record counts (`HeapSort`).
- An accepted cron term fires as the manual says exactly when it is not the
  number 0 and has no step of two digits, which overflows a buffer (`Cron`); a
  list is decided by its first term that is not 0, and only if that one fires
  (`CronLists`).
- A forked process starts out killed exactly when a kill has struck its slot
  since the slot was last reaped, as `kill(0)` does to a slot never used
  (`ProcKills`). The number of switches that get_proc_info reports and the nice
  value are those of the slot, whatever processes it has held (`ProcSlots`).
- Of two neighbouring operators outside brackets the first comes out first
  exactly when the second has at least its number; but only one gives way at a
  time, so what follows a stronger second operator comes out before the first,
  also when its number is larger still (`PostfixOrder`).

## Model

| member | source | states |
|---|---|---|
| ProcTable.Kernel.constructor | Project2/proc.c:236-270 | the table after userinit: init alone, runnable, pid 1, all other slots free |
| ProcTable.Kernel.AllocProc | Project2/proc.c:190-232 | takes the first unused slot, gives it the next pid and marks it EMBRYO; changes nothing without one |
| ProcTable.Kernel.Fork | Project2/proc.c:297-338 | the three outcomes of fork: no slot, an allocation failing after the pid was given, or a runnable child whose parent is the caller |
| ProcTable.Kernel.Wakeup1 | Project2/proc.c:609-616 | one call of wakeup1 is `WakeAll` of the table, on which ProcHistory.WakeupWakesAllSleepers says who is woken |
| ProcTable.Kernel.Exit | Project2/proc.c:344-384 | wakes the parent, hands every child to init, wakes init if one of them is a zombie, and becomes a zombie |
| ProcTable.Kernel.WaitScan | Project2/proc.c:389-428 | reaps the first zombie child in table order, or fails without children or when killed, or sleeps on its own channel |
| ProcTable.Kernel.Kill | Project2/proc.c:631-648 | marks the first slot with the pid, whatever its state, and wakes it if it sleeps |
| ProcTable.Kernel.Tick | Project2/trap.c:105-108 | counts the tick and yields exactly when the old count equals prio |
| ProcTable.Kernel.Check | Project2/proc.c:439-461 | one more than the number of slots in use whose nice value is smaller |
| ProcTable.Kernel.Switch | Project2/proc.c:479-495 | the dispatch of a runnable slot, on whose fields ProcSlots.DispatchRanksAmongTheLive says what they become |
| ProcTable.Kernel.SetPrio | Project2/proc.c:48-74 | rejects values up to 0, otherwise sets the nice value of the slots with the caller's pid |
| ProcTable.Kernel.GetMaxPid | Project2/proc.c:77-90 | an upper bound of all live pids that some live slot has, or 0 |
| ProcTable.Kernel.GetProcInfo | Project2/proc.c:93-122 | for the last slot in use with the pid its ppid and number of switches, and without one -1 and nothing filled in |
| ProcTable.Kernel.GetNumProc | Project2/proc.c:125-137 | the number of slots that are not UNUSED |
| ProcInvariant.InvStep | Project2/proc.c:190-648 | every step of every process keeps the invariant: distinct pids below nextpid, parents up and older, no forgotten waiter, slices within rank |
| ProcInvariant.ForkAllocInv | Project2/proc.c:190-208 | taking a slot keeps the invariant, also while other forks are under way |
| ProcInvariant.ForkRestInv | Project2/proc.c:211-338 | so do the other three steps of a fork: failing, linking to the parent, becoming runnable |
| ProcInvariant.ExitInv | Project2/proc.c:344-384 | so does exit with its reparenting and wakeups |
| ProcInvariant.ReapInv | Project2/proc.c:403-416 | so does reaping: nobody still has the reaped slot for a parent |
| ProcInvariant.SleepInWaitInv | Project2/proc.c:419-426 | so does going to sleep in wait, which happens only with a child and without a zombie child |
| ProcRuns.InvAlongRun | Project2/proc.c:190-648 | the invariant holds in every state of every run |
| ProcRuns.ParentsAreUpAndOlder | Project2/proc.c:190-232 | in every run live pids are unique, nonzero and below nextpid, and every live process but init has a parent that is up and has a smaller pid |
| ProcRuns.EveryChainEndsAtInit | Project2/proc.c:297-384 | in every run the chain of parents of a live process ends at init |
| ProcRuns.NoLostWakeup | Project2/proc.c:389-428 | in every run a process asleep in wait has a child, no zombie child and no pending kill |
| ProcRuns.OnlyWaitersSleepOnProcesses | Project2/proc.c:569-603 | a process channel is slept on by its own process only |
| ProcHistory.WakeupWakesAllSleepers | Project2/proc.c:609-626 | in every run a wakeup on a channel makes every process asleep there runnable and changes nothing else, so that nobody sleeps there after it |
| ProcHistory.SleepsExactlyUntilWokenOrKilled | Project2/proc.c:569-648 | in every run a process that goes to sleep on a channel is asleep all the time up to a later step exactly when no wakeup on that channel and no kill with its pid has come; the first to come makes it runnable |
| ProcHistory.WaitsExactlyUntilAChildExits | Project2/proc.c:344-428 | in every run a process asleep in wait is asleep there up to a later step exactly when no child of its own has exited, no kill with its pid has come and, if it is init, no exit has left it a zombie; the first to come makes it runnable |
| ProcRuns.SetPrioChangesOnlyTheCaller | Project2/proc.c:48-74 | although it searches by pid, set_prio changes one slot, the caller's |
| ProcRuns.KillStrikesTheLiveProcess | Project2/proc.c:631-648 | kill strikes the live process with the pid and no other slot; it succeeds without one exactly when it hits a free slot |
| ProcSlots.KillMarksTheFirst | Project2/proc.c:631-648 | in every run a kill marks the first slot with the pid, makes it runnable if it slept, and changes no other slot |
| ProcSlots.AllocationGivesTheNextPid | Project2/proc.c:190-208 | in every run an allocation takes the first free slot, gives it the next pid and changes nothing else; without one it changes nothing |
| ProcSlots.NextPidCountsAllocations | Project2/proc.c:206 | in every run nextpid is 2 plus the number of allocations that found a slot |
| ProcSlots.LinkedChild | Project2/proc.c:307-320 | in every run fork gives its child the caller for parent and the caller's pid for ppid |
| ProcSlots.ForkEnds | Project2/proc.c:211-338 | in every run a fork that goes through makes its child runnable, and one that fails leaves a free slot that still carries the pid |
| ProcSlots.PpidIsTheForkersPid | Project2/proc.c:307 | in every run ppid stays the pid of the process that forked it for as long as the child is in the table, also when init has become its parent |
| ProcSlots.ExitHandsOver | Project2/proc.c:344-384 | in every run an exit leaves a zombie, gives all its children to init, and wakes its parent if that is in wait, and init if that is in wait and one of the children is a zombie; nothing else changes |
| ProcSlots.WaitReturnsTheReapedPid | Project2/proc.c:403-416 | in every run a wait with a zombie child returns the pid of the first and frees its slot, and from then on no slot ever has that pid again |
| ProcSlots.WaitWithoutZombie | Project2/proc.c:419-426 | without one it fails exactly when there is no child or the caller is killed, and otherwise sleeps on itself |
| ProcKills.CleanStepExactlyWhen | Project2/proc.c:190-648 | if no slot without a running process is marked as killed, a step leaves it so exactly when it is not a kill whose first slot with the pid is UNUSED or EMBRYO |
| ProcKills.CleanRunExactlyWhen | Project2/proc.c:190-648 | a run is clean throughout exactly when it has no such kill |
| ProcKills.FreeSlotIsKilledExactlyWhen | Project2/proc.c:403-416 | in every run an UNUSED or EMBRYO slot is marked as killed exactly when a kill has struck it since it was last reaped |
| ProcKills.ChildStartsKilledExactlyWhen | Project2/proc.c:297-338 | in every run, a process that fork makes runnable starts killed exactly when a kill has struck its slot since the slot was last reaped, or since boot |
| ProcKills.KillZeroPoisonsTheNextFork | Project2/proc.c:636-643 | a run in which kill(0) strikes a slot never used and the next process forked there has been killed before it ran |
| ProcRuns.SliceKept | Project2/trap.c:105-108 | no step but its own tick or block changes a running process's slice |
| ProcRuns.SliceSpent | Project2/trap.c:105-108 | until the ticks exceed its rank, a process that does not block is running and its count is the ticks since dispatch |
| ProcRuns.YieldsAtExactlyItsLastTick | Project2/trap.c:105-108 | a process that does not block is preempted at exactly tick prio + 1 of its slice, and 1 <= prio <= NPROC |
| ProcSlots.DispatchRanksAmongTheLive | Project2/proc.c:439-495 | at every dispatch of every run a nice value 0 becomes 1, and prio is one more than the number of other slots in use with a smaller nice value, so at most the number of slots in use |
| ProcSlots.AloneYieldsAtItsSecondTick | Project2/trap.c:105-108 | a process alone in the table when dispatched, if it does not block, is preempted at its second tick |
| ProcSlots.CountAndNiceStayWithTheSlot | Project2/proc.c:482-494 | in every run the switches counted in a slot are all dispatches of that slot, and its nice value is the last one set there, whatever processes it has held |
| ProcSlots.InfoIsOfTheSlot | Project2/proc.c:93-122 | so what get_proc_info finds for a process in use is its own slot, with the switches of all processes that slot has held |
| ProcRuns.NicerRanksLater | Project2/proc.c:439-461 | of two live processes ranked in one table, the one with the higher nice value gets the strictly longer slice |
| Scheduler.CpuInvAlongRun | Project2/proc.c:464-506 | on one processor, nobody runs but the process at the scan's slot, in every run |
| Scheduler.BudgetStep | Project2/proc.c:479-502 | no step raises, and every tick lowers, the number of ticks that can pass before a runnable slot is dispatched |
| Scheduler.RunnableSlotIsNotStarved | Project2/proc.c:464-506 | while a slot stays RUNNABLE the scan passes at most NPROC-1 others, and at most (NPROC-1)*(NPROC+1) ticks go to them |
| Scheduler.ReachedSlotIsDispatched | Project2/proc.c:479-495 | once that budget is used up, the only step of the scheduler is to dispatch the slot |
| TicketLock.RwLock.constructor | Project3/thread2/rw_lock-w-test.c:3-10 | all counters zero and nobody in the lock |
| TicketLock.RwLock.ReaderArrive | Project3/thread2/rw_lock-w-test.c:15 | the reader takes the next ticket |
| TicketLock.RwLock.ReaderPoll | Project3/thread2/rw_lock-w-test.c:17-26 | one test of the reader's loop: goes in exactly when w_wait is 0 |
| TicketLock.RwLock.ReaderUnlock | Project3/thread2/rw_lock-w-test.c:29-33 | one more release |
| TicketLock.RwLock.WriterArrive | Project3/thread2/rw_lock-w-test.c:38-40 | ticket and announcement, in one step |
| TicketLock.RwLock.WriterPoll | Project3/thread2/rw_lock-w-test.c:42-50 | one test of the writer's loop: goes in exactly at its own ticket |
| TicketLock.RwLock.WriterUnlock | Project3/thread2/rw_lock-w-test.c:53-58 | one more release, one writer fewer, in one step |
| TicketLock.LineMeetsWriter | Project3/thread2/rw_lock-w-test.c:45 | the counting argument: line never passes a live writer's ticket, and where it meets it the live tickets are exactly those from it on |
| TicketLock.InvStep | Project3/thread2/rw_lock-w-test.c:12-58 | every step of every thread keeps the invariant |
| TicketLock.WriterExcludesAll | Project3/thread2/rw_lock-w-test.c:12-58 | in every run, with any number of threads, a writer inside is alone |
| TicketLock.ReleasedTicketsAreExactlyTheEarlierOnes | Project3/thread2/rw_lock-w-test.c:45 | when line equals a writer's ticket the released tickets are 0..num-1 |
| TicketLock.LaterTicketEntersOnlyAfterWriterLeft | Project3/thread2/rw_lock-w-test.c:12-58 | whoever has a later ticket than a writer is inside only after that writer has left: ticket order among writers, and readers behind a writer wait |
| TicketLock.ArrivalBehindWriterGetsLaterTicket | Project3/thread2/rw_lock-w-test.c:15-40 | whoever arrives while a writer is in the lock gets a later ticket than that writer |
| TicketLock.ReaderGoesInExactlyWhenNoWriter | Project3/thread2/rw_lock-w-test.c:17-25 | in every run a waiting reader's test lets it in exactly when no writer is in its call |
| TicketLock.WriterGoesInExactlyWhenFirst | Project3/thread2/rw_lock-w-test.c:42-50 | in every run a waiting writer's test lets it in exactly when everybody else in a call has a later ticket |
| TicketLock.StuckExactlyWhenReaderIsOvertaken | Project3/thread2/rw_lock-w-test.c:17-50 | in every run, all open calls wait for ever exactly when nobody is inside, a writer waits, and a reader has an earlier ticket than every waiting writer |
| TicketLock.StuckForever | Project3/thread2/rw_lock-w-test.c:17-50 | such a state is never left |
| TicketLock.StuckIsReachable | Project3/thread2/rw_lock-w-test.c:15-50 | two threads reach it |
| TicketSplit.SplitStepKeepsInvExactlyWhen | Project3/thread2/rw_lock-w-test.c:38-57 | with every counter update its own step, a step keeps the lock's invariant exactly when it lets no reader past an unannounced earlier writer |
| TicketSplit.SafeExactlyWhenNotOvertaking | Project3/thread2/rw_lock-w-test.c:12-58 | after a step, a writer inside is alone in every state that further steps without overtaking can lead to, exactly when the step itself did not overtake: the weakest guard that keeps exclusion |
| TicketSplit.FirstOvertakingBreaksExclusion | Project3/thread2/rw_lock-w-test.c:12-58 | the first overtaking of any run can be followed, by threads already in the lock, by a writer going in beside somebody else |
| TicketSplit.SplitWriterExcludesAll | Project3/thread2/rw_lock-w-test.c:12-58 | in every run up to its first overtaking, a writer inside is alone |
| TicketSplit.OvertakingBreaksExclusion | Project3/thread2/rw_lock-w-test.c:38-45 | a run of two threads in five steps where it breaks |
| MasterWorker.Shared.constructor | Project3/thread1/master-worker.c:117-135 | nothing produced, an empty buffer, all threads about to start |
| MasterWorker.Shared.ProduceItem | Project3/thread1/master-worker.c:53-55 | stores the next item behind the others and counts it; in a full buffer the store runs past the end |
| MasterWorker.Shared.EnterMaster | Project3/thread1/master-worker.c:39-57 | a master's critical section up to its release or its wait, with the signal it sends |
| MasterWorker.Shared.ResumeMaster | Project3/thread1/master-worker.c:49-57 | the section after the wait, without a second test of the bound |
| MasterWorker.Shared.DrainBuffer | Project3/thread1/master-worker.c:80-86 | prints everything in the buffer from the front and leaves it empty |
| MasterWorker.Shared.ResumeWorker | Project3/thread1/master-worker.c:74-100 | a worker's section after its wait: leaves, or drains, signals and goes on or leaves |
| MasterWorker.EveryItemOnceInOrder | Project3/thread1/master-worker.c:33-106 | in every run with any number of threads the items consumed and then those in the buffer are 0, 1, 2, ... in order, and once a worker has left all total_items have been consumed exactly once |
| MasterWorker.LeavingWorkerSendsItsSignals | Project3/thread1/master-worker.c:77-105 | in every run, a worker that leaves sends one signal to the workers if it found the buffer empty and two if it drained it, and last one to the masters; each wakes one that waits if there is one, and the worker does nothing else and is done exactly when all are sent |
| MasterWorker.ResumedWorker | Project3/thread1/master-worker.c:77-100 | after its wait a worker leaves exactly when there is nothing left to produce; if there is anything to drain or to produce, it prints the buffer and wakes a master |
| MasterWorker.EnteringMaster | Project3/thread1/master-worker.c:39-50 | a master leaves exactly when there is nothing left to produce and waits exactly when there is and the buffer is full; either way it wakes a worker that waits if there is one, and only then |
| MasterWorker.MasterLeaves | Project3/thread1/master-worker.c:61 | a leaving master sends one more signal to the workers and is done |
| MasterWorker.BufferHoldsExactlyWhenRoomy | Project3/thread1/master-worker.c:47-53 | no run stores past the buffer exactly when there is no master, no worker, at most 2 * max_buf_size items, or one master and room for one item |
| MasterWorker.RoomyRunHolds | Project3/thread1/master-worker.c:47-53 | in those configurations no run does |
| MasterWorker.OverrunRun | Project3/thread1/master-worker.c:47-53 | in every other configuration, a run that does |
| SlotAlloc.Allocator.constructor | Project4/alloc/test_alloc.c:21-50 | 512 free slots, no request yet |
| SlotAlloc.Allocator.AllocBytes | Project4/alloc/test_alloc.c:58-98 | the scan with its flag and size returns the leftmost fit and marks it with the new section, or returns null; the request is counted in any case |
| SlotAlloc.Allocator.DeallocAt | Project4/alloc/test_alloc.c:99-116 | for a slot's address frees every slot of the section there and no other; for any other address it frees the section whose number happens to be in the variable never set |
| SlotAlloc.StrayDeallocIsHarmlessExactlyWhen | Project4/alloc/test_alloc.c:99-116 | the latter changes nothing exactly when no live block has that number |
| SlotAlloc.FirstFit | Project4/alloc/test_alloc.c:67-92 | a free run, with none before it |
| SlotAlloc.AllocSucceedsExactlyWhen | Project4/alloc/test_alloc.c:58-98 | a request succeeds exactly when it is a positive multiple of 8 and a free run of that size exists, and takes the leftmost |
| SlotAlloc.AllocMarksTheLeftmostRoom | Project4/alloc/test_alloc.c:67-92 | a / 8 slots from the leftmost place where so many are free get the number of the request and status 1, and all others keep what they hold |
| SlotAlloc.AllocTakesFreeSlots | Project4/alloc/test_alloc.c:81-88 | only free slots of the chosen run change |
| SlotAlloc.ShowsAlongRun | Project4/alloc/test_alloc.c:58-116 | in every run, returns of addresses that are no slot's included, the slots show exactly the blocks that the history leaves, each contiguous and under its own section: a return takes out the block that holds the slot, and a stray one the block whose number is in the variable never set, or none |
| SlotAlloc.LiveBlocksAreDisjoint | Project4/alloc/test_alloc.c:84-87 | no two live blocks share a slot |
| SlotAlloc.DeallocUndoesAlloc | Project4/alloc/test_alloc.c:99-116 | returning a block by any address inside it restores every slot |
| SlotAlloc.NeighboursMerge | Project4/alloc/test_alloc.c:67-116 | two adjacent blocks returned in either order leave the same slots, with room for both together at or before the first |
| Postfix.EveryNonBracketComesOutOnce | Project8/ssu_string.c:626-720 | every token that is no bracket comes out exactly once |
| Postfix.OperandsKeepTheirOrder | Project8/ssu_string.c:626-720 | operands come out in their order |
| Postfix.NothingCrossesAColon | Project8/ssu_string.c:633-640 | what stood before a ':' comes out before it, and what stood behind it behind |
| PostfixOrder.NumberDecides | Project8/ssu_string.c:695-713 | of two operators outside brackets with only operands and bracketed texts between them, the first comes out before the second, and before all that follows the second, exactly when the second has at least its number (1 behind an operand, 2 before one, otherwise by the tables); else it comes out behind both, up to a ':' or a bracket closed too many |
| PostfixOrder.OperandsComeFirst | Project8/ssu_string.c:643-713 | an operator comes out behind everything that follows it inside the same brackets, and outside brackets behind what follows it up to the next operator |
| PostfixOrder.InsideComesFirst | Project8/ssu_string.c:654-661 | what stands inside a pair of brackets comes out before all that follows the pair |
| PostfixOrder.EndedComesFirst | Project8/ssu_string.c:633-693 | what stands before a ':', or before a bracket closed outside brackets, comes out before all that follows |
| PostfixOrder.NotBothWays | Project8/ssu_string.c:626-720 | no token comes out both before and behind another |
| PostfixOrder.OpenComesOutExactlyWhen | Project8/ssu_string.c:645-674 | an opening bracket comes out exactly when it is labelled POST_OP or nothing closes it before a ':' or the end |
| PostfixOrder.CloseComesOutExactlyWhen | Project8/ssu_string.c:652-693 | a closing bracket comes out exactly when it is labelled POST_OP and stands outside brackets |
| PostfixOrder.KindsByFirstCharacter | Project8/ssu_string.c:202-235 | which tokens are operators, brackets and operands, by their first character |
| Postfix.InfixBecomesPostfixExactlyWhen | Project8/ssu_string.c:626-720 | a balanced text of operands and operators in alternation, unary operators told by their place before or behind an operand and not by their label, becomes well-formed postfix, segment by segment, ending at one value, exactly when no prefix operator outside brackets makes an operator give way that has too few values yet |
| Postfix.BinaryInfixBecomesPostfix | Project8/ssu_string.c:626-720 | with binary operators only it always does, whatever labels the operators carry |
| Postfix.FedWithoutPrefix | Project8/ssu_string.c:695-713 | without an operator where an operand is awaited, none gives way too early |
| Postfix.TwoPrefixesFail | Project8/ssu_string.c:695-713 | two prefix operators at the start of any such text fail if the first gives way to the second |
| Postfix.PrefixBehindBinaryFails | Project8/ssu_string.c:695-713 | and so do an operand, a binary operator and a prefix operator that makes it give way |
| Postfix.MinusBehindPlusFails | Project8/ssu_string.c:476-482 | such is a `-` behind a `+`, with the labels that the program gives both |
| Postfix.HeightStaysUp | Project8/ssu_string.c:626-720 | a well-formed postfix text never runs out of values on the way |
| Postfix.OpenAt | Project8/ssu_string.c:654-661 | the topmost open bracket, where the popping at a closing bracket stops |
| PostfixLists.BinaryPriority | Project8/ssu_string.c:516-575 | the chain of comparisons gives each operator between two operands its precedence in the table of C's operators, 14 for any other, and marks exactly the operators of a second table |
| PostfixLists.PopToken | Project8/ssu_string.c:590-600 | unlinks the first token of a list and leaves the rest a list |
| PostfixLists.PushToken | Project8/ssu_string.c:603-612 | links a token in front |
| PostfixLists.InsertToken | Project8/ssu_string.c:615-623 | links a token at the end |
| PostfixLists.Flush | Project8/ssu_string.c:635-637 | moves the whole operator stack to the output, top first |
| PostfixLists.FlushToOpen | Project8/ssu_string.c:654-661 | the same down to the topmost open bracket, which is dropped |
| PostfixLists.PlaceNested | Project8/ssu_string.c:641-666 | one token inside brackets: the lists and the bracket count as the machine says |
| PostfixLists.PlaceCloseTop | Project8/ssu_string.c:681-693 | a closing bracket outside |
| PostfixLists.PlaceOperator | Project8/ssu_string.c:695-713 | relinks the lists for an operator outside brackets as the machine does, of whose output PostfixOrder.NumberDecides tells the order |
| PostfixLists.PlaceTop | Project8/ssu_string.c:668-713 | one token outside brackets |
| PostfixLists.PlaceToken | Project8/ssu_string.c:631-714 | one pass of the loop relinks the lists as one step of the machine |
| PostfixLists.MakePostfix | Project8/ssu_string.c:626-720 | the output list is the very input tokens as `ToPostfix` gives them, and both other lists end empty; the order of `ToPostfix` is what PostfixOrder is about |
| CStrings.StrTokIn | Project11/person.c:84-104 | strtok in place: skips separators, finds a token and cuts it off with a NUL, or leaves the buffer alone |
| CStrings.StrTok | Project11/person.c:84-104 | strtok finds the first token, from the first character that is no separator up to the next separator or the end, and goes on behind that; without one only separators are left |
| CStrings.StrCpy | Project11/person.c:85-104 | copies up to the NUL |
| Cron.CheckerAcceptsExactlyTheAllowed | Project7/ssu_crontab.c:351-450 | a term `*`, `*/n`, `a-b`, `a-b/n` or `n` in decimal is accepted exactly when its numbers fit the field |
| Cron.EvaluatorFiresExactly | Project7/ssu_crond.c:317-387 | such a term, with a step of at least one, fires on exactly the values it stands for, but the number 0 on none, and on none if its parts do not fit the evaluator's buffers |
| Cron.FiresAsDocumentedExactlyWhen | Project7/ssu_crond.c:317-387 | so an accepted term fires as documented exactly when it is not the number 0 and its step, if it has one, is a single digit |
| Cron.AcceptedTermsAreSafe | Project7/ssu_crontab.c:351-450 | whatever text the checker accepts, the evaluator reads no missing part and ends its loop exactly if the parts fit its buffers, and it fires only inside the field |
| Cron.AcceptedRange | Project7/ssu_crontab.c:380-413 | the two numbers of an accepted range, as the evaluator reads them, are in order and in the field |
| Cron.AcceptedSlashDecides | Project7/ssu_crontab.c:414-450 | an accepted step is at least one, so its loop ends |
| Cron.AcceptedListsAreSafe | Project7/ssu_crontab.c:319-350 | the same for every term of an accepted comma list that the evaluator gets to as it was written |
| Cron.CheckAllAccepts | Project7/ssu_crontab.c:343-346 | a list is accepted exactly when all its terms are |
| Cron.FirstVerdictCounts | Project7/ssu_crontab.c:343-346 | otherwise the verdict is that on the first term not accepted |
| CronTerms.TermsAreThePieces | Project7/ssu_crontab.c:335-344 | the terms of any field are its pieces without a comma that are not empty and reach to a comma or an end on either side: all of them, each once, in order |
| CronTerms.TermsUndoJoined | Project7/ssu_crontab.c:335-344 | non-empty texts without a comma, joined by commas, come back as they were, in order, none lost |
| CronTerms.ListAcceptedExactlyWhenAllAllowed | Project7/ssu_crontab.c:318-350 | a field that lists terms of the manual, or is one, is accepted exactly when the numbers of every one fit the field |
| CronTerms.ListFiresExactly | Project7/ssu_crond.c:288-387 | the evaluator's answer on such an accepted list, from its terms: the first that is not the number 0 fires on exactly the values it stands for, stops the program if its step has two digits, and otherwise loses the place |
| CronTerms.OneTermFiresExactly | Project7/ssu_crond.c:288-387 | and on a field of one term: it fires on exactly the values the term stands for, but the number 0 on none, or stops the program |
| Cron.LoopFires | Project7/ssu_crond.c:340-354 | the loop with a positive step sets its flag exactly on the values at that step from its start |
| Cron.AtoiOfDec | Project7/ssu_crond.c:336-349 | atoi reads a decimal numeral back |
| Cron.AtoiOfNumeral | Project7/ssu_crond.c:317-387 | atoi skips white space, takes a sign, reads a decimal numeral up to the first character that is no digit |
| Cron.AtoiOfNoNumeral | Project7/ssu_crond.c:317-387 | and gives 0 where no digit comes |
| Cron.SplitTerms | Project7/ssu_crontab.c:335-344 | cuts a field into its `Terms`, which CronTerms.TermsAreThePieces tells on the characters |
| Cron.CheckTerms | Project7/ssu_crontab.c:343-346 | the loop that checks the parts stops at the first that is not right |
| Cron.GrammarCheck | Project7/ssu_crontab.c:318-350 | a whole field, as `CheckField`, on which CronTerms.ListAcceptedExactlyWhenAllAllowed says what is accepted |
| Cron.TimerLoop | Project7/ssu_crond.c:352-354 | the evaluator's loop with its flag, or that it does not end |
| Cron.RunTimer | Project7/ssu_crond.c:317-387 | the evaluator for any text, malformed or too long for its buffers, and whether it has called strtok |
| Cron.FitsExactlyWhen | Project7/ssu_crond.c:324-334 | the parts of an accepted term fit the evaluator's two buffers exactly when its step, if any, is a single digit |
| CronLists.ReachedExactlyWhenZerosBefore | Project7/ssu_crond.c:288-315 | the evaluator gets to the k-th term of a list as it was written exactly when every term before it is a number read as 0 |
| CronLists.ListIsDecidedByOneTerm | Project7/ssu_crond.c:288-315 | an accepted list stands and falls with its first term that is not 0: it fires if that term does, it is not decided if that term does not fit the buffers, and otherwise strtok loses its place there; without such a term it is quiet, and without any term the return value is never set |
| CronLists.OnlyTheFirstTermCounts | Project7/ssu_crond.c:288-315 | in a field that starts above 0, that is the first term of the list |
| CronLists.CheckList | Project7/ssu_crond.c:288-314 | the loop of token_check over the terms, up to where strtok loses its place; CronTerms.ListFiresExactly says what it answers |
| RecordStore.Store.constructor | Project11/person.c:329-332 | the header of an empty file |
| RecordStore.Store.WritePage | Project11/person.c:43-47 | replaces the two slots of a page and nothing else |
| RecordStore.Store.WriteSlot | Project11/person.c:133-135 | one slot of one page changes, by way of the page buffer |
| RecordStore.Store.InsertRecord | Project11/person.c:111-182 | pops a deleted slot, or appends a page, or fills the second half of the last one, writes the packed record over what is there, and updates the header |
| RecordStore.Store.StrikeSlot | Project11/person.c:247-271 | a star and the old head of the list over the record, and the slot as the new head |
| RecordStore.Store.DeleteFromPage | Project11/person.c:234-278 | the scan of one page, ending at a match or at a slot that cannot be unpacked |
| RecordStore.Store.DeleteRecord | Project11/person.c:187-284 | the two loops strike the first slot whose number is the one sought, or run to the end of the file, or stop at a slot that cannot be unpacked and change nothing |
| RecordSlots.BearsItsNumberExactlyWhenPlain | Project11/person.c:84-86 | a slot's first field is its record's number exactly if that is '#' signs followed by a non-empty text without, and then it is no other |
| RecordSlots.FreshFields | Project11/person.c:77-106 | a record without '#' signs in a slot never used before has as many fields as are not empty, and one more for bytes behind it |
| RecordSlots.LinksReadBack | Project11/person.c:165-169 | the page and record number that insert reads out of a deleted slot are those that delete wrote |
| RecordSlots.MarkBytes | Project11/person.c:245-256 | the bytes of a deleted slot: a star, page and record number with the lowest byte first, or eight 0xFF bytes at the end of the list, and what was behind them |
| RecordSlots.EmptyStops | Project11/person.c:77-106 | unpack stops at a slot that was never written |
| RecordSlots.InnerStops | Project11/person.c:247-253 | and at a deleted slot that points to another, because the record number in it has a zero byte |
| RecordSlots.LastReadsExactlyWhenSixLeft | Project11/person.c:247-253 | it gets through the oldest deleted slot exactly when six fields are left there |
| RecordSlots.LongNumberLeavesSix | Project11/person.c:247-253 | as they are when the record's number was long enough to take the mark |
| RecordFile.SlotReads | Project11/person.c:77-106 | what unpack makes of every slot of a lawful file: it gets through exactly the records with six fields, and the oldest deleted slot with six left, which gives a number that starts like it; a packable record comes back whole |
| RecordFile.DeleteCompletesExactlyWhen | Project11/person.c:233-282 | for every lawful file and every number: a delete comes to its end exactly when every slot up to the first that bears the number, or to the end of the file, can be read; then it strikes that slot |
| RecordFile.InsertKeepsInv | Project11/person.c:129-180 | an insert keeps the law of the file, with the first slot gone from the list of deleted ones |
| RecordFile.DeleteKeepsInv | Project11/person.c:233-282 | so does a delete that strikes no deleted slot again, with the freed slot in front |
| RecordFile.DeleteKeepsLawExactlyWhen | Project11/person.c:233-282 | a delete keeps the law exactly when the first slot that bears the number, all up to it readable, is not the oldest deleted one; that takes a number that starts like it |
| RecordFile.InsertAddsOne | Project11/person.c:129-180 | an insert adds exactly one record to the bag of records |
| RecordFile.DeleteRemovesFirstMatch | Project11/person.c:233-282 | a delete that finds a record takes exactly that one, the first to bear the number, out of it and puts its slot at the head of the list |
| RecordFile.OtherDeletesChangeNothing | Project11/person.c:233-282 | a delete that finds no slot leaves the file the same |
| RecordFile.OthersStay | Project11/person.c:129-282 | neither moves nor changes any other record |
| RecordFile.InsertUndoesDeleteExactlyWhen | Project11/person.c:163-180 | an insert of the deleted record takes the freed slot and restores header and links, and every byte exactly when the record is as long as the mark or what stays of the mark is what stood there |
| RecordFile.DeleteUndoesInsertExactlyWhen | Project11/person.c:129-282 | deleting the number just inserted restores the file, but for bytes left of old records, exactly when the insert reused a slot, the scan gets to it without finding the number before, the new slot can be read and the number is plain |
| RecordFile.LastFreedIsFirstReused | Project11/person.c:163-282 | any sequence of successful deletes followed by inserting the records back in reverse order restores the file but for bytes behind records, and those too exactly when no mark leaves anything behind a record |
| RecordRuns.InvAlongRun | Project11/person.c:111-284 | as long as no delete of a run strikes a deleted slot again, the list from (depage, derecord) is finite, without repeats and ends at (-1, -1); each of the recordnum slots is live or on it, never both; pagenum is 1 + ceil(recordnum / 2) |
| RecordRuns.LawfulRunExactlyWhen | Project11/person.c:111-284 | a run is lawful throughout exactly when no delete in it does |
| RecordRuns.UnmarkedRunIsLawful | Project11/person.c:247-253 | and none does if no number sought starts like the oldest deleted slot |
| RecordRuns.StruckTwice | Project11/person.c:233-282 | for any packable record with a number of at least nine characters: inserted, deleted, and deleted again by the number its slot now starts with, the slot points to itself and the file has no list of deleted slots any more |
| RecordRuns.DeleteInRunCompletesExactlyWhen | Project11/person.c:187-284 | the exact condition under which a delete comes to its end, after every such run |
| RecordRuns.FileRefinesBag | Project11/person.c:111-284 | in every such run the file goes through the bags of records that the operations leave, a delete taking out the record in the first slot that bears its number exactly under that condition |
| RecordRuns.FileIsAsLongAsItsPeak | Project11/person.c:129-162 | in every such run recordnum is the largest number of records the file ever held, and the pages are just enough for it |
| RecordRuns.ShortRecordStops | Project11/person.c:103-104 | for any two records, the first without '#' signs and with so many empty fields that it has less than six in a new slot: inserted, and the second deleted, the delete stops at the first slot and both records stay |
| RecordRuns.ThirdDeleteStops | Project11/person.c:77-106 | for any three packable records with different numbers, the first number at least nine characters long: inserted and deleted in the same order, the third delete stops at the slot of the second and the third record stays in the file |
| Pack.PackRecord | Project11/person.c:56-71 | appends number, name, age, address, phone and e-mail, in that order, each closed by '#' |
| Pack.UnpackRecord | Project11/person.c:77-106 | unpack with strtok in place is the six fields of the text, or fails for want of one |
| Pack.CopyFields | Project11/person.c:89-104 | the strtok and strcpy calls after the first field |
| Pack.UnpackUndoesPackExactlyWhenPackable | Project11/person.c:56-106 | for NUL-free fields, and whatever bytes follow in the record, unpack gives the packed person back exactly when five fields are non-empty and free of '#' and the number is '#' signs followed by a non-empty text without |
| Pack.UnpackNeedsSixFields | Project11/person.c:77-106 | unpack gets through any bytes exactly when at least six fields begin before the first NUL |
| Pack.UnpackedIsPackable | Project11/person.c:77-106 | whatever unpack returns is such a person |
| HeapSort.Exchange | Project12/heapsort.c:120-123 | swaps two records |
| HeapSort.Heapify | Project12/heapsort.c:90-161 | heapify in place, left side first and then right, each with its recursion |
| HeapSort.HeapifySide | Project12/heapsort.c:118-139 | one side of it: compare, exchange, go down |
| HeapSort.HeapifyFrom | Project12/heapsort.c:81-84 | the loop from the middle to the root |
| HeapSort.LoadRecords | Project12/heapsort.c:57-78 | the array ends holding the records of the pages in order; exactly for an even count the loop then stores one more record past the array |
| HeapSort.BuildHeap | Project12/heapsort.c:43-89 | runs past the array exactly for an even count; otherwise the array is a min-heap of the input's records |
| HeapSort.TakeRoot | Project12/heapsort.c:210-230 | hands out the root, moves the last record up, blanks its slot and restores the heap |
| HeapSort.PutRoot | Project12/heapsort.c:197-230 | one pass of the loop: the root goes out next, and the rest of the output is still what the smaller heap gives |
| HeapSort.PutAll | Project12/heapsort.c:197-235 | the loop hands out all records, and keeps a heap all the way |
| HeapSort.PutRecord | Project12/heapsort.c:200-223 | adds a record to the page buffer, writing full pages |
| HeapSort.Finish | Project12/heapsort.c:236-244 | the last write |
| HeapSort.MakeSortedFile | Project12/heapsort.c:167-248 | the header is copied, the pages written hold the records as the heap gives them, and every slot ends a sentinel |
| HeapSort.SortFile | Project12/heapsort.c:43-248 | runs past the array exactly for an even count; otherwise the records of the written pages are a permutation of the input's with the numbers in order, byte by byte at the first difference and a shorter number before a longer one that starts with it, followed by one sentinel, and the pages are those that the copied header describes |
| HeapSort.SiftTouchesOnlyItsSubtree | Project12/heapsort.c:90-161 | heapify changes nothing outside the subtree |
| HeapSort.SiftPermutes | Project12/heapsort.c:90-161 | and permutes what is in it |
| HeapSort.SiftKeepsBlanks | Project12/heapsort.c:118-160 | slots past the heap stay sentinels |
| HeapSort.SiftMakesHeap | Project12/heapsort.c:90-161 | given that both child subtrees are heaps and missing children are sentinels, heapify makes the subtree a min-heap |
| HeapSort.SiftAllMakesHeap | Project12/heapsort.c:81-84 | the loop from the middle makes the whole array a heap |
| HeapSort.DrainIsInOrder | Project12/heapsort.c:197-235 | taking the root again and again gives the records in the byte order of their numbers, sentinels last |
| HeapSort.StrCmpIsByteOrder | Project12/heapsort.c:118-149 | comparing two numbers tells which has the larger byte at the first place where they differ, or is longer if there is none |
| HeapSort.DrainPermutes | Project12/heapsort.c:197-235 | and all of them |
| HeapSort.SortedFileExactlyForOddCounts | Project12/heapsort.c:197-244 | the written pages hold all records exactly for odd counts (or none); for even counts the last two are lost |
| Flash.FlashFile.constructor | Project10/ftlmgr.c:35-47 | a device of erased pages |
| Flash.FlashFile.CopyPage | Project10/ftlmgr.c:135-138 | one page copied |
| Flash.FlashFile.ProgramPage | Project10/ftlmgr.c:157 | one page programmed |
| Flash.FlashFile.EraseBlock | Project10/ftlmgr.c:216-222 | the four pages of a block erased and no other |
| Flash.FlashFile.IsErased | Project10/ftlmgr.c:61-68 | counting 0xFF bytes decides whether a page is erased |
| Flash.FlashFile.FindCopyBlock | Project10/ftlmgr.c:112-127 | the first erased block, or 0 |
| Flash.FlashFile.MovePages | Project10/ftlmgr.c:133-140 | copies the other pages of a block to another one, page by page in order |
| Flash.FlashFile.RewritePage | Project10/ftlmgr.c:109-178 | copies, erases, programs, copies back and erases, in that order |
| Flash.FlashFile.WritePage | Project10/ftlmgr.c:49-188 | the write command makes exactly the listed single writes, in order, and leaves a device for the next command |
| Flash.FlashFile.ReadPage | Project10/ftlmgr.c:191-214 | prints the sector and spare text without 0xFF bytes, nothing for an erased page |
| Flash.CopyBlockIsErased | Project10/ftlmgr.c:112-127 | if any block is erased, the one used for copying is the first that is, and not the target |
| Flash.FinalByOther | Project10/ftlmgr.c:129-176 | by way of another block, the page is written, the copy block ends erased, and every other page is as before |
| Flash.FinalBySelf | Project10/ftlmgr.c:54-176 | copied to itself, a block loses everything, the new page included |
| Flash.WriteIsOneUpdateExactlyWhen | Project10/ftlmgr.c:61-178 | a write changes that page and no other on the device exactly when the page or some block is erased, or nothing was there to lose |
| Flash.OverwriteIsSafeThroughout | Project10/ftlmgr.c:129-176 | after any number of the single writes every other page of the block is intact in it or in the copy, the rest of the device is unchanged, and the page to be programmed next is erased |
| Flash.ReadUndoesMakeExactlyWhen | Project10/ftlmgr.c:70-83 | reading a page just made gives both texts exactly when they hold no 0xFF byte and are not both empty |
| Flash.MadePageBytes | Project10/ftlmgr.c:70-83 | the bytes of a page: the texts from the start of the sector and of the spare area, and 0xFF behind them |
| Flash.ShownLeavesOutExactlyFF | Project10/ftlmgr.c:202-209 | what a read prints of an area is its bytes in order, those that are 0xFF left out |
| Flash.EraseFillsFourPages | Project10/ftlmgr.c:216-222 | erasing a block makes every byte of its four pages 0xFF and changes no other |
| Flash.ReadsNothingExactlyWhenAllFF | Project10/ftlmgr.c:199-211 | a read prints nothing exactly when every byte of the page is 0xFF |
| Flash.WriteThenReadExactlyWhen | Project10/ftlmgr.c:49-214 | after a write, reading the page gives its texts and reading any other page gives what it gave before, exactly when the page or some block was erased and the texts hold no 0xFF byte and are not both empty |
| Flash.WriteKeepsDevice | Project10/ftlmgr.c:49-188 | a write of a whole page leaves whole pages everywhere |
| Flash.DeviceIsMapExactlyWhen | Project10/ftlmgr.c:49-188 | after each of any sequence of writes every page holds what was last written to it, exactly when each write comes to an erased page, or while some block is erased, or with nothing to lose |
| Flash.SecondWriteLosesBlock | Project10/ftlmgr.c:35-188 | on a new device of one block, the second write to page 0 leaves every page erased |

## Left out

- Kernel details of Project2: page tables, kernel stacks, file descriptors, interrupt flags, assembly, `get_prio` and the size in `get_proc_info`. NPROC is the length of the table; param.h is not part of this model. Panics are steps that cannot be taken.
- Project2/trap.c: only ticks taken while a process runs are modelled, on one processor for the starvation bound.
- TicketLock.RwLock.WriterArrive: does not split lines 38 and 40, because TicketSplit does; the increment `count++` is atomic in both.
- TicketLock.RwLock.WriterUnlock: does not split lines 56 and 57, because TicketSplit does.
- Scheduler.RunnableSlotIsNotStarved: bounds the ticks that processes spend, not those that come while no process runs.
- Liveness of the ticket lock beyond its deadlock, and of the producer/consumer program, whose workers wait without testing a condition first and may wait for ever.
- MasterWorker.Shared: a wakeup without a signal is not modelled, a signal wakes one thread, and items stored past the end of the buffer end the run.
- Project3/thread2/rw_lock-r-test.c and Project3/thread3/SSU_Sem.c, which do not give the guarantee one expects of them.
- Counters are mathematical integers: the wrap-around of nextpid, of the ticket counters and of the section number is not modelled.
- SlotAlloc.Allocator: addresses are slot numbers; what a variable holds that was never set is a parameter.
- Project4/ealloc, where section numbers collide with the mark of a free slot.
- Meaning of the rearranged tokens: the program pops at most one operator, ignores precedence inside brackets, and later swaps operands. Brackets labelled POST_OP would come out as tokens of their own and have no height here; the caller of makepostfix labels none so, but joins calls and subscripts to the token before them (Project8/ssu_string.c:412-446). That joining and the labelling are not modelled: the theorems hold for all labels. `?` is no operator to the program. `sorttoken` and `tokencmp` are not modelled. In PostfixLists the text and operand count of a token are constants, since makepostfix does not change them.
- Cron.RunTimer: ends where a part of a term runs past its buffer.
- CronLists.CheckList: ends where strtok loses its place, because what it then reads is a buffer of a call that is over.
- The rest of cron: the reading of the clock, the comparison of weekdays with month names, the splitting of a line into fields, and the sizes of the other buffers.
- RecordStore.Store.InsertRecord: a record longer than RECORD_SIZE is not modelled, nor one whose packed text does not start an empty buffer. PAGE_SIZE and RECORD_SIZE come from person.h, which is not part of this model; two records fill a page, and a record is at least the nine bytes long that a delete writes. The links of a deleted slot are kept as numbers beside its bytes, from which they can be read back.
- RecordStore.Store.ReadRecord: the record buffer is one slot's bytes; what the program reads behind a slot that holds no NUL is not modelled.
- Pack.PackRecord: starts from whatever text the buffer holds; the program does not clear it first. A record longer than RECORD_SIZE is not modelled. Pack.UnpackRecord has one NUL behind its copy of the record.
- HeapSort.LoadRecords: ends at the store past the array. The array has a pointer for every record and for slot 0; the program asks for one fewer.
- HeapSort: the bytes of a record behind its number. Two stores and reads past a buffer are not modelled: `strcat` appends a whole empty page to the page buffer (Project12/heapsort.c:211), and `strtok` and `strcpy` read on behind `buf` when a record or a sentinel fills it without a NUL (Project12/heapsort.c:103-112).
- Flash: the device driver is page and block operations as its interface says; sizes come from flash.h, which is not part of this model, with four pages to a block as the program assumes.
- Project1, Project5, Project6, Project9 and Project7/ssu_rsync.c: directory walks, daemons, system calls and a disk layer that is not in the repository.
