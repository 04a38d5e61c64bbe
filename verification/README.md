# Process management of the teaching kernel

This project models the process-management core of the kernel: the round-robin
scheduler with its run and sleep queues, the mutexes that hand over in FIFO order, the
process table with its recycled entries, the system-call dispatch, and the kernel entry
that runs an interrupt handler, then the scheduler, then a process. Three companions
stand beside it: the timer callback table, the byte ring buffer and the semaphore ids.

## Layers

- `KernelModel` gives the kernel as one value and every C function as a total function on
  it, branch by branch, including the error returns. A call of `kernel_panic` sets a flag;
  a NULL dereference on the way to a panic counts as that panic.
- `KernelObjects` gives the kernel as records that are updated in place: process and mutex
  objects, circular queues over arrays, pointers between them. Each method is proved to
  turn the represented value into what `KernelModel` says. `KernelContextEnter` is one
  whole kernel entry.
- `Invariant`, `Preservation` and `Reachability` prove the kernel invariant for every
  kernel entry and every run from boot. `RemoveOrder`, `SleepTick`, `BoundedWaiting`,
  `SleepingRuns`, `MutexRuns`, `WaiterRuns`, `Accounting`, `SyscallResults` and `KernelEntries`
  prove what follows, the last one the whole effect of every kernel entry in closed form;
  `Witnesses` reaches from boot the states at which a promise of the process code fails.
- `Queues`, `CallbackTimers`, `RingBuffers` and `Semaphores` each hold a class over an
  array, the value it represents, and the laws of that value. `Seqs` holds sequence facts.

A step is one kernel entry: a timer interrupt, Ctrl-N (create), Ctrl-Q (destroy the active
process), another interrupt, or a system call of the active process. `Legal` runs are the
runs meant by "every run"; they start in any state that satisfies `Inv`, or at `Boot()`.
`Admissible` runs may also contain the `Fatal` events on which the kernel panics.

## Assumptions

- The idle process makes no system call (src/kproc.c:198-206); `IdleSleepsAndRuns` shows
  what goes wrong otherwise.
- Only the active process is destroyed or put to sleep (src/ksyscall.c:241-251,
  src/keyboard.c:473-476), and Ctrl-Q is not pressed before the first dispatch.
- `kmutex_lock` and `kmutex_destroy` are given ids that are allocated or out of range, since
  the code does not look at `allocated` (src/kmutex.c:78-109); `DestroyExact`, `LockExact`
  and `InitExact` say exactly when another id does harm.
- A `Legal` run contains no system call with an unknown number, which panics
  (src/ksyscall.c:123-125); `StepExact` and `RunExact` say exactly when a kernel entry and a
  run do panic, such calls and those before the first dispatch included.
- No run contains a `ksem_wait` that blocks or a `ksem_post` that wakes somebody, although the
  ping and pong processes that start at boot make such calls (see "Left out").
- Pids, ticks, lock counts and the product `seconds * 100` stay within `int`.
- `scheduler_timer` is registered once with interval 1 and repeat -1, and so runs once on
  every timer interrupt; `EveryTick` is the fact about the callback table behind this.

## Where the code differs from its comments

The model follows the code.

- `scheduler_remove` says that it keeps the order of the run queue; it keeps the cyclic order,
  and the linear one exactly in the cases of `RemoveLinearExact`. This is a fact about the
  function: under the assumptions above its argument is always the active process, whose pid
  is in neither queue (`Preservation.RemoveActive`), so no `Legal` run shows the reordering.
- `scheduler_timer` leaves sleepers unexamined on a tick if one before the last is due
  (`TickExaminesAll`), because its loop bound shrinks; `SleeperNotExamined` reaches such a tick.
- A timer's repeat counts ticks, not intervals (`NeverCalledExact`, `EveryTickExact`, `RepeatExact`).
- `kmutex_init` loses the last free id for good, so at most 15 mutexes exist at once
  (`LastIdIsLost`).
- A call that blocks returns nothing to its caller, whose result register goes on holding the
  number of the call (`CallResult`, `ResultWhenItRuns`): 6 for a sleeper, never its 0
  (`SleepResult`), and 12 for a process that waited in `kmutex_lock`. That process gets the
  lock count only if it found 11 locks and so made the twelfth (`LockResultExact`);
  `WaiterGetsNoCount` reaches one that does not.
- A process that exits keeps the mutexes it holds, and they pass to the next process that is
  created in its table entry (`DisciplineExact`, `OwnershipInherited`, `DeadOwnerInherited`).
- `ringbuf_write_mem` reports success for a truncated write exactly if the sum in its check
  wraps (`WriteMemAllOrNothing`), as it does for a size of -1 (`NegativeSizeTruncates`).

## Model

| member | source | states |
|---|---|---|
| Queues.Queue.In | src/queue.c:50-75 | fails exactly on a full queue; otherwise the item is last, across wrap-around |
| Queues.Queue.Out | src/queue.c:82-110 | fails exactly on an empty queue; otherwise the oldest item leaves |
| Queues.Queue.Init | src/queue.c:28-42 | whatever the fields were, the queue is valid and empty |
| Queues.Capacity | src/queue.c:50-75 | of any items put in, a queue takes the first until it holds 32, and refuses the rest |
| Queues.Drive | src/queue.c:50-110 | any sequence of calls on a queue object ends in the state of the trace, and what was accepted is what was delivered followed by what is held |
| Queues.Fifo | src/queue.c:50-110 | under any sequence of operations the accepted items are the delivered ones followed by the at most 32 held |
| KernelObjects.Kernel.PidToProc | src/kproc.c:39-47 | the search loop finds the first entry with the pid, or NULL |
| KernelObjects.Kernel.ProcToEntry | src/kproc.c:54-66 | the search loop by pid, which on live processes inverts pid_to_proc (TablePartition) |
| KernelObjects.Kernel.SchedulerAdd | src/scheduler.c:120-132 | the record and the run queue after the call; panics exactly for NULL or a full queue |
| KernelObjects.Kernel.RemoveFromQueue | src/scheduler.c:145-162 | the in-place rotation with its shrinking bound does what RemoveLoop does, and no queue operation in it fails |
| KernelObjects.Kernel.SchedulerRemove | src/scheduler.c:138-173 | the whole state after the call, for any process and either queue |
| KernelObjects.Kernel.SchedulerSleep | src/scheduler.c:175-192 | the whole state after the call, the early return for sleepers included |
| KernelObjects.Kernel.SchedulerTimer | src/scheduler.c:28-58 | the loop over the shrinking sleep queue, in place, refines TimerLoop, whose closed form is LoopEffect |
| KernelObjects.Kernel.SchedulerRun | src/scheduler.c:64-114 | drops, preempts and dispatches as the value function does, on shared records |
| KernelObjects.Kernel.KprocCreate | src/kproc.c:86-151 | -1 exactly without a free entry; otherwise the recycled entry is reset and queued |
| KernelObjects.Kernel.KprocDestroy | src/kproc.c:159-193 | the idle process is refused; otherwise the entry is cleared and given back |
| KernelObjects.Kernel.KmutexInit | src/kmutex.c:46-71 | the id handed out or -1, the loss of the last free id included |
| KernelObjects.Kernel.KmutexDestroy | src/kmutex.c:78-97 | refused for locked or out-of-range ids; otherwise the record is cleared and the id queued |
| KernelObjects.Kernel.KmutexLock | src/kmutex.c:104-140 | ownership or blocking of the caller, with the shared wait queue and the scheduler updated |
| KernelObjects.Kernel.KmutexUnlock | src/kmutex.c:147-193 | release, refusal, or hand-over to the first waiter |
| KernelObjects.Kernel.KsyscallIrqHandler | src/ksyscall.c:24-130 | dispatch, and delivery of the result only to a caller that is still active |
| KernelObjects.Kernel.KernelContextEnter | src/kernel.c:230-248 | a kernel entry on the records is one Step; from a state in Inv any event panics exactly if it is fatal, and an enabled one keeps Inv and leaves an active process |
| KernelObjects.Kernel.KprocInit | src/kproc.c:241-287 | whatever the table and the allocator held, the one is cleared, the other filled, and the eleven boot processes are created |
| KernelObjects.Kernel.KmutexesInit | src/kmutex.c:25-40 | whatever they held, the mutex table is cleared, wait queues included, and the pool filled |
| KernelObjects.Kernel.Boot | src/main.c:42-54 | the three initialisations, from zero variables, end in the boot state |
| RemoveOrder.RemovePresent | src/scheduler.c:146-162 | a pid that occurs once goes; the others keep their order if it was last, and otherwise come out rotated right by one |
| RemoveOrder.RemoveKeepsCycle | src/scheduler.c:146-162 | on any duplicate-free queue an absent pid changes nothing, and otherwise the other members come out in order or rotated right by one |
| RemoveOrder.RemoveTakesOne | src/scheduler.c:146-162 | exactly the pid goes |
| RemoveOrder.RemoveLinearExact | src/scheduler.c:134-162 | the others keep their order if and only if the pid was last or the queue had two members |
| RemoveOrder.RemoveBreaksLinearOrder | src/scheduler.c:152-156 | the shortest queue whose order the call does not keep |
| RemoveOrder.SchedulerRemoveExact | src/scheduler.c:138-173 | scheduler_remove on the whole state: exactly the queue the process is in loses exactly its pid, and only the active process gives up the processor |
| SleepTick.LoopEffect | src/scheduler.c:38-57 | the first v sleepers are examined, ceil(n/2) <= v <= n, due ones join the run queue in order, the rest are requeued in order, and no more are left out than woke |
| SleepTick.AllExaminedExact | src/scheduler.c:38-57 | the loop examines everybody if and only if nobody before the last sleeper is due |
| SleepTick.SecondPassedOver | src/scheduler.c:38-57 | of two sleepers, the first due and the second not, only the first is examined |
| SleepTick.QuietExact | src/scheduler.c:38-57 | a tick leaves the sleep queue, and the run queue, as they are if and only if nobody is due |
| SleepTick.DeadSleeperDropped | src/scheduler.c:38-57 | a sleeper that is not in the table any more is dropped |
| Preservation.UnlockHandsOver | src/kmutex.c:175-190 | a contended unlock finds a live waiter other than the caller, makes it ready and the owner, and keeps the invariant |
| Preservation.DestroyKeeps | src/kproc.c:159-193 | an exit frees exactly the caller's entry and keeps every other process in its place |
| Preservation.LockBlocks | src/kmutex.c:121-136 | a contended lock moves the caller from the processor to the wait queue and changes no other queue |
| Reachability.StepKeeps | src/kernel.c:230-248 | every kernel entry but a fatal one, a call of the idle process, and a lock or destroy with a free id keeps the whole invariant: table, placement, locks, id pool, time slices, no panic |
| Reachability.StepExact | src/kernel.c:230-248 | from a state in Inv any kernel entry, with no exception, panics if and only if it is a call with an unknown number, or a call or Ctrl-Q without a process |
| Reachability.OperationPanics | src/scheduler.c:120-177 | adding panics if and only if the process is NULL or 32 are queued, and removing, sleeping and destroying if and only if it is NULL |
| Reachability.RunExact | src/kernel.c:230-248 | a run without calls of the idle process and without locks or destroys of free ids panics if and only if it hits such an event, and keeps the invariant until then |
| Reachability.BootInv | src/kproc.c:241-287 | the boot state satisfies the invariant |
| Reachability.BootExact | src/kproc.c:241-287 | the whole boot state: eleven ready processes in entries 0 to 10, nine free entries, 16 free mutexes, nothing active |
| Reachability.BootQueues | src/kproc.c:260-286 | the run queue is 0 to 10 and the free entries are 11 to 19, in order |
| KernelEntries.SchedulerExact | src/scheduler.c:64-114 | with no active process the first in the queue, or idle, is dispatched; an active one stays if it has used less than 10 ticks, and is otherwise queued last first |
| KernelEntries.DropExact | src/scheduler.c:66-69 | an active process that is not ACTIVE is dropped, in any state |
| KernelEntries.TimerExact | src/scheduler.c:28-114 | the whole state after a timer interrupt: register saved, active process charged, sleepers examined, the tenth tick of a slice ending it |
| KernelEntries.OtherIrqExact | src/kernel.c:230-248 | any other interrupt saves the register and changes nothing else |
| KernelEntries.CreateExact | src/kproc.c:86-151 | -1 and no effect without a free entry, no pid used up; otherwise the whole new state |
| KernelEntries.KeyNewExact | src/keyboard.c:467-471 | the whole state after Ctrl-N |
| KernelEntries.KeyQuitExact | src/keyboard.c:473-477 | the whole state after Ctrl-Q, which spares the idle process |
| KernelEntries.OtherExact | src/ksyscall.c:44-130 | a call that touches neither processes nor mutexes hands its result to the caller and changes nothing else |
| KernelEntries.SleepExact | src/ksyscall.c:241-244 | the whole state after a sleep call |
| KernelEntries.ExitExact | src/ksyscall.c:249-251 | the whole state after an exit |
| KernelEntries.MutexInitExact | src/kmutex.c:46-71 | the caller finds the first free id in its register, and -1 if at most one was free, in which case that one is lost |
| KernelEntries.MutexDestroyExact | src/kmutex.c:78-97 | the caller finds 0 and the id is free again exactly for an unlocked mutex; otherwise it finds -1 and nothing changes |
| KernelEntries.MutexLockExact | src/kmutex.c:104-140 | the whole state after a lock call: refused, granted or waiting |
| KernelEntries.MutexUnlockExact | src/kmutex.c:147-193 | the whole state after an unlock call: refused, without effect, released or handed over |
| KernelEntries.InterruptedFindsItsRegister | src/kernel.c:230-248 | an interrupted process finds the saved register when it next runs, whatever happened meanwhile |
| KernelEntries.TimeSlice | src/scheduler.c:64-114 | a process just dispatched keeps the processor for exactly ten ticks, whatever else happens, unless it blocks or ends; it is then last in the queue and the first runs |
| KernelEntries.NewSlice | src/scheduler.c:64-114 | who gets the processor has used none of its ten ticks |
| Reachability.RunKeeps | src/kernel.c:230-248 | so does every state of every run |
| Accounting.Placement | src/scheduler.c:64-192 | in every reachable state each live process is in exactly one of the processor and all queues, the one its state names; only the idle process may be ready in none; dead pids are nowhere |
| Accounting.TablePartition | src/kproc.c:39-66 | in every reachable state free and live entries partition the table, pids are distinct, and the two lookups are inverse |
| Accounting.CreateFresh | src/kproc.c:99-150 | a create yields a pid that no process has, and that process is then in exactly one place |
| Accounting.PidsNeverReused | src/kproc.c:99-150 | over every run a pid that was handed out and is gone stays gone |
| Accounting.NextPidIsNew | src/kproc.c:99-150 | the next pid at the end of a run from boot is greater than every pid at any point of the run |
| Accounting.ReachableAccounts | src/kmutex.c:104-193 | a run from boot with the same two exclusions panics if and only if it hits a fatal event; otherwise locks are one for the owner plus the waiters, unlocked means ownerless, and queues stay below capacity |
| Accounting.MutexIds | src/kmutex.c:25-71 | in every reachable state free, used and lost ids are disjoint and add up to 16, and at most 15 are in use |
| Accounting.InitDrops | src/kmutex.c:46-71 | kmutex_init loses an id exactly when it takes the last free one, and then returns -1 |
| Accounting.DestroyDropsNone | src/kmutex.c:78-97 | kmutex_destroy returns 0 exactly for an unlocked mutex, frees its id and loses none; otherwise nothing changes |
| Accounting.StepIds | src/kmutex.c:46-97 | no other kernel entry loses or regains an id |
| Accounting.DestroyExact | src/kmutex.c:78-97 | kmutex_destroy keeps the pool free of duplicates if and only if the id is not in it |
| Accounting.LockExact | src/kmutex.c:104-140 | kmutex_lock keeps unallocated mutexes unlocked if and only if the id is allocated or out of range |
| Accounting.InitExact | src/kmutex.c:46-71 | kmutex_init keeps every process placed if and only if the mutex of the next free id has no waiters |
| Accounting.IdleSleepsAndRuns | src/kproc.c:198-206 | an idle process that slept would be ACTIVE and in the sleep queue at once |
| BoundedWaiting.StepRun | src/scheduler.c:64-132 | a kernel entry only appends processes other than idle to the run queue before it pops the head |
| BoundedWaiting.RunIdleUnqueued | src/kproc.c:260-263 | once the boot-time entry of the idle process has been popped, idle is never queued again, in any run |
| BoundedWaiting.DispatchSoundStep | src/scheduler.c:95-104 | with idle unqueued, an entry that has to dispatch runs the head of the run queue, and idle exactly when that is empty |
| BoundedWaiting.DispatchSound | src/scheduler.c:95-104 | after the first kernel entry a dispatched process is the head of the run queue, and idle is dispatched exactly when that is empty |
| BoundedWaiting.StepMeasure | src/scheduler.c:64-132 | (10 - active cpu time) + 10 * position drops on every tick and never rises until the process runs |
| BoundedWaiting.BoundedWaiting | src/scheduler.c:28-132 | the process at position i runs within 10 * (i + 1) ticks, whatever else happens |
| BoundedWaiting.ReadyRuns | src/scheduler.c:28-132 | from every state in Inv 10 * (i + 1) timer interrupts are a legal run, and in it that process does run |
| SleepingRuns.SleeperStep | src/scheduler.c:38-57 | each tick examines a sleeper once or halves its position while waking another; nothing else touches it |
| SleepingRuns.PassedOverAtMostFour | src/scheduler.c:38-57 | no sleeper is passed over on more than four consecutive ticks |
| SleepingRuns.FallAsleep | src/ksyscall.c:241-244 | a sleep of t >= 0 ticks queues the caller last with t + 2 examinations to go |
| SleepingRuns.SleepAgain | src/scheduler.c:175-192 | a sleeper put to sleep again only gets the new time |
| SleepingRuns.SleepDuration | src/scheduler.c:38-57 | a sleeper wakes on exactly that examination, never earlier in ticks, and later by at most the number of wake-ups meanwhile |
| SleepingRuns.TickExaminesAll | src/scheduler.c:38-57 | from any state in Inv a timer interrupt examines every sleeper if and only if none before the last has a negative time left |
| SleepingRuns.WakesWithin | src/scheduler.c:38-57 | a sleeper with r examinations to go is awake after 5 * r ticks, whatever else happens |
| SleepingRuns.RunsAgain | src/scheduler.c:28-132 | and it has run within 5 * r + 200 ticks |
| SleepingRuns.LoadStep | src/scheduler.c:38-57 | a tick lowers the sum of outstanding examinations by exactly the number it performs, at least half the sleepers |
| SleepingRuns.Drain | src/scheduler.c:38-57 | without new sleepers the sleep queue is empty after that many ticks |
| MutexRuns.MutexStep | src/kmutex.c:104-193 | how each kernel entry changes the owner and wait queue of each mutex |
| MutexRuns.DeadWaiterDropped | src/kmutex.c:182-189 | a waiter that is not in the table any more is dropped and the owner stays |
| MutexRuns.GrantsFollowRequests | src/kmutex.c:104-193 | in every run, disciplined or not, a mutex is granted in the order of the lock calls, and the rest are WAITING |
| WaiterRuns.GrantsAhead | src/kmutex.c:104-193 | from any state on, those already waiting and then those who ask are granted in that order, and the rest wait in it |
| WaiterRuns.GrantedInTurn | src/kmutex.c:104-193 | the process at position j of a wait queue is the (j + 1)-th granted from then on, and waits in its place until then |
| WaiterRuns.WaiterRuns | src/kmutex.c:171-190 | and it has run within 200 ticks of the grant that is its turn, whatever else happens |
| MutexRuns.FifoMutualExclusion | src/kmutex.c:104-193 | in every disciplined run at most one grant is outstanding, the live owner's, and all other unreleased requests are those of distinct WAITING processes in request order |
| MutexRuns.DisciplineExact | src/kproc.c:159-193 | owners stay alive and able to unlock if and only if holders do not end and do not lock again what they hold |
| MutexRuns.OwnerExits | src/kproc.c:159-193 | a mutex held at exit keeps its dead owner |
| MutexRuns.OwnershipInherited | src/kproc.c:99-106 | it then belongs to the process created in the owner's entry |
| SyscallResults.LockReturns | src/ksyscall.c:126-130 | an uncontended lock returns 1 to a caller that goes on |
| SyscallResults.UnlockReturns | src/kmutex.c:147-193 | an unlock keeps its caller running and gives it -1, 0 or the locks left; without a lock of its own to release it changes nothing |
| SyscallResults.RunTime | src/scheduler.c:33-36 | the run time of a process grows by exactly the ticks that find it active, over every run it survives |
| SyscallResults.CallResult | src/ksyscall.c:24-130 | every call but exit leaves what it promises to return, said call by call, with a caller that goes on if it does not block, and its number with a stopped caller if it does; the return code arrives if and only if it does not block or equals the number |
| SyscallResults.CallReturns | src/ksyscall.c:44-125 | the function behind each call returns what the call promises |
| SyscallResults.ResultWhenItRuns | src/ksyscall.c:126-130 | and that is what the caller finds when it runs again, whatever happened meanwhile |
| SyscallResults.LockResultExact | src/kmutex.c:104-140 | a lock gives its caller the lock count if and only if it found 0 or 11 locks, and -1 for an id out of range |
| SyscallResults.SleepResult | src/ksyscall.c:241-244 | a sleeper is never given the 0 that the call returns |
| CallbackTimers.TimerTable.RegisterCallback | src/timer.c:46-72 | the table entry and the pool after the call, errors included |
| CallbackTimers.TimerTable.UnregisterCallback | src/timer.c:80-100 | the entry is cleared even where the pool refuses the id |
| CallbackTimers.TimerTable.IrqHandler | src/timer.c:120-147 | the handler's loop in place, with the list of callbacks in the order in which it calls them |
| CallbackTimers.CallsInOrder | src/timer.c:128-137 | a tick calls exactly the callbacks that are due, each once, in the order of their ids |
| CallbackTimers.HandleExact | src/timer.c:120-147 | the whole table after a tick; the ids of the timers that end are queued in order |
| CallbackTimers.RegisterExact | src/timer.c:46-72 | -1 and no effect without a callback or a free id; otherwise the first free id and its entry |
| CallbackTimers.UnregisterResult | src/timer.c:80-100 | the result and the whole table for every id |
| CallbackTimers.TicksCounted | src/timer.c:120-177 | the system time is the number of timer interrupts since initialisation |
| CallbackTimers.CallbackLife | src/timer.c:120-147 | a callback registered at tick T is called floor((T+r+1)/m) - floor(T/m) times, and its id is back in the pool on tick T+r+1 |
| CallbackTimers.WhileRegistered | src/timer.c:120-147 | the same count for every shorter run, and for ever with a negative repeat |
| CallbackTimers.EveryTick | src/scheduler.c:207-207 | scheduler_timer's registration is called exactly once on every tick |
| CallbackTimers.NeverCalledExact | src/timer.c:134-144 | a callback is never called if and only if its r + 1 ticks end before the next multiple of its interval |
| CallbackTimers.EveryTickExact | src/timer.c:134-144 | it is called on all r + 1 ticks of its life if and only if the interval is 1 or the only tick hits |
| CallbackTimers.RepeatExact | src/timer.c:134-144 | it is called exactly r times if and only if phase, repeat and interval are in the three cases of RepeatFits |
| CallbackTimers.UnregisterExact | src/timer.c:80-100 | unregistering keeps the pool exact if and only if the id is registered, out of range, or no timer is registered |
| CallbackTimers.UnregisterFreeId | src/timer.c:80-100 | after one registration, unregistering a free id breaks the pool |
| CallbackTimers.PoolAlwaysExact | src/timer.c:46-177 | free and registered timer ids partition the table after every proper run from initialisation |
| CallbackTimers.HandlerFaults | src/timer.c:134-136 | the handler divides by zero if and only if a registered interval is 0 |
| RingBuffers.RingBuffer.Write | src/ringbuf.c:37-57 | fails exactly when full; otherwise the byte is last |
| RingBuffers.RingBuffer.Read | src/ringbuf.c:65-85 | fails exactly when empty; otherwise the oldest byte leaves |
| RingBuffers.RingBuffer.WriteMem | src/ringbuf.c:96-110 | what the copy loop accepts, for every size_t, with the check modulo 2^32 |
| RingBuffers.RingBuffer.ReadMem | src/ringbuf.c:120-133 | exactly the first min(size, available) bytes, and the rest stays |
| RingBuffers.RingBuffer.Flush | src/ringbuf.c:140-147 | the buffer is empty although the memset misses its last 12 bytes |
| RingBuffers.WriteMemExact | src/ringbuf.c:96-110 | if the sum does not wrap a bulk write succeeds if and only if everything fits into 2048 bytes |
| RingBuffers.WriteMemAllOrNothing | src/ringbuf.c:96-110 | a bulk write is all or nothing if and only if size plus used does not wrap |
| RingBuffers.NegativeSizeTruncates | src/ringbuf.c:96-110 | the failing input: a size of (size_t)-1 on a non-empty buffer fills it and reports success |
| RingBuffers.Drive | src/ringbuf.c:37-133 | any sequence of calls on a buffer object delivers and holds what the stream says |
| RingBuffers.StreamLaw | src/ringbuf.c:37-133 | over any interleaving the bytes accepted are the bytes delivered followed by the bytes held |
| RingBuffers.BulkIsRepeated | src/ringbuf.c:120-133 | a bulk read delivers what as many single reads deliver |
| Semaphores.SemTable.KsemInit | src/ksem.c:54-71 | the allocation in place |
| Semaphores.SemTable.KsemDestroy | src/ksem.c:78-97 | the release in place, refused for free ids and for semaphores with waiters |
| Semaphores.PoolAlwaysExact | src/ksem.c:29-97 | free and allocated semaphore ids partition the table under any calls |
| Semaphores.AllocationSucceeds | src/ksem.c:54-71 | an allocation fails, without effect, exactly when all 16 are in use, and otherwise takes the first free id and initialises that entry |
| Semaphores.DestroyExact | src/ksem.c:78-97 | a destroy returns 0 exactly for an allocated id without waiters, which is then free and last in the pool; otherwise -1 and nothing changes |
| Semaphores.DestroyedComesBack | src/ksem.c:54-97 | a destroyed id is handed out again once the ids before it are taken |
| Semaphores.FirstIds | src/ksem.c:29-71 | from the start the ids 0 to 15 are handed out in turn, and then none |
| Witnesses.SleeperNotExamined | src/scheduler.c:38-57 | a state reached from boot with two sleepers, of whom a tick examines one |
| Witnesses.LastIdIsLost | src/kmutex.c:46-71 | a state reached from boot by sixteen allocations in which 15 mutexes are in use, id 15 is lost and the last caller was given -1 |
| Witnesses.DestroyStepExact | src/kmutex.c:78-97 | a destroy call of a running process keeps the pool in order if and only if the id was not free |
| Witnesses.LockStepExact | src/kmutex.c:104-140 | a lock call of a running process keeps the lock counts in order if and only if the id was allocated or out of range |
| Witnesses.FreeIdMisused | src/kmutex.c:78-140 | a state reached from boot in which both calls go wrong |
| Witnesses.WaiterForgotten | src/kmutex.c:46-71 | a state reached from boot from which two locks of a free id and one allocation leave a waiter in no queue |
| Witnesses.WaiterGetsNoCount | src/kmutex.c:104-140 | a state reached from boot in which the second process to lock a mutex waits with 12 in its result register |
| Witnesses.DeadOwnerInherited | src/kproc.c:99-193 | a state reached from boot with a full table in which a mutex has a dead owner, and the next process created inherits it |

## Left out

- The blocking branch of `ksem_wait` and the waking branch of `ksem_post`: the first uses the active process after it has been cleared, the second indexes the table by pid, so the code settles no behaviour to prove.
- Semaphore wait queues are values in the table, not shared queue objects; only their emptiness matters to allocation.
- Reachability.StepKeeps: leaves out calls of the idle process and locks or destroys of free ids, because they can break the invariant (`IdleSleepsAndRuns`, `DestroyStepExact`, `LockStepExact`).
- Reachability.RunExact: says nothing of what follows such a call; the call itself is in `StepExact`.
- Accounting.ReachableAccounts: leaves out runs with such calls for the same reason.
- KernelObjects.Kernel.KsyscallIrqHandler: the input/output, query and semaphore calls are one `Other` call with a given result, because they touch neither processes nor mutexes where they do not block.
- Process name, type, start time, stack and I/O buffers, and all of the trapframe but the result register.
- Context switch assembly, segment registers, the interrupt controller, and the user side of the system calls.
- Keyboard decoding and terminals: only that a key may create a process or destroy the active one.
- Logging, log levels and the orderly exit of the kernel.
- The user programs, except as the reason for the assumptions.
- Progress of waiters whose owner exits without unlocking: the code gives them none.
- Wrap-around of `int` counters, including a sleep time whose product with 100 overflows.
- Callbacks that register or unregister timers while the timer handler runs.
- RingBuffers.RingBuffer.ReadMem: returns the bytes themselves; that their number fits the `int` result follows from the buffer size.
