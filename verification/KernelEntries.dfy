/**
 What each kernel entry does to the whole state, from any state that satisfies the invariant:
 one closed form for each interrupt and each system call, the saved registers included.
 */
module KernelEntries {
  import opened Seqs
  import opened KernelModel
  import opened Invariant
  import opened Preservation
  import opened Reachability
  import opened SleepTick
  import opened BoundedWaiting
  import opened SleepingRuns
  import opened MutexRuns
  import opened SyscallResults

  // ----- The scheduler -----

  /** The head of the run queue, or the idle process if there is none, is made ACTIVE. */
  function Dispatched(k: Kernel): Kernel {
    var f := if k.run == [] then 0 else PidToProc(k.procs, k.run[0]);
    if f == NULL then k
    else k.(active := f, run := if k.run == [] then [] else k.run[1..],
            procs := k.procs[f := k.procs[f].(state := Active)])
  }

  /** The active process is ready again, with a new time slice; all but the idle process queue up. */
  function Requeued(k: Kernel): Kernel
    requires k.active != NULL
  {
    var p := k.procs[k.active];
    k.(active := NULL, run := if p.pid == 0 then k.run else k.run + [p.pid],
       procs := k.procs[k.active := p.(state := Idle, cpuTime := 0)])
  }

  lemma DispatchIs(k: Kernel)
    requires Core(k, NULL) && k.active == NULL
    ensures Dispatch(k) == Dispatched(k)
  {
    if k.run == [] { FloatIdle(k); } else { FloatRunHead(k); }
  }

  lemma PreemptIs(k: Kernel)
    requires Core(k, NULL) && k.active != NULL && k.procs[k.active].cpuTime >= 10
    ensures Preempt(k) == Requeued(k)
  {
    var a := k.active;
    var p := k.procs[a];
    assert Home(k, a);
    QueueBound(k.procs, k.run);
    var t := k.procs[a := p.(cpuTime := 0)];
    assert t[a := t[a].(queue := RunQueue, state := Idle, cpuTime := 0)] == Requeued(k).procs;
    assert t[a := t[a].(state := Idle)] == Requeued(k).procs;
  }

  /** scheduler_run: a process keeps the processor until it has used ten ticks. */
  lemma SchedulerExact(k: Kernel)
    requires Core(k, NULL)
    ensures SchedulerRun(k)
         == if k.active == NULL then Dispatched(k)
            else if k.procs[k.active].cpuTime < 10 then k
            else Dispatched(Requeued(k))
  {
    if k.active != NULL && k.procs[k.active].cpuTime < 10 {
      GoesOn(k);
    } else {
      DropInactiveSame(k);
      if k.active != NULL {
        PreemptIs(k);
      }
      PreemptKeeps(k);
      hide Core, Dispatch, Dispatched, Requeued;
      DispatchIs(Preempt(k));
    }
  }

  /** In any state, an active process that is not ACTIVE is dropped. */
  lemma DropExact(k: Kernel)
    requires k.active != NULL && k.procs[k.active].state != Active
    ensures SchedulerRun(k) == SchedulerRun(k.(active := NULL))
  {
  }

  // ----- Interrupts -----

  /** The register of the interrupted process. */
  function Saved(k: Kernel, eax: int): Kernel {
    if k.active == NULL then k else k.(procs := k.procs[k.active := k.procs[k.active].(eax := eax)])
  }

  lemma SavedKeeps(k: Kernel, e: Event)
    requires Inv(k) && !e.Syscall?
    ensures SetEax(k, EntryEax(e)) == Saved(k, e.eax)
    ensures Core(Saved(k, e.eax), NULL) && CpuOk(Saved(k, e.eax), 10)
  {
    SetEaxKeeps(k, e.eax);
  }

  /** An interrupt whose handler leaves the processes alone. */
  lemma OtherIrqExact(k: Kernel, x: int)
    requires Inv(k)
    ensures Step(k, OtherIrq(x)) == if k.active == NULL then Dispatched(k) else Saved(k, x)
  {
    var e := OtherIrq(x);
    SavedKeeps(k, e);
    SchedulerExact(Saved(k, x));
  }

  /** Ctrl-N: a full table stays as it is; otherwise the first free entry gets the next pid. */
  lemma KeyNewExact(k: Kernel, x: int)
    requires Inv(k)
    ensures var s := Saved(k, x);
            var c := if k.freeEntries == [] then s
                     else s.(procs := s.procs[k.freeEntries[0] := Pcb(k.nextPid, Idle, 0, 0, 0, RunQueue, 0)],
                             nextPid := k.nextPid + 1, freeEntries := k.freeEntries[1..],
                             run := k.run + [k.nextPid]);
            Step(k, KeyNew(x)) == if k.active == NULL then Dispatched(c) else c
  {
    var s := Saved(k, x);
    SavedKeeps(k, KeyNew(x));
    CreateExact(s);
    CreateKeeps(s);
    SchedulerExact(KprocCreate(s).0);
    if k.freeEntries != [] && k.active != NULL {
      assert k.freeEntries[0] in k.freeEntries;
    }
  }

  /** kproc_create: -1 and no effect without a free entry. */
  lemma CreateExact(k: Kernel)
    requires Core(k, NULL)
    ensures k.freeEntries == [] ==> KprocCreate(k) == (k, -1)
    ensures k.freeEntries != [] ==>
              KprocCreate(k) ==
                (k.(procs := k.procs[k.freeEntries[0] := Pcb(k.nextPid, Idle, 0, 0, 0, RunQueue, 0)],
                    nextPid := k.nextPid + 1, freeEntries := k.freeEntries[1..], run := k.run + [k.nextPid]),
                 k.nextPid)
  {
    CreateKeeps(k);
  }

  /** Ctrl-Q: the idle process is spared; any other active process ends and the next one runs. */
  lemma KeyQuitExact(k: Kernel, x: int)
    requires Inv(k) && k.active != NULL
    ensures Step(k, KeyQuit(x))
         == if k.procs[k.active].pid == 0 then Saved(k, x)
            else Dispatched(k.(procs := k.procs[k.active := FREE_PCB],
                               freeEntries := k.freeEntries + [k.active], active := NULL))
  {
    hide Core;
    var s := Saved(k, x);
    SavedKeeps(k, KeyQuit(x));
    DestroyKeeps(s);
    SchedulerExact(KprocDestroy(s, s.active).0);
    if k.procs[k.active].pid != 0 {
      ExitedIs(k, x);
    } else {
      assert KprocDestroy(s, s.active).0 == s;
    }
  }

  lemma ExitedIs(k: Kernel, x: int)
    requires k.active != NULL
    ensures Exited(Saved(k, x))
         == k.(procs := k.procs[k.active := FREE_PCB], freeEntries := k.freeEntries + [k.active], active := NULL)
  {
    assert Saved(k, x).procs[k.active := FREE_PCB] == k.procs[k.active := FREE_PCB];
  }

  /** The active process is charged for the tick. */
  function ChargedFor(k: Kernel, x: int): Kernel {
    if k.active == NULL then k
    else
      var p := k.procs[k.active];
      k.(procs := k.procs[k.active := p.(eax := x, runTime := p.runTime + 1, cpuTime := p.cpuTime + 1)])
  }

  /**
   A timer interrupt: the active process is charged, the first v sleepers are examined, and
   the tenth tick of a time slice ends it.
   */
  lemma TimerExact(k: Kernel, x: int)
    requires Inv(k)
    ensures var h := After(ChargedFor(k, x), Examined(ChargedFor(k, x)));
            Step(k, Timer(x)) ==
              if k.active == NULL then Dispatched(h)
              else if k.procs[k.active].cpuTime < 9 then h
              else Dispatched(Requeued(h))
  {
    var s := Saved(k, x);
    SavedKeeps(k, Timer(x));
    assert ChargeActive(s) == ChargedFor(k, x) by {
      if k.active != NULL {
        assert ChargeActive(s).procs == ChargedFor(k, x).procs;
      }
    }
    TimerEffect(s);
    TimerRun(s);
    SchedulerTimerKeeps(s);
    SchedulerExact(SchedulerTimer(s));
  }

  // ----- System calls -----

  /** A call whose caller stays active: its result is all that reaches the process table. */
  lemma CallerGoesOn(k: Kernel, c: Call, k2: Kernel, rc: int)
    requires Inv(k) && Enabled(k, Syscall(c))
    requires CallEffect(SetEax(k, CallNumber(c)), c) == (k2, rc)
    requires k2.active == k.active && k2.procs[k.active] == SetEax(k, CallNumber(c)).procs[k.active]
    ensures Step(k, Syscall(c))
         == k2.(procs := k2.procs[k.active := k.procs[k.active].(eax := rc)])
  {
    var k1 := SetEax(k, CallNumber(c));
    SetEaxKeeps(k, CallNumber(c));
    CallKeeps(k1, c);
    SetEaxKeeps(k2, rc);
    SchedulerExact(SetEax(k2, rc));
  }

  /** A call whose caller leaves the processor. */
  lemma CallerLeaves(k: Kernel, c: Call, k2: Kernel)
    requires Inv(k) && Enabled(k, Syscall(c))
    requires CallEffect(SetEax(k, CallNumber(c)), c).0 == k2 && k2.active == NULL
    ensures Step(k, Syscall(c)) == Dispatched(k2)
  {
    var k1 := SetEax(k, CallNumber(c));
    SetEaxKeeps(k, CallNumber(c));
    CallKeeps(k1, c);
    SchedulerExact(k2);
  }

  /** A call that touches neither processes nor mutexes hands its result to the caller. */
  lemma OtherExact(k: Kernel, n: int, rc: int)
    requires Inv(k) && Enabled(k, Syscall(Other(n, rc)))
    ensures Step(k, Syscall(Other(n, rc))) == Saved(k, rc)
  {
    var c := Other(n, rc);
    CallerGoesOn(k, c, SetEax(k, n), rc);
    assert SetEax(k, n).procs[k.active := k.procs[k.active].(eax := rc)] == Saved(k, rc).procs;
  }

  /** proc_sleep: the caller sleeps behind all others, and finds the number 6 when it wakes. */
  lemma SleepExact(k: Kernel, seconds: int)
    requires Inv(k) && Enabled(k, Syscall(Sleep(seconds)))
    ensures var p := k.procs[k.active];
            var v := p.(eax := 6, sleepTime := seconds * 100, state := Sleeping, queue := SleepQueue);
            Step(k, Syscall(Sleep(seconds))) ==
              Dispatched(k.(procs := k.procs[k.active := v], sleep := k.sleep + [p.pid], active := NULL))
  {
    var c := Sleep(seconds);
    var k1 := SetEax(k, 6);
    SetEaxKeeps(k, 6);
    SleepKeeps(k1, seconds * 100);
    CallerLeaves(k, c, Slept(k1, seconds * 100));
    var v := k.procs[k.active].(eax := 6, sleepTime := seconds * 100, state := Sleeping, queue := SleepQueue);
    assert Slept(k1, seconds * 100).procs == k.procs[k.active := v];
  }

  /** proc_exit: as Ctrl-Q. */
  lemma ExitExact(k: Kernel)
    requires Inv(k) && Enabled(k, Syscall(Exit))
    ensures Step(k, Syscall(Exit))
         == Dispatched(k.(procs := k.procs[k.active := FREE_PCB],
                          freeEntries := k.freeEntries + [k.active], active := NULL))
  {
    var k1 := SetEax(k, CallNumber(Exit));
    SetEaxKeeps(k, CallNumber(Exit));
    DestroyKeeps(k1);
    CallerLeaves(k, Exit, Exited(k1));
    assert k1 == Saved(k, CallNumber(Exit));
    ExitedIs(k, CallNumber(Exit));
  }

  /** A call that leaves its caller active and changes nothing else than mutexes and their pool. */
  lemma MutexCall(k: Kernel, c: Call, ms: MutexTable, pool: seq<int>, rc: int)
    requires Inv(k) && Enabled(k, Syscall(c))
    requires var k1 := SetEax(k, CallNumber(c));
             CallEffect(k1, c) == (k1.(mutexes := ms, freeMutexes := pool), rc)
    ensures Step(k, Syscall(c)) == Saved(k, rc).(mutexes := ms, freeMutexes := pool)
  {
    var k1 := SetEax(k, CallNumber(c));
    var k2 := k1.(mutexes := ms, freeMutexes := pool);
    assert k.active != NULL;
    hide CallEffect, Inv, Enabled, Step;
    CallerGoesOn(k, c, k2, rc);
    assert k2.procs[k.active := k.procs[k.active].(eax := rc)] == Saved(k, rc).procs;
  }

  /** mutex_init: the caller gets the first free id, unless it is the last, which is lost. */
  lemma MutexInitExact(k: Kernel)
    requires Inv(k) && Enabled(k, Syscall(MutexInit))
    ensures |k.freeMutexes| <= 1 ==> Step(k, Syscall(MutexInit)) == Saved(k, -1).(freeMutexes := [])
    ensures |k.freeMutexes| > 1 ==>
              var id := k.freeMutexes[0];
              && 0 <= id < MUTEX_MAX
              && Step(k, Syscall(MutexInit)) ==
                   Saved(k, id).(mutexes := k.mutexes[id := Mutex(true, 0, NULL, [])],
                                 freeMutexes := k.freeMutexes[1..])
  {
    var pool := k.freeMutexes;
    if |pool| <= 1 {
      MutexCall(k, MutexInit, k.mutexes, [], -1);
    } else {
      assert pool[0] in pool;
      MutexCall(k, MutexInit, k.mutexes[pool[0] := Mutex(true, 0, NULL, [])], pool[1..], pool[0]);
    }
  }

  /** mutex_destroy: 0 and the id is free again exactly for a mutex that is not locked. */
  lemma MutexDestroyExact(k: Kernel, id: int)
    requires Inv(k) && Enabled(k, Syscall(MutexDestroy(id)))
    ensures Step(k, Syscall(MutexDestroy(id))) ==
              if 0 <= id < MUTEX_MAX && k.mutexes[id].locks == 0
              then Saved(k, 0).(mutexes := k.mutexes[id := FREE_MUTEX], freeMutexes := k.freeMutexes + [id])
              else Saved(k, -1)
  {
    if 0 <= id < MUTEX_MAX && k.mutexes[id].locks == 0 {
      PoolBound(k.mutexes, k.freeMutexes);
      MutexCall(k, MutexDestroy(id), k.mutexes[id := FREE_MUTEX], k.freeMutexes + [id], 0);
    } else {
      assert 0 <= id < MUTEX_MAX ==> LockOk(k.mutexes[id]);
      MutexCall(k, MutexDestroy(id), k.mutexes, k.freeMutexes, -1);
    }
  }

  /** mutex_lock: -1, the mutex and the count 1, or a place at the end of its wait queue. */
  lemma MutexLockExact(k: Kernel, id: int)
    requires Inv(k) && Enabled(k, Syscall(MutexLock(id)))
    ensures !(0 <= id < MUTEX_MAX) ==> Step(k, Syscall(MutexLock(id))) == Saved(k, -1)
    ensures 0 <= id < MUTEX_MAX ==>
              var x, p := k.mutexes[id], k.procs[k.active];
              Step(k, Syscall(MutexLock(id))) ==
                if x.locks == 0 then Saved(k, 1).(mutexes := k.mutexes[id := x.(owner := k.active, locks := 1)])
                else Dispatched(k.(
                       procs := k.procs[k.active := p.(eax := 12, state := Waiting, queue := NoQueue)],
                       mutexes := k.mutexes[id := x.(waiters := x.waiters + [p.pid], locks := x.locks + 1)],
                       active := NULL))
  {
    var c := MutexLock(id);
    if !(0 <= id < MUTEX_MAX) {
      MutexCall(k, c, k.mutexes, k.freeMutexes, -1);
    } else if k.mutexes[id].locks == 0 {
      UncontendedLock(k, id);
    } else {
      assert LockOk(k.mutexes[id]);
      ContendedLock(k, id);
    }
  }

  lemma UncontendedLock(k: Kernel, id: int)
    requires Inv(k) && Enabled(k, Syscall(MutexLock(id))) && 0 <= id < MUTEX_MAX && k.mutexes[id].locks == 0
    ensures Step(k, Syscall(MutexLock(id)))
         == Saved(k, 1).(mutexes := k.mutexes[id := k.mutexes[id].(owner := k.active, locks := 1)])
  {
    var x, a := k.mutexes[id], k.active;
    var ms := k.mutexes[id := x.(owner := a, locks := 1)];
    assert k.mutexes[id := x.(owner := a)][id := x.(owner := a, locks := 1)] == ms;
    MutexCall(k, MutexLock(id), ms, k.freeMutexes, 1);
  }

  lemma ContendedLock(k: Kernel, id: int)
    requires Inv(k) && Enabled(k, Syscall(MutexLock(id))) && 0 <= id < MUTEX_MAX && k.mutexes[id].locks > 0
    ensures var x, p := k.mutexes[id], k.procs[k.active];
            Step(k, Syscall(MutexLock(id))) ==
              Dispatched(k.(procs := k.procs[k.active := p.(eax := 12, state := Waiting, queue := NoQueue)],
                            mutexes := k.mutexes[id := x.(waiters := x.waiters + [p.pid], locks := x.locks + 1)],
                            active := NULL))
  {
    var k1 := SetEax(k, 12);
    SetEaxKeeps(k, 12);
    LockBlocks(k1, id);
    CallerLeaves(k, MutexLock(id), Blocked(k1, id));
    var v := k.procs[k.active].(eax := 12, state := Waiting, queue := NoQueue);
    assert Blocked(k1, id).procs == k.procs[k.active := v];
  }

  /** mutex_unlock: -1 or 0 without effect, release, or hand-over to the first waiter. */
  lemma MutexUnlockExact(k: Kernel, id: int)
    requires Inv(k) && Enabled(k, Syscall(MutexUnlock(id)))
    ensures !(0 <= id < MUTEX_MAX) ==> Step(k, Syscall(MutexUnlock(id))) == Saved(k, -1)
    ensures 0 <= id < MUTEX_MAX ==>
              var x := k.mutexes[id];
              Step(k, Syscall(MutexUnlock(id))) ==
                if x.locks == 0 then Saved(k, 0)
                else if x.owner != k.active then Saved(k, -1)
                else if x.waiters == [] then
                  Saved(k, 0).(mutexes := k.mutexes[id := x.(owner := NULL, locks := 0)])
                else HandOverTo(Saved(k, x.locks - 1), id, PidToProc(k.procs, x.waiters[0]))
  {
    var c := MutexUnlock(id);
    if !(0 <= id < MUTEX_MAX) {
      MutexCall(k, c, k.mutexes, k.freeMutexes, -1);
    } else {
      var x := k.mutexes[id];
      assert LockOk(x);
      if x.locks == 0 {
        MutexCall(k, c, k.mutexes, k.freeMutexes, 0);
      } else if x.owner != k.active {
        MutexCall(k, c, k.mutexes, k.freeMutexes, -1);
      } else if x.waiters == [] {
        MutexCall(k, c, k.mutexes[id := x.(owner := NULL, locks := 0)], k.freeMutexes, 0);
      } else {
        ContendedUnlock(k, id);
      }
    }
  }

  /** The first waiter of a mutex owns it and is ready, last in the run queue. */
  function HandOverTo(k: Kernel, id: int, w: Entry): Kernel
    requires 0 <= id < MUTEX_MAX && k.mutexes[id].waiters != []
  {
    var x := k.mutexes[id];
    if w == NULL then k
    else k.(mutexes := k.mutexes[id := x.(waiters := x.waiters[1..], locks := x.locks - 1, owner := w)],
            procs := k.procs[w := k.procs[w].(queue := RunQueue, state := Idle, cpuTime := 0)],
            run := k.run + [x.waiters[0]])
  }

  lemma ContendedUnlock(k: Kernel, id: int)
    requires Inv(k) && Enabled(k, Syscall(MutexUnlock(id))) && 0 <= id < MUTEX_MAX
    requires k.mutexes[id].locks > 1 && k.mutexes[id].owner == k.active && k.mutexes[id].waiters != []
    ensures var x := k.mutexes[id]; var w := PidToProc(k.procs, x.waiters[0]);
            w != NULL && Step(k, Syscall(MutexUnlock(id))) == HandOverTo(Saved(k, x.locks - 1), id, w)
  {
    var c, x := MutexUnlock(id), k.mutexes[id];
    var w := PidToProc(k.procs, x.waiters[0]);
    UnlockEffect(k, id);
    hide Inv, Enabled, Step, CallEffect;
    CallerGoesOn(k, c, HandOverTo(Saved(k, CallNumber(c)), id, w), x.locks - 1);
    SavedTwice(k, id, w, CallNumber(c), x.locks - 1);
  }

  lemma UnlockEffect(k: Kernel, id: int)
    requires Inv(k) && k.active != NULL && 0 <= id < MUTEX_MAX
    requires k.mutexes[id].locks > 1 && k.mutexes[id].owner == k.active && k.mutexes[id].waiters != []
    ensures var x := k.mutexes[id]; var w := PidToProc(k.procs, x.waiters[0]); var n := CallNumber(MutexUnlock(id));
            && w !in {NULL, k.active}
            && CallEffect(SetEax(k, n), MutexUnlock(id)) == (HandOverTo(Saved(k, n), id, w), x.locks - 1)
            && SetEax(k, n) == Saved(k, n)
  {
    hide Core;
    var n := CallNumber(MutexUnlock(id));
    var k1 := SetEax(k, n);
    SetEaxKeeps(k, n);
    UnlockHandsOver(k1, id);
    LookupSame(k.procs, k1.procs);
  }

  lemma SavedTwice(k: Kernel, id: int, w: Entry, n: int, rc: int)
    requires k.active != NULL && w !in {NULL, k.active} && 0 <= id < MUTEX_MAX && k.mutexes[id].waiters != []
    ensures var k2 := HandOverTo(Saved(k, n), id, w);
            && k2.active == k.active && k2.procs[k.active] == Saved(k, n).procs[k.active]
            && k2.(procs := k2.procs[k.active := k.procs[k.active].(eax := rc)]) == HandOverTo(Saved(k, rc), id, w)
  {
    var k2 := HandOverTo(Saved(k, n), id, w);
    assert k2.procs[k.active := k.procs[k.active].(eax := rc)] == HandOverTo(Saved(k, rc), id, w).procs;
  }

  // ----- Registers over runs -----

  /** An interrupt saves the register of the process that it interrupts, unless it ends it. */
  lemma InterruptSaves(k: Kernel, e: Event)
    requires Inv(k) && Enabled(k, e) && k.active != NULL && !e.Syscall? && !Ends(k, e)
    ensures Step(k, e).procs[k.active].eax == e.eax && Live(Step(k, e).procs, k.active)
  {
    SavedKeeps(k, e);
    StepPids(k, e);
    assert Live(k.procs, k.active);
    InterruptEax(Saved(k, e.eax), e);
    hide Inv, Enabled, IrqHandler;
    SchedulerRunOnly(IrqHandler(Saved(k, e.eax), e));
  }

  lemma InterruptEax(k: Kernel, e: Event)
    requires Core(k, NULL) && k.active != NULL && !e.Syscall? && !Ends(k, e)
    ensures IrqHandler(k, e).procs[k.active].eax == k.procs[k.active].eax
  {
    match e
    case Timer(_) => SchedulerTimerOnly(k);
    case KeyNew(_) =>
      CreateKeeps(k);
      assert k.freeEntries != [] ==> k.freeEntries[0] in k.freeEntries;
    case KeyQuit(_) =>
    case OtherIrq(_) =>
  }

  /** An interrupted process finds, when it next runs, what its register held. */
  lemma InterruptedFindsItsRegister(k: Kernel, e: Event, es: seq<Event>)
    requires Inv(k) && Enabled(k, e) && k.active != NULL && !e.Syscall? && !Ends(k, e)
    requires Legal(Step(k, e), es) && IdlesThrough(Step(k, e), es, k.active)
    ensures Run(Step(k, e), es).procs[k.active].eax == e.eax
  {
    hide Inv, Enabled, Step, Legal, IdlesThrough, Run;
    InterruptSaves(k, e);
    StepKeeps(k, e);
    RunEax(Step(k, e), es, k.active);
  }

  // ----- Time slices over runs -----

  /** The events that take the processor from the active process whatever its time slice. */
  predicate Leaves(k: Kernel, e: Event) {
    Ends(k, e) || (e.Syscall? && Blocks(k, e.call))
  }

  ghost predicate KeepsGoing(k: Kernel, es: seq<Event>)
    decreases |es|
  {
    es == [] || (!Leaves(k, es[0]) && KeepsGoing(Step(k, es[0]), es[1..]))
  }

  /** The active process and the ticks it has used since it was dispatched. */
  ghost predicate HasUsed(k: Kernel, a: Entry, used: int) {
    k.active == a != NULL && k.procs[a].cpuTime == used
  }

  lemma StaysOn(k: Kernel, e: Event)
    requires Inv(k) && Enabled(k, e) && k.active != NULL && !Leaves(k, e)
    requires k.procs[k.active].cpuTime + Tick(e) <= 9
    ensures HasUsed(Step(k, e), k.active, k.procs[k.active].cpuTime + Tick(e))
    ensures Running(Step(k, e)) == Running(k)
  {
    assert k.procs[k.active].state == Active;
    match e
    case Timer(x) => TimerExact(k, x);
    case KeyNew(x) =>
      KeyNewExact(k, x);
      assert k.freeEntries != [] ==> k.freeEntries[0] in k.freeEntries;
    case KeyQuit(x) => KeyQuitExact(k, x);
    case OtherIrq(x) => OtherIrqExact(k, x);
    case Syscall(c) => ReturningCall(k, c);
  }

  lemma FirstOf(k: Kernel, es: seq<Event>)
    ensures es == [] ==> Ticks(es) == 0 && Legal(k, es) && KeepsGoing(k, es) && Run(k, es) == k
    ensures es != [] ==>
              && Ticks(es) == Tick(es[0]) + Ticks(es[1..])
              && (Legal(k, es) <==> Enabled(k, es[0]) && Legal(Step(k, es[0]), es[1..]))
              && (KeepsGoing(k, es) <==> !Leaves(k, es[0]) && KeepsGoing(Step(k, es[0]), es[1..]))
              && Run(k, es) == Run(Step(k, es[0]), es[1..])
  {
  }

  /** While it makes no blocking call and does not end, a process keeps the processor for nine ticks. */
  lemma {:induction false} KeepsProcessor(k: Kernel, es: seq<Event>)
    requires Inv(k) && Legal(k, es) && KeepsGoing(k, es) && k.active != NULL
    requires k.procs[k.active].cpuTime + Ticks(es) <= 9
    ensures HasUsed(Run(k, es), k.active, k.procs[k.active].cpuTime + Ticks(es))
    ensures Running(Run(k, es)) == Running(k) && Inv(Run(k, es))
    decreases |es|
  {
    hide Inv, Step, Enabled, Leaves, Running, Legal, KeepsGoing, Run, Ticks, Tick;
    FirstOf(k, es);
    if es != [] {
      var k' := Step(k, es[0]);
      StaysOn(k, es[0]);
      StepKeeps(k, es[0]);
      KeepsProcessor(k', es[1..]);
      assert k'.active == k.active && k'.procs[k.active].cpuTime == k.procs[k.active].cpuTime + Tick(es[0]);
    }
  }

  /** Who is dispatched has a new time slice. */
  lemma NewSlice(k: Kernel, e: Event)
    requires Inv(k) && Enabled(k, e) && Step(k, e).active != k.active
    ensures HasUsed(Step(k, e), Step(k, e).active, 0)
  {
    StepCpu(k, e);
  }

  /** The ready processes after a tick, before anybody is dispatched: those the tick wakes come last. */
  function ReadyAfterTick(k: Kernel, x: int): seq<int> {
    var c := ChargedFor(k, x);
    After(c, Examined(c)).run
  }

  /** The tenth tick of a time slice queues the process last, and the first in the queue runs. */
  lemma TenthTick(k: Kernel, x: int)
    requires Inv(k) && Running(k) > 0 && k.procs[k.active].cpuTime == 9
    ensures var q := ReadyAfterTick(k, x) + [Running(k)];
            && k.run <= ReadyAfterTick(k, x)
            && Running(Step(k, Timer(x))) == q[0] && Step(k, Timer(x)).run == q[1..]
            && HasUsed(Step(k, Timer(x)), Step(k, Timer(x)).active, 0)
  {
    var c := ChargedFor(k, x);
    var h := After(c, Examined(c));
    StepKeeps(k, Timer(x));
    TimerExact(k, x);
    RequeuedIs(k, x);
    hide Core, CpuOk, After, Dispatched, Requeued, Step;
    DispatchedHead(Requeued(h));
    NewSliceTick(k, x);
  }

  lemma RequeuedIs(k: Kernel, x: int)
    requires Inv(k) && Running(k) > 0
    ensures var c := ChargedFor(k, x); var h := After(c, Examined(c));
            && h.active == k.active && k.run <= h.run
            && Requeued(h).active == NULL && Requeued(h).run == h.run + [Running(k)]
  {
    assert k.procs[k.active].state == Active;
  }

  lemma DispatchedHead(k: Kernel)
    requires k.active == NULL && k.run != [] && Dispatched(k).active != NULL
    ensures Running(Dispatched(k)) == k.run[0] && Dispatched(k).run == k.run[1..]
  {
  }

  /** The processor changes hands on the tenth tick, even if to the same process. */
  lemma NewSliceTick(k: Kernel, x: int)
    requires Inv(k) && Running(k) > 0 && k.procs[k.active].cpuTime == 9
    ensures HasUsed(Step(k, Timer(x)), Step(k, Timer(x)).active, 0)
  {
    StepCpu(k, Timer(x));
    StepKeeps(k, Timer(x));
    assert Step(k, Timer(x)).procs[Step(k, Timer(x)).active].cpuTime < 10;
  }

  /**
   A time slice: a process that has just been dispatched, and that makes no blocking call and
   does not end, keeps the processor for nine ticks, whatever else happens; the tenth queues
   it last and runs the first in the queue.
   */
  lemma TimeSlice(k: Kernel, es: seq<Event>, x: int)
    requires Inv(k) && Legal(k, es) && KeepsGoing(k, es) && Running(k) > 0
    requires k.procs[k.active].cpuTime == 0 && Ticks(es) == 9
    ensures forall n | 0 <= n <= |es| :: Run(k, es[..n]).active == k.active
    ensures var k' := Run(k, es); var q := ReadyAfterTick(k', x) + [Running(k)];
            && k'.run <= ReadyAfterTick(k', x)
            && Running(Step(k', Timer(x))) == q[0] && Step(k', Timer(x)).run == q[1..]
  {
    hide Inv, Step, KeepsGoing, Legal, Run, ReadyAfterTick;
    forall n | 0 <= n <= |es| ensures Run(k, es[..n]).active == k.active {
      Prefix(k, es, n);
      KeepsProcessor(k, es[..n]);
    }
    KeepsProcessor(k, es);
    TenthTick(Run(k, es), x);
  }

  lemma {:induction false} Prefix(k: Kernel, es: seq<Event>, n: nat)
    requires Legal(k, es) && KeepsGoing(k, es) && n <= |es|
    ensures Legal(k, es[..n]) && KeepsGoing(k, es[..n]) && Ticks(es[..n]) <= Ticks(es)
    decreases n
  {
    FirstOf(k, es);
    FirstOf(k, es[..n]);
    hide Step, Enabled, Leaves, Legal, KeepsGoing, Ticks;
    if n > 0 {
      assert es[..n][0] == es[0] && es[..n][1..] == es[1..][..n - 1];
      Prefix(Step(k, es[0]), es[1..], n - 1);
    }
  }
}
