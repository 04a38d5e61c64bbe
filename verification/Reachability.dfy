/** Time slices, and the theorem that every kernel entry keeps the whole invariant. */
module Reachability {
  import opened Seqs
  import opened KernelModel
  import opened Invariant
  import opened Preservation

  /** One iteration of scheduler_timer leaves the active process alone and zeroes what it readies. */
  lemma TimerVisitCpu(k: Kernel, limit: int)
    requires Core(k, NULL) && CpuOk(k, limit) && k.sleep != []
    ensures CpuOk(TimerVisit(k), limit)
    ensures TimerVisit(k).active == k.active
    ensures k.active != NULL ==> TimerVisit(k).procs[k.active] == k.procs[k.active]
  {
    FloatSleepHead(k);
  }

  lemma {:induction false} TimerLoopCpu(k: Kernel, i: nat, limit: int)
    requires Core(k, NULL) && CpuOk(k, limit)
    ensures CpuOk(TimerLoop(k, i), limit)
    ensures TimerLoop(k, i).active == k.active
    ensures k.active != NULL ==> TimerLoop(k, i).procs[k.active] == k.procs[k.active]
    decreases |k.sleep| - i
  {
    TimerLoopIs(k, i);
    hide Core, CpuOk, TimerLoop, TimerVisit;
    if i < |k.sleep| {
      TimerVisitCpu(k, limit);
      TimerVisitKeeps(k);
      TimerLoopCpu(TimerVisit(k), i + 1, limit);
    }
  }

  lemma HandlerCpu(k: Kernel, e: Event)
    requires Core(k, NULL) && CpuOk(k, SCHEDULER_TIMESLICE) && Enabled(k, e)
    ensures CpuOk(IrqHandler(k, e), SCHEDULER_TIMESLICE + 1)
  {
    match e
    case Timer(_) =>
      ChargeKeeps(k);
      TimerLoopCpu(ChargeActive(k), 0, SCHEDULER_TIMESLICE + 1);
    case KeyNew(_) => CreateKeeps(k);
    case KeyQuit(_) => DestroyKeeps(k);
    case OtherIrq(_) =>
    case Syscall(c) => CallCpu(k, c);
  }

  lemma CallCpu(k: Kernel, c: Call)
    requires Core(k, NULL) && CpuOk(k, SCHEDULER_TIMESLICE)
    requires k.active != NULL && k.procs[k.active].pid != 0 && CallAllowed(k, c)
    ensures CpuOk(CallEffect(k, c).0, SCHEDULER_TIMESLICE)
  {
    CallShape(k, c);
  }

  lemma SchedulerRunCpu(k: Kernel)
    requires Core(k, NULL) && CpuOk(k, SCHEDULER_TIMESLICE + 1)
    ensures CpuOk(SchedulerRun(k), SCHEDULER_TIMESLICE)
  {
    PreemptKeeps(k);
    PreemptCpu(k);
    DispatchCpu(Preempt(k));
    DropInactiveSame(k);
  }

  lemma PreemptCpu(k: Kernel)
    requires Core(k, NULL) && CpuOk(k, SCHEDULER_TIMESLICE + 1)
    ensures CpuOk(Preempt(k), SCHEDULER_TIMESLICE)
  {
  }

  lemma DispatchCpu(k: Kernel)
    requires Core(k, NULL) && CpuOk(k, SCHEDULER_TIMESLICE)
    ensures CpuOk(Dispatch(k), SCHEDULER_TIMESLICE)
  {
    if k.active == NULL {
      if k.run == [] { FloatIdle(k); } else { FloatRunHead(k); }
    }
  }

  /** Every kernel entry keeps the invariant, panics nowhere and ends with a process to run. */
  lemma StepKeeps(k: Kernel, e: Event)
    requires Inv(k) && Enabled(k, e)
    ensures Inv(Step(k, e))
    ensures Step(k, e).active != NULL
  {
    hide Core;
    var k1 := SetEax(k, EntryEax(e));
    var k2 := IrqHandler(k1, e);
    SetEaxKeeps(k, EntryEax(e));
    HandlerKeeps(k1, e);
    HandlerCpu(k1, e);
    SchedulerRunKeeps(k2);
    SchedulerRunCpu(k2);
  }

  // ----- From boot -----

  lemma {:induction false} CreateManyKeeps(n: nat)
    requires 1 <= n <= PROC_MAX
    ensures Inv(CreateMany(Zeroed(), n))
    ensures CreateMany(Zeroed(), n).active == NULL
  {
    hide Inv, KprocCreate, Zeroed;
    if n == 1 {
      FirstProcess();
    } else {
      CreateManyKeeps(n - 1);
      CreateInv(CreateMany(Zeroed(), n - 1));
    }
  }

  lemma CreateInv(k: Kernel)
    requires Inv(k) && k.active == NULL
    ensures Inv(KprocCreate(k).0) && KprocCreate(k).0.active == NULL
  {
    CreateKeeps(k);
  }

  /** The first process created is the idle process: pid 0 in entry 0. */
  lemma FirstProcess()
    ensures Inv(CreateMany(Zeroed(), 1)) && CreateMany(Zeroed(), 1).active == NULL
  {
    FirstCreated();
    var z := Zeroed();
    var k := CreateMany(z, 1);
    forall e: Slot ensures e in k.freeEntries <==> e >= 1 {
      assert e >= 1 ==> k.freeEntries[e - 1] == e;
    }
    hide CreateMany;
    FirstInv(k);
  }

  lemma FirstInv(k: Kernel)
    requires k.procs[0] == FIRST_PCB && forall e: Slot | e >= 1 :: k.procs[e] == FREE_PCB
    requires k.nextPid == 1 && NoDup(k.freeEntries) && forall e: Slot :: e in k.freeEntries <==> e >= 1
    requires k.run == [0] && k.sleep == [] && k.active == NULL && !k.panicked
    requires forall m | 0 <= m < MUTEX_MAX :: k.mutexes[m] == FREE_MUTEX
    requires PoolOk(k.mutexes, k.freeMutexes)
    ensures Inv(k)
  {
    assert PidToProc(k.procs, 0) == 0;
    assert Placed(k, NULL);
  }

  const FIRST_PCB := Pcb(0, Idle, 0, 0, 0, RunQueue, 0)

  lemma FirstCreated()
    ensures var z := Zeroed();
            CreateMany(z, 1) ==
              z.(procs := z.procs[0 := FIRST_PCB], nextPid := 1, freeEntries := z.freeEntries[1..], run := [0])
  {
    var z := Zeroed();
    assert CreateMany(z, 0) == z;
    assert z.freeEntries[0] == 0;
    assert CreateMany(z, 1).procs == z.procs[0 := FIRST_PCB];
  }

  lemma BootInv()
    ensures Inv(Boot()) && Boot().active == NULL
  {
    CreateManyKeeps(BOOT_PROCESSES);
  }

  /** The kernel after n creations: processes 0 to n - 1 are ready in the entries of the same numbers. */
  function Created(n: nat): Kernel
    requires n <= 20 == PROC_MAX && MUTEX_MAX == 16
  {
    Kernel(seq(20, e => if e < n then Pcb(e, Idle, 0, 0, 0, RunQueue, 0) else FREE_PCB), n,
           seq(20 - n, i requires 0 <= i < 20 - n => n + i), seq(n, i => i), [], NULL,
           seq(16, m => Mutex(false, 0, NULL, [])), seq(16, m => m), false)
  }

  lemma {:induction false} CreateManyExact(n: nat)
    requires n <= 20
    ensures CreateMany(Zeroed(), n) == Created(n)
  {
    if n == 0 {
      assert Zeroed().freeEntries == Created(0).freeEntries;
      assert Zeroed() == Created(0);
    } else {
      CreateManyExact(n - 1);
      OneMore(n - 1);
      hide KprocCreate, Created, Zeroed;
      assert CreateMany(Zeroed(), n) == KprocCreate(CreateMany(Zeroed(), n - 1)).0;
    }
  }

  lemma OneMore(n: nat)
    requires n < 20
    ensures KprocCreate(Created(n)).0 == Created(n + 1)
  {
    var k, k' := Created(n), Created(n + 1);
    var v := Pcb(n, Idle, 0, 0, 0, NoQueue, 0);
    assert k.freeEntries[0] == n && k.freeEntries[1..] == k'.freeEntries;
    assert k.procs[n := v][n := v.(queue := RunQueue, state := Idle, cpuTime := 0)] == k'.procs;
    assert k.run + [n] == k'.run;
  }

  /** The state in which main enables interrupts: eleven ready processes, nine free entries, 16 free mutexes. */
  lemma BootExact()
    ensures Boot() == Created(11)
  {
    hide CreateMany, Created, Zeroed;
    CreateManyExact(11);
    assert BOOT_PROCESSES == 11;
  }

  lemma BootQueues()
    ensures Boot().run == [0, 1, 2, 3, 4, 5, 6, 7, 8, 9, 10]
    ensures Boot().freeEntries == [11, 12, 13, 14, 15, 16, 17, 18, 19]
  {
    hide Boot;
    BootExact();
  }

  lemma {:induction false} RunKeeps(k: Kernel, es: seq<Event>)
    requires Inv(k) && Legal(k, es)
    ensures Inv(Run(k, es))
    ensures es != [] ==> Run(k, es).active != NULL
    decreases |es|
  {
    if es != [] {
      StepKeeps(k, es[0]);
      RunKeeps(Step(k, es[0]), es[1..]);
    }
  }

  // ----- Panics -----

  /** Which single operations panic. */
  lemma OperationPanics(k: Kernel, e: Entry, time: int)
    requires !k.panicked
    ensures SchedulerAdd(k, e).panicked <==> e == NULL || |k.run| == 32
    ensures SchedulerRemove(k, e).panicked <==> e == NULL
    ensures SchedulerSleep(k, e, time).panicked <==> e == NULL
    ensures KprocDestroy(k, e).0.panicked <==> e == NULL
  {
  }

  lemma TimerVisitSticks(k: Kernel)
    requires k.sleep != [] && k.panicked
    ensures TimerVisit(k).panicked
  {
  }

  lemma {:induction false} TimerLoopSticks(k: Kernel, i: nat)
    requires k.panicked
    ensures TimerLoop(k, i).panicked
    decreases |k.sleep| - i
  {
    if i < |k.sleep| {
      TimerVisitSticks(k);
      hide TimerVisit;
      TimerLoopSticks(TimerVisit(k), i + 1);
      assert TimerLoop(k, i) == TimerLoop(TimerVisit(k), i + 1);
    }
  }

  lemma SchedulerRunSticks(k: Kernel)
    requires k.panicked
    ensures SchedulerRun(k).panicked
  {
    var b := Preempt(DropInactive(k));
    assert b.panicked;
    hide Preempt, DropInactive;
    assert Dispatch(b).panicked;
  }

  lemma HandlerSticks(k: Kernel, e: Event)
    requires k.panicked
    ensures IrqHandler(k, e).panicked
  {
    match e
    case Timer(_) => TimerLoopSticks(ChargeActive(k), 0);
    case KeyNew(_) =>
    case KeyQuit(_) => DestroySticks(k);
    case OtherIrq(_) =>
    case Syscall(c) =>
      if k.active != NULL { CallSticks(k, c); }
  }

  lemma DestroySticks(k: Kernel)
    requires k.panicked
    ensures KprocDestroy(k, k.active).0.panicked
  {
  }

  lemma CallSticks(k: Kernel, c: Call)
    requires k.panicked && k.active != NULL
    ensures CallEffect(k, c).0.panicked
  {
    if c.Exit? { DestroySticks(k); }
  }

  /** A panic is for ever. */
  lemma PanicSticks(k: Kernel, e: Event)
    requires k.panicked
    ensures Step(k, e).panicked
  {
    var k1 := SetEax(k, EntryEax(e));
    HandlerSticks(k1, e);
    SchedulerRunSticks(IrqHandler(k1, e));
  }

  lemma {:induction false} RunSticks(k: Kernel, es: seq<Event>)
    requires k.panicked
    ensures Run(k, es).panicked
    decreases |es|
  {
    if es != [] {
      hide Step;
      PanicSticks(k, es[0]);
      RunSticks(Step(k, es[0]), es[1..]);
    }
  }

  /** All that the scheduler needs in order not to panic. */
  predicate Schedulable(k: Kernel) {
    && !k.panicked && |k.run| < QUEUE_SIZE
    && PidToProc(k.procs, 0) != NULL
    && forall p | p in k.run :: PidToProc(k.procs, p) != NULL
  }

  lemma CoreSchedulable(k: Kernel)
    requires Core(k, NULL)
    ensures Schedulable(k)
  {
    QueueBound(k.procs, k.run);
  }

  lemma PreemptSchedulable(k: Kernel)
    requires Schedulable(k)
    ensures !Preempt(k).panicked
    ensures Preempt(k).active == NULL ==>
              PidToProc(Preempt(k).procs, if Preempt(k).run == [] then 0 else Preempt(k).run[0]) != NULL
  {
    LookupSame(k.procs, Preempt(k).procs);
    assert k.run != [] ==> k.run[0] in k.run;
  }

  lemma ScheduledWithoutPanic(k: Kernel)
    requires Schedulable(k)
    ensures !SchedulerRun(k).panicked
  {
    var d := DropInactive(k);
    PreemptSchedulable(d);
    hide Preempt, Schedulable;
    assert SchedulerRun(k) == Dispatch(Preempt(d));
  }

  /** Whatever keeps the run queue and the pids. */
  lemma StaysSchedulable(k: Kernel, k': Kernel)
    requires Schedulable(k) && !k'.panicked && k'.run == k.run
    requires forall e: Slot :: k'.procs[e].pid == k.procs[e].pid
    ensures Schedulable(k')
  {
    LookupSame(k.procs, k'.procs);
  }

  /** The calls that Enabled leaves out: by the idle process, and with a free mutex id. */
  lemma OddCall(k: Kernel, c: Call)
    requires Core(k, NULL) && k.active != NULL && !c.Invalid?
    requires k.procs[k.active].pid == 0 || !CallAllowed(k, c)
    ensures Schedulable(CallEffect(k, c).0)
  {
    CoreSchedulable(k);
    match c
    case Sleep(seconds) => OddSleep(k, seconds * 100);
    case MutexInit =>
      MutexInitKeeps(k);
      CoreSchedulable(KmutexInit(k).0);
    case MutexLock(id) => OddLock(k, id);
    case MutexUnlock(id) =>
      MutexUnlockKeeps(k, id);
      CoreSchedulable(KmutexUnlock(k, id).0);
    case _ => StaysSchedulable(k, CallEffect(k, c).0);
  }

  lemma OddSleep(k: Kernel, time: int)
    requires Core(k, NULL) && k.active != NULL
    ensures Schedulable(SchedulerSleep(k, k.active, time))
  {
    CoreSchedulable(k);
    FloatActive(k);
    RemoveActive(k.(procs := k.procs[k.active := k.procs[k.active].(sleepTime := time)]));
    StaysSchedulable(k, SchedulerSleep(k, k.active, time));
  }

  lemma OddLock(k: Kernel, id: int)
    requires Core(k, NULL) && k.active != NULL
    ensures Schedulable(KmutexLock(k, id).0)
  {
    CoreSchedulable(k);
    if 0 <= id < MUTEX_MAX && k.mutexes[id].locks > 0 {
      FloatActive(k);
      var m := k.mutexes[id];
      RemoveActive(k.(mutexes := k.mutexes[id := m.(waiters := QueueIn(m.waiters, k.procs[k.active].pid))],
                      procs := k.procs[k.active := k.procs[k.active].(state := Waiting)]));
    }
    StaysSchedulable(k, KmutexLock(k, id).0);
  }

  lemma OddStep(k: Kernel, c: Call)
    requires Inv(k) && k.active != NULL && !c.Invalid?
    requires k.procs[k.active].pid == 0 || !CallAllowed(k, c)
    ensures !Step(k, Syscall(c)).panicked
  {
    hide Core, Schedulable, SchedulerRun;
    var k1 := SetEax(k, CallNumber(c));
    SetEaxKeeps(k, CallNumber(c));
    OddCall(k1, c);
    var (k2, rc) := CallEffect(k1, c);
    hide CallEffect;
    SetEaxSchedulable(k2, rc);
    assert Step(k, Syscall(c)) == SchedulerRun(SetEax(k2, rc));
    ScheduledWithoutPanic(SetEax(k2, rc));
  }

  lemma SetEaxSchedulable(k: Kernel, eax: int)
    requires Schedulable(k)
    ensures Schedulable(SetEax(k, eax))
  {
    StaysSchedulable(k, SetEax(k, eax));
  }

  /**
   Any kernel entry from a state that satisfies the invariant panics exactly on a fatal event;
   an enabled one keeps the invariant and leaves a process to run.
   */
  lemma StepExact(k: Kernel, e: Event)
    requires Inv(k)
    ensures Step(k, e).panicked <==> Fatal(k, e)
    ensures Enabled(k, e) ==> !Fatal(k, e) && Inv(Step(k, e)) && Step(k, e).active != NULL
  {
    if Fatal(k, e) {
      FatalStep(k, e);
    } else if Enabled(k, e) {
      StepKeeps(k, e);
    } else {
      OddStep(k, e.call);
    }
  }

  lemma FatalStep(k: Kernel, e: Event)
    requires Fatal(k, e)
    ensures Step(k, e).panicked
  {
    var k1 := SetEax(k, EntryEax(e));
    assert IrqHandler(k1, e).panicked;
    SchedulerRunSticks(IrqHandler(k1, e));
  }

  /** A run panics exactly when it hits a fatal event; until then the invariant holds. */
  lemma {:induction false} RunExact(k: Kernel, es: seq<Event>)
    requires Inv(k) && Admissible(k, es)
    ensures Run(k, es).panicked <==> HitsFatal(k, es)
    ensures !HitsFatal(k, es) ==> Legal(k, es) && Inv(Run(k, es))
    decreases |es|
  {
    if es == [] {
      assert !k.panicked;
    } else {
      StepExact(k, es[0]);
      if Fatal(k, es[0]) {
        RunSticks(Step(k, es[0]), es[1..]);
      } else {
        hide Inv, Step, Enabled, Fatal;
        RunExact(Step(k, es[0]), es[1..]);
      }
    }
  }
}
