/** Reachable states at which the kernel departs from what its comments promise. */
module Witnesses {
  import opened Seqs
  import opened KernelModel
  import opened Invariant
  import opened Preservation
  import opened Reachability
  import opened SleepTick
  import opened BoundedWaiting
  import opened SleepingRuns
  import opened MutexRuns
  import opened SyscallResults
  import opened Accounting

  // ----- Reachable states -----

  /** The kernel after some kernel entries from boot, all of them well-behaved. */
  ghost predicate Reachable(k: Kernel) {
    exists es :: Legal(Boot(), es) && es != [] && Run(Boot(), es) == k
  }

  lemma {:induction false} Later(k: Kernel, es: seq<Event>, e: Event)
    requires Legal(k, es) && Enabled(Run(k, es), e)
    ensures Legal(k, es + [e]) && Run(k, es + [e]) == Step(Run(k, es), e)
    decreases |es|
  {
    hide Step, Enabled;
    if es == [] {
      assert es + [e] == [e] && [e][1..] == [];
      assert Run(k, [e]) == Run(Step(k, e), []);
    } else {
      assert (es + [e])[1..] == es[1..] + [e];
      Later(Step(k, es[0]), es[1..], e);
    }
  }

  lemma ReachableKeeps(k: Kernel)
    requires Reachable(k)
    ensures Inv(k) && k.active != NULL && 0 !in k.run
  {
    hide Inv, Legal, Run, Boot;
    var es :| Legal(Boot(), es) && es != [] && Run(Boot(), es) == k;
    BootInv();
    RunKeeps(Boot(), es);
    BootQueues();
    RunIdleUnqueued(Boot(), es);
  }

  lemma ReachableStep(k: Kernel, e: Event)
    requires Reachable(k) && Enabled(k, e)
    ensures Reachable(Step(k, e))
  {
    hide Legal, Run, Boot, Step, Enabled;
    var es :| Legal(Boot(), es) && es != [] && Run(Boot(), es) == k;
    Later(Boot(), es, e);
    assert es + [e] != [];
  }

  // ----- The first process after the idle one -----

  /** Nobody sleeps, no mutex is in use, and the process in entry d, not the idle one, exists. */
  ghost predicate Calm(k: Kernel, d: int) {
    && Inv(k) && k.sleep == [] && k.mutexes == Zeroed().mutexes && k.freeMutexes == Zeroed().freeMutexes
    && 1 <= d < PROC_MAX && Live(k.procs, d)
  }

  lemma CalmTick(k: Kernel, d: int)
    requires Calm(k, d)
    ensures Calm(Step(k, Timer(0)), d) && Step(k, Timer(0)).procs[d].pid == k.procs[d].pid
  {
    var e := Timer(0);
    hide Step;
    StepKeeps(k, e);
    StepMutexes(k, e);
    StepPids(k, e);
    LoadStep(k, e);
    LoadPositive(Step(k, e).procs, Step(k, e).sleep);
  }

  lemma {:induction false} CalmTicks(k: Kernel, d: int, n: nat)
    requires Calm(k, d)
    ensures Calm(Run(k, Timers(n, 0)), d) && Run(k, Timers(n, 0)).procs[d].pid == k.procs[d].pid
    decreases n
  {
    var es := Timers(n, 0);
    if n > 0 {
      assert es[0] == Timer(0) && es[1..] == Timers(n - 1, 0);
      hide Calm, Step, Timers;
      CalmTick(k, d);
      CalmTicks(Step(k, es[0]), d, n - 1);
    }
  }

  lemma BootCalm() returns (d: int)
    ensures Calm(Boot(), d) && Boot().procs[d].pid == 2
    ensures |Boot().run| > 1 && Boot().run[1] == 1
  {
    BootInv();
    BootMutexes(BOOT_PROCESSES);
    BootQueues();
    BootExact();
    assert Boot().run[2] == 2;
    d := PidToProc(Boot().procs, 2);
  }

  /** Some ticks after boot process 1 runs and process 2 is ready. */
  lemma Start() returns (k: Kernel)
    ensures Reachable(k) && Inv(k) && Running(k) == 1 && 2 in k.run
    ensures k.sleep == [] && k.mutexes == Zeroed().mutexes && k.freeMutexes == Zeroed().freeMutexes
  {
    hide Boot, Legal, Run, RunsDuring, Inv, Timers, Zeroed;
    var d := BootCalm();
    BootInv();
    ReadyRuns(Boot(), 1, 0);
    var n := FirstTicks(10 * 2, 1);
    TimersLegal(Boot(), n, 0);
    CalmTicks(Boot(), d, n);
    k := Run(Boot(), Timers(n, 0));
    CalmReady(k, d);
  }

  lemma FirstTicks(m: nat, p: int) returns (n: nat)
    requires RunsDuring(Boot(), Timers(m, 0), p) && Boot().active == NULL && p >= 0
    ensures n > 0 && Timers(n, 0) != [] && Running(Run(Boot(), Timers(n, 0))) == p
  {
    hide Boot;
    n :| RunsAfter(Boot(), Timers(m, 0), n, p);
    assert Timers(m, 0)[..n] == Timers(n, 0);
    assert n == 0 ==> Timers(n, 0) == [];
    assert Run(Boot(), []) == Boot();
  }

  lemma CalmReady(k: Kernel, d: int)
    requires Calm(k, d) && Running(k) != k.procs[d].pid
    ensures k.procs[d].pid in k.run
  {
    assert Home(k, d);
  }

  // ----- A sleeper that a tick passes over -----

  /** With a process ready, what runs after a call that does not end the caller is not the idle process. */
  lemma NextRuns(k: Kernel, e: Event)
    requires Inv(k) && Enabled(k, e) && Running(k) > 0 && !Ends(k, e) && k.run != [] && 0 !in k.run
    ensures Running(Step(k, e)) > 0
  {
    hide Core, Step, Enabled, Ends, Live;
    var b := BeforeDispatch(k, e);
    StepRun(k, e);
    StepKeeps(k, e);
    DispatchRun(b);
    if b.active == NULL {
      IdleStillUnqueued(k.run, b.run);
      assert b.run[0] in b.run;
      NotNegative(Step(k, e));
    } else {
      ActivePid(k, e);
    }
  }

  lemma NotNegative(k: Kernel)
    requires Inv(k) && k.active != NULL
    ensures Running(k) >= 0
  {
    assert Live(k.procs, k.active);
  }

  lemma ActivePid(k: Kernel, e: Event)
    requires Inv(k) && Enabled(k, e) && k.active != NULL && !Ends(k, e) && Step(k, e).active == k.active
    ensures Running(Step(k, e)) == Running(k)
  {
    hide Step, Enabled, Ends;
    assert Live(k.procs, k.active);
    StepPids(k, e);
  }

  /** The active process goes to sleep and another one runs. */
  lemma Asleep(k: Kernel, seconds: int) returns (k': Kernel)
    requires Reachable(k) && Running(k) > 0
    ensures k' == Step(k, Syscall(Sleep(seconds))) && Reachable(k')
    ensures k'.sleep == k.sleep + [Running(k)]
    ensures Remaining(k', Running(k)) == (if seconds >= 0 then 100 * seconds + 2 else 1)
    ensures k.run != [] ==> Running(k') > 0
  {
    var e := Syscall(Sleep(seconds));
    hide Reachable, Inv, Step, Remaining;
    k' := Step(k, e);
    ReachableKeeps(k);
    FallAsleep(k, seconds);
    ReachableStep(k, e);
    if k.run != [] {
      NextRuns(k, e);
    }
  }

  /** A first sleeper keeps its place while somebody else goes to sleep. */
  lemma StillAsleep(k: Kernel, seconds: int)
    requires Inv(k) && Running(k) > 0 && k.sleep != []
    ensures var k' := Step(k, Syscall(Sleep(seconds)));
            k'.sleep != [] && k'.sleep[0] == k.sleep[0] && Remaining(k', k.sleep[0]) == Remaining(k, k.sleep[0])
  {
    hide Inv, Step, Remaining;
    QuietSleeper(k, Syscall(Sleep(seconds)), 0);
  }

  lemma OnlyFirst(k: Kernel)
    requires Inv(k) && |k.sleep| == 2 && Remaining(k, k.sleep[0]) == 1
    ensures Visited(k, Timer(0)) == 1
  {
    hide Inv, Visited;
    TickExaminesAll(k, Timer(0));
    assert SleepTime(k.procs, k.sleep[0]) < 0;
    assert 0 <= 0 < |k.sleep| - 1;
    LoadStep(k, Timer(0));
  }

  /** Of two sleepers, the first due and the second not, a tick examines only the first. */
  lemma SleeperNotExamined()
    ensures exists k :: Reachable(k) && |k.sleep| == 2 && Visited(k, Timer(0)) == 1
  {
    hide Inv, Reachable, Step, Visited, Remaining, Running, Zeroed;
    var k := Start();
    var k1 := Asleep(k, -1);
    assert k1.sleep == [1];
    var k2 := Asleep(k1, 0);
    ReachableKeeps(k1);
    ReachableKeeps(k2);
    StillAsleep(k1, 0);
    OnlyFirst(k2);
  }

  // ----- Mutex ids -----

  /** kmutex_init takes the first free id; its caller goes on running. */
  lemma InitStep(k: Kernel)
    requires Inv(k) && k.active != NULL && k.procs[k.active].pid != 0 && k.freeMutexes != []
    ensures var k' := Step(k, Syscall(MutexInit)); var id := k.freeMutexes[0];
            && k'.active == k.active && Running(k') == Running(k)
            && k'.freeMutexes == k.freeMutexes[1..] && k'.run == k.run && k'.freeEntries == k.freeEntries
            && (|k.freeMutexes| == 1 ==> k'.procs[k'.active].eax == -1)
            && (|k.freeMutexes| > 1 && 0 <= id < MUTEX_MAX ==>
                  k'.mutexes == k.mutexes[id := Mutex(true, 0, NULL, [])])
  {
    var e := Syscall(MutexInit);
    var k1 := SetEax(k, SYSCALL_MUTEX_INIT);
    var (k2, rc) := KmutexInit(k1);
    SetEaxKeeps(k, SYSCALL_MUTEX_INIT);
    MutexInitKeeps(k1);
    SetEaxKeeps(k2, rc);
    assert IrqHandler(k1, e) == SetEax(k2, rc);
    hide SchedulerRun;
    GoesOn(SetEax(k2, rc));
  }

  /** The active process initialises mutexes until one free id is left. */
  lemma {:induction false} InitsButOne(k: Kernel) returns (k': Kernel)
    requires Reachable(k) && Running(k) > 0 && k.freeMutexes != [] && Dropped(k) == {}
    ensures Reachable(k') && Running(k') > 0 && Dropped(k') == {}
    ensures k'.freeMutexes == k.freeMutexes[|k.freeMutexes| - 1..]
    decreases |k.freeMutexes|
  {
    hide Reachable, Inv, Dropped, Step;
    k' := k;
    if |k.freeMutexes| > 1 {
      k' := OneInit(k);
      k' := InitsButOne(k');
    }
  }

  lemma OneInit(k: Kernel) returns (k': Kernel)
    requires Reachable(k) && Running(k) > 0 && k.freeMutexes != []
    ensures k' == Step(k, Syscall(MutexInit)) && Reachable(k') && Running(k') > 0
    ensures k'.freeMutexes == k.freeMutexes[1..]
    ensures |k.freeMutexes| == 1 ==> k'.procs[k'.active].eax == -1
    ensures Dropped(k') == Dropped(k) + (if |k.freeMutexes| == 1 then {k.freeMutexes[0]} else {})
    ensures |k'.freeMutexes| + |InUse(k'.mutexes)| + |Dropped(k')| == MUTEX_MAX
  {
    hide Reachable, Core, Dropped, Step, InUse;
    k' := Step(k, Syscall(MutexInit));
    ReachableKeeps(k);
    ReachableStep(k, Syscall(MutexInit));
    ReachableKeeps(k');
    InitStep(k);
    PoolAddsUp(k);
    StepIds(k, Syscall(MutexInit));
    PoolAddsUp(k');
  }

  lemma PoolAddsUp(k: Kernel)
    requires Inv(k)
    ensures |k.freeMutexes| + |InUse(k.mutexes)| + |Dropped(k)| == MUTEX_MAX
    ensures NoDup(k.freeMutexes)
  {
    IdsAddUp(k);
  }

  /** Sixteen calls of kmutex_init allocate 15 mutexes and lose the last id. */
  lemma LastIdIsLost()
    ensures exists k :: Reachable(k) && Dropped(k) == {15} && |InUse(k.mutexes)| == 15
                        && k.active != NULL && k.procs[k.active].eax == -1
  {
    hide Reachable, Inv, Dropped, InUse, Step;
    var k := Start();
    AllFree(k);
    k := InitsButOne(k);
    assert k.freeMutexes == [15];
    k := OneInit(k);
    ReachableKeeps(k);
  }

  lemma AllFree(k: Kernel)
    requires k.freeMutexes == Zeroed().freeMutexes
    ensures Dropped(k) == {} && |k.freeMutexes| == MUTEX_MAX && k.freeMutexes[MUTEX_MAX - 1] == 15
  {
    forall m | 0 <= m < MUTEX_MAX ensures m in k.freeMutexes {
      assert k.freeMutexes[m] == m;
    }
  }

  /** The mutexes after a call, whether or not it is well-behaved. */
  lemma AfterCall(k: Kernel, c: Call)
    requires k.active != NULL
    ensures var k1 := SetEax(k, CallNumber(c)); var k' := Step(k, Syscall(c));
            k'.mutexes == CallEffect(k1, c).0.mutexes && k'.freeMutexes == CallEffect(k1, c).0.freeMutexes
  {
    var k1 := SetEax(k, CallNumber(c));
    SchedulerRunOnly(IrqHandler(k1, Syscall(c)));
    hide SchedulerRun;
  }

  /** The pool after a destroy by a running process keeps its ids apart exactly if the id was not free. */
  lemma DestroyStepExact(k: Kernel, id: int)
    requires Inv(k) && Running(k) > 0
    ensures var k' := Step(k, Syscall(MutexDestroy(id)));
            PoolOk(k'.mutexes, k'.freeMutexes) <==> id !in k.freeMutexes
  {
    hide Core, Step, PoolOk, KmutexDestroy;
    SetEaxKeeps(k, SYSCALL_MUTEX_DESTROY);
    DestroyExact(SetEax(k, SYSCALL_MUTEX_DESTROY), id);
    AfterCall(k, MutexDestroy(id));
  }

  /** The mutexes after a lock by a running process are in order exactly if the id was allocated or out of range. */
  lemma LockStepExact(k: Kernel, id: int)
    requires Inv(k) && Running(k) > 0
    ensures LocksOk(Step(k, Syscall(MutexLock(id))).mutexes) <==> CallAllowed(k, MutexLock(id))
  {
    hide Core, Step, LocksOk, KmutexLock;
    SetEaxKeeps(k, SYSCALL_MUTEX_LOCK);
    LockExact(SetEax(k, SYSCALL_MUTEX_LOCK), id);
    AfterCall(k, MutexLock(id));
  }

  ghost predicate BreaksPool(k: Kernel, e: Event) {
    var k' := Step(k, e);
    !PoolOk(k'.mutexes, k'.freeMutexes)
  }

  /** Soon after boot process 1 can do both to mutex 0, which nobody has allocated. */
  lemma FreeIdMisused()
    ensures exists k :: Reachable(k) && Running(k) == 1
                        && BreaksPool(k, Syscall(MutexDestroy(0)))
                        && !LocksOk(Step(k, Syscall(MutexLock(0))).mutexes)
  {
    hide Reachable, Inv, Step, PoolOk, LocksOk, Running;
    var k := Start();
    assert k.freeMutexes[0] == 0;
    DestroyStepExact(k, 0);
    LockStepExact(k, 0);
  }

  // ----- A waiter that is forgotten -----

  /** k' is k but for which mutexes are allocated. */
  ghost predicate PoolAside(k: Kernel, k': Kernel) {
    && k' == k.(mutexes := k'.mutexes, freeMutexes := k'.freeMutexes)
    && forall m | 0 <= m < MUTEX_MAX :: k'.mutexes[m] == k.mutexes[m].(inUse := k'.mutexes[m].inUse)
  }

  lemma SchedulerAside(k: Kernel, k': Kernel)
    requires PoolAside(k, k')
    ensures PoolAside(SchedulerRun(k), SchedulerRun(k')) && SchedulerRun(k').freeMutexes == k'.freeMutexes
  {
    var d, d' := DropInactive(k), DropInactive(k');
    PreemptAside(d, d');
    DispatchAside(Preempt(d), Preempt(d'));
    hide Preempt, Dispatch, PoolAside;
    assert SchedulerRun(k) == Dispatch(Preempt(d)) && SchedulerRun(k') == Dispatch(Preempt(d'));
  }

  lemma PreemptAside(k: Kernel, k': Kernel)
    requires PoolAside(k, k')
    ensures PoolAside(Preempt(k), Preempt(k')) && Preempt(k').freeMutexes == k'.freeMutexes
  {
  }

  lemma DispatchAside(k: Kernel, k': Kernel)
    requires PoolAside(k, k')
    ensures PoolAside(Dispatch(k), Dispatch(k')) && Dispatch(k').freeMutexes == k'.freeMutexes
  {
  }

  /** A lock does not look at the allocation. */
  lemma LockAside(k: Kernel, k': Kernel, id: int)
    requires PoolAside(k, k') && k.active != NULL
    ensures PoolAside(Step(k, Syscall(MutexLock(id))), Step(k', Syscall(MutexLock(id))))
    ensures Step(k', Syscall(MutexLock(id))).freeMutexes == k'.freeMutexes
  {
    var e := Syscall(MutexLock(id));
    var k1, k1' := SetEax(k, SYSCALL_MUTEX_LOCK), SetEax(k', SYSCALL_MUTEX_LOCK);
    HandlerAside(k1, k1', id);
    SchedulerAside(IrqHandler(k1, e), IrqHandler(k1', e));
  }

  lemma HandlerAside(k: Kernel, k': Kernel, id: int)
    requires PoolAside(k, k') && k.active != NULL
    ensures PoolAside(KsyscallIrq(k, MutexLock(id)), KsyscallIrq(k', MutexLock(id)))
    ensures KsyscallIrq(k', MutexLock(id)).freeMutexes == k'.freeMutexes
  {
    if 0 <= id < MUTEX_MAX && k.mutexes[id].locks > 0 {
      BlockAside(k, k', id);
    }
  }

  lemma BlockAside(k: Kernel, k': Kernel, id: int)
    requires PoolAside(k, k') && k.active != NULL && 0 <= id < MUTEX_MAX && k.mutexes[id].locks > 0
    ensures PoolAside(KmutexLock(k, id).0, KmutexLock(k', id).0) && KmutexLock(k, id).1 == KmutexLock(k', id).1
    ensures KmutexLock(k', id).0.freeMutexes == k'.freeMutexes
  {
    hide RemoveLoop;
  }

  /** k, had mutex id been allocated. */
  function Pretend(k: Kernel, id: int): Kernel
    requires 0 <= id < MUTEX_MAX
  {
    k.(mutexes := k.mutexes[id := k.mutexes[id].(inUse := true)], freeMutexes := [])
  }

  lemma PretendKeeps(k: Kernel, id: int)
    requires Inv(k) && 0 <= id < MUTEX_MAX
    ensures Inv(Pretend(k, id)) && PoolAside(Pretend(k, id), k)
  {
    assert LockOk(k.mutexes[id]);
    SameWaiters(k, Pretend(k, id));
  }

  /** Where everybody is does not depend on the allocation. */
  lemma PlacedAside(k: Kernel, k': Kernel, id: int)
    requires PoolAside(k, k') && Inv(k) && 0 <= id < MUTEX_MAX
    ensures TableOk(k'.procs, k'.freeEntries, k'.nextPid) && Placed(k', NULL)
    ensures k'.mutexes[id].waiters == k.mutexes[id].waiters && Running(k') == Running(k)
  {
    SamePlaces(k, k');
  }

  /** A process that locks a free mutex twice waits for itself, and somebody else runs. */
  lemma LockedTwice(k: Kernel, id: int)
    requires Inv(k) && Running(k) > 0 && k.run != [] && 0 !in k.run
    requires 0 <= id < MUTEX_MAX && k.mutexes[id] == FREE_MUTEX
    ensures var e := Syscall(MutexLock(id)); var k' := Step(Step(k, e), e);
            && TableOk(k'.procs, k'.freeEntries, k'.nextPid) && Placed(k', NULL)
            && k'.mutexes[id].waiters == [Running(k)] && k'.freeMutexes == k.freeMutexes && Running(k') > 0
  {
    hide Inv, Placed, TableOk, Step, PoolAside;
    var e := Syscall(MutexLock(id));
    var p := Pretend(k, id);
    PretendKeeps(k, id);
    PretendTwice(p, id);
    AsideTwice(p, k, id);
    PlacedAside(Step(Step(p, e), e), Step(Step(k, e), e), id);
  }

  lemma PretendTwice(k: Kernel, id: int)
    requires Inv(k) && Running(k) > 0 && k.run != [] && 0 !in k.run
    requires 0 <= id < MUTEX_MAX && k.mutexes[id].inUse && k.mutexes[id].locks == 0
    ensures var e := Syscall(MutexLock(id)); var k' := Step(Step(k, e), e);
            && Inv(k') && k'.mutexes[id].waiters == [Running(k)] && Running(k') > 0
  {
    hide Inv, Step;
    var e := Syscall(MutexLock(id));
    var k1 := Step(k, e);
    LockReturns(k, id);
    MutexStep(k, e, id);
    ActivePid(k, e);
    StepKeeps(k, e);
    MutexStep(k1, e, id);
    StepKeeps(k1, e);
    NextRuns(k1, e);
  }

  lemma AsideTwice(k: Kernel, k': Kernel, id: int)
    requires Inv(k) && PoolAside(k, k') && k.active != NULL && k.procs[k.active].pid != 0
    requires 0 <= id < MUTEX_MAX && k.mutexes[id].inUse
    ensures var e := Syscall(MutexLock(id));
            && PoolAside(Step(Step(k, e), e), Step(Step(k', e), e))
            && Step(Step(k', e), e).freeMutexes == k'.freeMutexes
  {
    hide Inv, PoolAside, Step;
    var e := Syscall(MutexLock(id));
    StepKeeps(k, e);
    LockAside(k, k', id);
    LockAside(Step(k, e), Step(k', e), id);
  }

  /**
   Soon after boot process 1 can lock mutex 0 twice, which nobody has allocated; the next
   kmutex_init by whoever runs then hands out that mutex and forgets process 1.
   */
  lemma WaiterForgotten()
    ensures exists k :: Reachable(k) && Running(k) == 1 && Forgets(k, Syscall(MutexLock(0)))
  {
    hide Reachable, Inv, Step, Placed, TableOk, Running, KmutexInit;
    var k := Start();
    var e := Syscall(MutexLock(0));
    ReachableKeeps(k);
    assert k.freeMutexes[0] == 0;
    LockedTwice(k, 0);
    var k' := Step(Step(k, e), e);
    assert NextMutex(k') == 0;
    InitExact(k');
  }

  /** After e twice everybody is where they belong, and no longer after a kmutex_init then. */
  ghost predicate Forgets(k: Kernel, e: Event) {
    var k' := Step(Step(k, e), e);
    Running(k') > 0 && Placed(k', NULL) && !Placed(KmutexInit(k').0, NULL)
  }

  // ----- A mutex that is held -----

  /** The active process holds mutex 0, which nobody else wants, and other processes are ready. */
  ghost predicate Holds(k: Kernel, p: int) {
    && Reachable(k) && Running(k) == p > 0 && k.run != []
    && k.mutexes[0] == Mutex(true, 1, k.active, [])
  }

  /** The active process allocates mutex 0 and locks it. */
  lemma TakeMutex(k: Kernel) returns (k': Kernel)
    requires Reachable(k) && Running(k) > 0 && k.run != [] && k.freeMutexes == Zeroed().freeMutexes
    ensures Holds(k', Running(k)) && k'.freeEntries == k.freeEntries
    ensures k' == Step(Step(k, Syscall(MutexInit)), Syscall(MutexLock(0)))
  {
    hide Reachable, Inv, Step;
    ReachableKeeps(k);
    assert k.freeMutexes[0] == 0;
    InitStep(k);
    var k1 := Step(k, Syscall(MutexInit));
    ReachableStep(k, Syscall(MutexInit));
    ReachableKeeps(k1);
    LockReturns(k1, 0);
    ReachableStep(k1, Syscall(MutexLock(0)));
    k' := Step(k1, Syscall(MutexLock(0)));
    ActivePid(k1, Syscall(MutexLock(0)));
  }

  /** The holder goes to sleep; the next process finds the mutex locked. */
  lemma HolderSleeps(k: Kernel, p: int) returns (k': Kernel)
    requires Holds(k, p)
    ensures Reachable(k') && Running(k') > 0 && k'.mutexes == k.mutexes
  {
    hide Reachable, Inv, Step, Remaining;
    k' := Asleep(k, 0);
    ReachableKeeps(k);
    StepMutexes(k, Syscall(Sleep(0)));
    SleepMutexes(SetEax(k, SYSCALL_PROC_SLEEP));
  }

  lemma SleepMutexes(k: Kernel)
    ensures SetEax(k, SYSCALL_PROC_SLEEP).mutexes == k.mutexes
    ensures CallEffect(k, Sleep(0)).0.mutexes == k.mutexes
  {
  }

  /** A caller is second to lock a mutex; it waits, and finds 12 instead of 2 in its register. */
  lemma WaiterGetsNoCount()
    ensures exists k :: Reachable(k) && Running(k) > 0 && GetsNoCount(k, Syscall(MutexLock(0)))
  {
    hide Reachable, Inv, Step, Holds, Zeroed;
    var k := Start();
    var k1 := TakeMutex(k);
    var k2 := HolderSleeps(k1, 1);
    ReachableKeeps(k2);
    assert k2.mutexes[0].locks == 1 && k2.mutexes[0].inUse by { Held(k1, 1); }
    LockResultExact(k2, 0);
    BlockedCall(k2, MutexLock(0));
  }

  lemma Held(k: Kernel, p: int)
    requires Holds(k, p)
    ensures k.mutexes[0] == Mutex(true, 1, k.active, [])
  {
  }

  ghost predicate GetsNoCount(k: Kernel, e: Event) {
    && k.active != NULL && k.mutexes[0].locks == 1
    && var p := Step(k, e).procs[k.active];
       p.pid == Running(k) && p.state == Waiting && p.eax == 12
  }

  // ----- A mutex whose owner exits -----

  /** Ctrl-N takes the first free entry; the active process goes on running. */
  lemma CreateStep(k: Kernel, eax: int)
    requires Inv(k) && k.active != NULL && k.freeEntries != []
    ensures var k' := Step(k, KeyNew(eax));
            && k'.active == k.active && Running(k') == Running(k)
            && k'.freeEntries == k.freeEntries[1..] && k'.run == k.run + [k.nextPid]
            && k'.mutexes == k.mutexes && k'.freeMutexes == k.freeMutexes
  {
    var k1 := SetEax(k, eax);
    SetEaxKeeps(k, eax);
    CreateKeeps(k1);
    assert k.freeEntries[0] in k.freeEntries;
    hide SchedulerRun;
    GoesOn(KprocCreate(k1).0);
  }

  /** Ctrl-N until the table is full. */
  lemma {:induction false} FillTable(k: Kernel) returns (k': Kernel)
    requires Reachable(k) && Running(k) > 0 && k.run != []
    ensures Reachable(k') && Running(k') > 0 && k'.run != [] && k'.freeEntries == []
    ensures k'.freeMutexes == k.freeMutexes
    decreases |k.freeEntries|
  {
    hide Reachable, Inv, Step;
    k' := k;
    if k.freeEntries != [] {
      ReachableKeeps(k);
      CreateStep(k, 0);
      ReachableStep(k, KeyNew(0));
      k' := FillTable(Step(k, KeyNew(0)));
    }
  }

  /** After the exit of its last user an entry is the first to be used again. */
  lemma OnlyFree(k: Kernel, e: Event)
    requires Inv(k) && Enabled(k, e) && Ends(k, e) && k.freeEntries == []
    requires Inv(Step(k, e)) && !Live(Step(k, e).procs, k.active)
    ensures Step(k, e).freeEntries != [] && Step(k, e).freeEntries[0] == k.active
  {
    StepPids(k, e);
    var k' := Step(k, e);
    hide Step, Enabled;
    assert k.active in k'.freeEntries;
    assert k'.freeEntries[0] in k'.freeEntries;
    assert forall d: Slot :: Live(k.procs, d);
  }

  /** The holder of mutex 0 exits, which leaves the mutex to a dead owner. */
  lemma HolderExits(k: Kernel, p: int) returns (k': Kernel)
    requires Holds(k, p) && k.freeEntries == []
    ensures Reachable(k') && k'.mutexes[0].owner == k.active != NULL && !Live(k'.procs, k.active)
    ensures k'.freeEntries != [] && k'.freeEntries[0] == k.active
  {
    hide Reachable, Inv, Step, Live;
    var e := Syscall(Exit);
    ReachableKeeps(k);
    OwnerExits(k, e, 0);
    ReachableStep(k, e);
    k' := Step(k, e);
    ReachableKeeps(k');
    OnlyFree(k, e);
  }

  /** A dead owner, and the process created next that inherits its mutex. */
  ghost predicate Inherits(k: Kernel, e: Event) {
    var o := k.mutexes[0].owner;
    && o != NULL && !Live(k.procs, o)
    && Step(k, e).mutexes[0].owner == o && Live(Step(k, e).procs, o) && Step(k, e).procs[o].pid == k.nextPid
  }

  lemma DeadOwnerInherited()
    ensures exists k :: Reachable(k) && Inherits(k, KeyNew(0))
  {
    hide Reachable, Inv, Step, Holds, Zeroed, Live;
    var k := Start();
    var k1 := FillTable(k);
    var k2 := TakeMutex(k1);
    var k3 := HolderExits(k2, Running(k1));
    ReachableKeeps(k3);
    OwnershipInherited(k3, 0, 0);
  }
}
