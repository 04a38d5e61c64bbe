/** Mutexes over whole runs: lock order and mutual exclusion. */
module MutexRuns {
  import opened Seqs
  import opened KernelModel
  import opened Invariant
  import opened Preservation
  import opened Reachability
  import opened BoundedWaiting

  // ----- What a kernel entry does to one mutex -----

  /** What the scheduler leaves alone: mutexes, pids, their counter, run times, saved registers, who is alive. */
  ghost predicate SchedulingOnly(k: Kernel, k': Kernel) {
    && k'.mutexes == k.mutexes && k'.freeMutexes == k.freeMutexes && k'.nextPid == k.nextPid
    && (forall d: Slot :: k'.procs[d].pid == k.procs[d].pid && k'.procs[d].eax == k.procs[d].eax
                          && k'.procs[d].runTime == k.procs[d].runTime)
    && (forall d | Live(k.procs, d) :: Live(k'.procs, d))
  }

  lemma AddOnly(k: Kernel, e: Entry)
    ensures SchedulingOnly(k, SchedulerAdd(k, e))
  {
  }

  lemma TimerVisitOnly(k: Kernel)
    requires k.sleep != []
    ensures SchedulingOnly(k, TimerVisit(k))
  {
    hide SchedulerAdd, PidToProc;
    var e := PidToProc(k.procs, k.sleep[0]);
    if e != NULL {
      var t := k.procs[e := k.procs[e].(sleepTime := k.procs[e].sleepTime - 1)];
      AddOnly(k.(sleep := k.sleep[1..], procs := t), e);
    }
  }

  lemma {:induction false} TimerLoopOnly(k: Kernel, i: nat)
    ensures SchedulingOnly(k, TimerLoop(k, i))
    decreases |k.sleep| - i
  {
    if i < |k.sleep| {
      TimerVisitOnly(k);
      hide TimerVisit;
      TimerLoopOnly(TimerVisit(k), i + 1);
      assert TimerLoop(k, i) == TimerLoop(TimerVisit(k), i + 1);
    }
  }

  lemma SchedulerTimerOnly(k: Kernel)
    ensures SchedulingOnly(ChargeActive(k), SchedulerTimer(k))
  {
    TimerLoopOnly(ChargeActive(k), 0);
  }

  lemma PreemptOnly(k: Kernel)
    ensures SchedulingOnly(k, Preempt(k))
  {
  }

  lemma DispatchOnly(k: Kernel)
    ensures SchedulingOnly(k, Dispatch(k))
  {
  }

  lemma SchedulerRunOnly(k: Kernel)
    ensures SchedulingOnly(k, SchedulerRun(k))
  {
    var d := DropInactive(k);
    PreemptOnly(d);
    DispatchOnly(Preempt(d));
    hide Preempt, Dispatch;
    assert SchedulerRun(k) == Dispatch(Preempt(d));
  }

  /** The mutexes after a kernel entry are those that the system call leaves. */
  lemma StepMutexes(k: Kernel, e: Event)
    requires Inv(k) && Enabled(k, e)
    ensures var k1 := SetEax(k, EntryEax(e));
            && Step(k, e).mutexes == (if e.Syscall? then CallEffect(k1, e.call).0.mutexes else k.mutexes)
            && Step(k, e).freeMutexes == (if e.Syscall? then CallEffect(k1, e.call).0.freeMutexes else k.freeMutexes)
  {
    var k1 := SetEax(k, EntryEax(e));
    SchedulerRunOnly(IrqHandler(k1, e));
    hide SchedulerRun, SchedulerTimer;
    if e.Timer? {
      SchedulerTimerOnly(k1);
    }
  }

  /** How the owner and the wait queue of mutex m change when the active process makes a call. */
  ghost predicate MutexChange(k: Kernel, c: Call, m: int, x: Mutex, x': Mutex) {
    if c == MutexLock(m) then
      if x.locks == 0 then x'.owner == k.active && x'.waiters == x.waiters == []
      else x'.owner == x.owner != NULL && x'.waiters == x.waiters + [Running(k)]
    else if c == MutexUnlock(m) && x.locks > 0 && x.owner == k.active then
      if x.waiters == [] then x'.owner == NULL && x'.waiters == []
      else
        var heir := PidToProc(k.procs, x.waiters[0]);
        x'.owner == heir && heir != NULL && heir != k.active && x'.waiters == x.waiters[1..]
    else x'.owner == x.owner && x'.waiters == x.waiters
  }

  /** The call that an event stands for, as far as mutexes go. */
  function CallOf(e: Event): Call {
    if e.Syscall? then e.call else Other(0, 0)
  }

  lemma MutexStep(k: Kernel, e: Event, m: int)
    requires Inv(k) && Enabled(k, e) && 0 <= m < MUTEX_MAX
    ensures MutexChange(k, CallOf(e), m, k.mutexes[m], Step(k, e).mutexes[m])
  {
    StepMutexes(k, e);
    if e.Syscall? {
      var k1 := SetEax(k, EntryEax(e));
      SetEaxKeeps(k, EntryEax(e));
      LookupSame(k.procs, k1.procs);
      CallMutex(k1, e.call, m);
    }
  }

  lemma CallMutex(k: Kernel, c: Call, m: int)
    requires Core(k, NULL) && k.active != NULL && k.procs[k.active].pid != 0 && CallAllowed(k, c)
    requires 0 <= m < MUTEX_MAX
    ensures MutexChange(k, c, m, k.mutexes[m], CallEffect(k, c).0.mutexes[m])
  {
    assert LockOk(k.mutexes[m]);
    CallShape(k, c);
    if c.MutexInit? && k.freeMutexes != [] {
      assert k.freeMutexes[0] in k.freeMutexes && LockOk(k.mutexes[k.freeMutexes[0]]);
    }
  }

  // ----- Lock order -----

  /** What can be observed of one mutex: who asked for it, who got it, who gave it up. */
  datatype Log = Log(requests: seq<int>, grants: seq<int>, releases: seq<int>)

  /** Who asks for the mutex in one kernel entry. */
  function Asks(k: Kernel, e: Event, m: int): seq<int> {
    if e == Syscall(MutexLock(m)) then [Running(k)] else []
  }

  /** Who gets it: it is granted when its owner pointer is set. */
  function Gets(k: Kernel, e: Event, m: int): seq<int>
    requires 0 <= m < MUTEX_MAX
  {
    var k' := Step(k, e);
    var o, o' := k.mutexes[m].owner, k'.mutexes[m].owner;
    if o' != o && o' != NULL then [k'.procs[o'].pid] else []
  }

  /** Who gives it up: it is released when the pointer is replaced. */
  function Releases(k: Kernel, e: Event, m: int): seq<int>
    requires 0 <= m < MUTEX_MAX
  {
    var o, o' := k.mutexes[m].owner, Step(k, e).mutexes[m].owner;
    if o' != o && o != NULL then [k.procs[o].pid] else []
  }

  function LogStep(l: Log, k: Kernel, e: Event, m: int): Log
    requires 0 <= m < MUTEX_MAX
  {
    Log(l.requests + Asks(k, e, m), l.grants + Gets(k, e, m), l.releases + Releases(k, e, m))
  }

  function LogRun(l: Log, k: Kernel, es: seq<Event>, m: int): Log
    requires 0 <= m < MUTEX_MAX
    decreases |es|
  {
    if es == [] then l else LogRun(LogStep(l, k, es[0], m), Step(k, es[0]), es[1..], m)
  }

  const EMPTY_LOG := Log([], [], [])

  /** Requests are granted in their order; those not granted yet are the wait queue. */
  ghost predicate InOrder(l: Log, x: Mutex) {
    l.requests == l.grants + x.waiters
  }

  /** Ctrl-Q and the exit call end the active process, unless it is the idle process. */
  predicate Ends(k: Kernel, e: Event) {
    k.active != NULL && k.procs[k.active].pid != 0 && (e.KeyQuit? || e == Syscall(Exit))
  }

  /** Only the end of a process takes its pid out of the table. */
  lemma StepPids(k: Kernel, e: Event)
    requires Inv(k) && Enabled(k, e)
    ensures forall d | Live(k.procs, d) && !(d == k.active && Ends(k, e)) ::
              Live(Step(k, e).procs, d) && Step(k, e).procs[d].pid == k.procs[d].pid
  {
    var k1 := SetEax(k, EntryEax(e));
    SetEaxKeeps(k, EntryEax(e));
    HandlerKeeps(k1, e);
    HandlerPids(k1, e);
    SchedulerRunOnly(IrqHandler(k1, e));
  }

  lemma HandlerPids(k: Kernel, e: Event)
    requires Core(k, NULL) && Enabled(k, e)
    ensures forall d | Live(k.procs, d) && !(d == k.active && Ends(k, e)) ::
              Live(IrqHandler(k, e).procs, d) && IrqHandler(k, e).procs[d].pid == k.procs[d].pid
  {
    match e
    case Timer(_) => SchedulerTimerOnly(k);
    case KeyNew(_) =>
      CreateKeeps(k);
      assert k.freeEntries != [] ==> k.freeEntries[0] in k.freeEntries;
    case KeyQuit(_) => DestroyKeeps(k);
    case OtherIrq(_) =>
    case Syscall(c) => CallPids(k, c);
  }

  lemma CallPids(k: Kernel, c: Call)
    requires Core(k, NULL) && k.active != NULL && k.procs[k.active].pid != 0 && CallAllowed(k, c)
    ensures forall d | Live(k.procs, d) && !(d == k.active && c.Exit?) ::
              Live(CallEffect(k, c).0.procs, d) && CallEffect(k, c).0.procs[d].pid == k.procs[d].pid
  {
    CallShape(k, c);
  }

  // ----- Lock order, whatever the clients do -----

  /** Whoever gets the mutex was first in its queue, and whoever asks is then last. */
  lemma Granted(k: Kernel, e: Event, m: int)
    requires Inv(k) && Enabled(k, e) && 0 <= m < MUTEX_MAX
    ensures Gets(k, e, m) + Step(k, e).mutexes[m].waiters == k.mutexes[m].waiters + Asks(k, e, m)
  {
    assert LockOk(k.mutexes[m]);
    hide Inv, Enabled, Step, Running, LockOk;
    MutexStep(k, e, m);
    NewOwner(k, e, m);
    var w := k.mutexes[m].waiters;
    assert w != [] ==> w == [w[0]] + w[1..];
  }

  /** The pid of a new owner. */
  lemma NewOwner(k: Kernel, e: Event, m: int)
    requires Inv(k) && Enabled(k, e) && 0 <= m < MUTEX_MAX
    ensures var x, k' := k.mutexes[m], Step(k, e); var o := k'.mutexes[m].owner;
            o != x.owner && o != NULL ==>
              if e == Syscall(MutexLock(m)) then k'.procs[o].pid == Running(k)
              else x.waiters != [] && k'.procs[o].pid == x.waiters[0]
  {
    MutexStep(k, e, m);
    StepPids(k, e);
    var x := k.mutexes[m];
    assert LockOk(x);
    if e == Syscall(MutexLock(m)) {
      assert Live(k.procs, k.active);
    } else if x.waiters != [] {
      assert QueueOf(k.procs, x.waiters, Waiting, NULL) && x.waiters[0] in x.waiters;
    }
  }

  lemma LogInOrder(l: Log, k: Kernel, e: Event, m: int)
    requires Inv(k) && Enabled(k, e) && 0 <= m < MUTEX_MAX && InOrder(l, k.mutexes[m])
    ensures InOrder(LogStep(l, k, e, m), Step(k, e).mutexes[m])
  {
    hide Inv, Enabled, Step, Gets, Asks;
    Granted(k, e, m);
    Regroup(l.grants, k.mutexes[m].waiters, Asks(k, e, m), Gets(k, e, m), Step(k, e).mutexes[m].waiters);
  }

  lemma Regroup(grants: seq<int>, w: seq<int>, asking: seq<int>, granted: seq<int>, w': seq<int>)
    requires granted + w' == w + asking
    ensures (grants + w) + asking == (grants + granted) + w'
  {
    assert (grants + w) + asking == grants + (w + asking);
  }

  lemma {:induction false} LogRunInOrder(l: Log, k: Kernel, es: seq<Event>, m: int)
    requires Inv(k) && Legal(k, es) && 0 <= m < MUTEX_MAX && InOrder(l, k.mutexes[m])
    ensures InOrder(LogRun(l, k, es, m), Run(k, es).mutexes[m])
    decreases |es|
  {
    if es != [] {
      hide Inv, Enabled, Step, InOrder, LogStep;
      StepKeeps(k, es[0]);
      LogInOrder(l, k, es[0], m);
      LogRunInOrder(LogStep(l, k, es[0], m), Step(k, es[0]), es[1..], m);
    }
  }

  /**
   FIFO: over every run from boot a mutex is granted in the order of the kmutex_lock
   calls for it, and those who asked but were not granted it are waiting for it.
   */
  lemma GrantsFollowRequests(es: seq<Event>, m: int)
    requires Legal(Boot(), es) && 0 <= m < MUTEX_MAX
    ensures var l := LogRun(EMPTY_LOG, Boot(), es, m); var k := Run(Boot(), es);
            && l.requests == l.grants + k.mutexes[m].waiters
            && forall p | p in k.mutexes[m].waiters :: StateOf(k.procs, p) == Waiting
  {
    BootLog(m);
    hide Boot, Inv, Run, LogRun, Legal;
    LogRunInOrder(EMPTY_LOG, Boot(), es, m);
    RunKeeps(Boot(), es);
    WaitersWait(Run(Boot(), es), m);
  }

  lemma BootLog(m: int)
    requires 0 <= m < MUTEX_MAX
    ensures Inv(Boot()) && Boot().mutexes[m] == FREE_MUTEX
    ensures OwnersOk(Boot()) && OneHolder(EMPTY_LOG, Boot(), m)
  {
    BootInv();
    BootMutexes(BOOT_PROCESSES);
  }

  lemma WaitersWait(k: Kernel, m: int)
    requires Inv(k) && 0 <= m < MUTEX_MAX
    ensures forall p | p in k.mutexes[m].waiters :: StateOf(k.procs, p) == Waiting
    ensures NoDup(k.mutexes[m].waiters)
  {
    assert QueueOf(k.procs, k.mutexes[m].waiters, Waiting, NULL);
  }

  lemma {:induction false} BootMutexes(n: nat)
    ensures CreateMany(Zeroed(), n).mutexes == Zeroed().mutexes
    ensures CreateMany(Zeroed(), n).freeMutexes == Zeroed().freeMutexes
  {
    if n > 0 {
      BootMutexes(n - 1);
    }
  }

  // ----- Mutual exclusion, for disciplined clients -----

  /** A holder unlocks before it ends and does not lock again what it holds. */
  predicate Disciplined(k: Kernel, e: Event) {
    && (Ends(k, e) ==> forall m | 0 <= m < MUTEX_MAX :: k.mutexes[m].owner != k.active)
    && (forall m | 0 <= m < MUTEX_MAX && e == Syscall(MutexLock(m)) :: k.mutexes[m].owner != k.active)
  }

  predicate DisciplinedRun(k: Kernel, es: seq<Event>)
    decreases |es|
  {
    es == [] || (Disciplined(k, es[0]) && DisciplinedRun(Step(k, es[0]), es[1..]))
  }

  /** Every owner is a live process that does not wait for what it owns. */
  ghost predicate OwnersOk(k: Kernel) {
    forall m | 0 <= m < MUTEX_MAX && k.mutexes[m].owner != NULL ::
      && Live(k.procs, k.mutexes[m].owner)
      && !WaitsOn(k.mutexes, m, k.procs[k.mutexes[m].owner].pid)
  }

  function OwnerPid(k: Kernel, m: int): seq<int>
    requires 0 <= m < MUTEX_MAX
  {
    var o := k.mutexes[m].owner;
    if o == NULL then [] else [k.procs[o].pid]
  }

  lemma OwnerStep(k: Kernel, e: Event, m: int)
    requires Inv(k) && OwnersOk(k) && Enabled(k, e) && Disciplined(k, e) && 0 <= m < MUTEX_MAX
    ensures var o := Step(k, e).mutexes[m].owner;
            && (o != NULL ==> Live(Step(k, e).procs, o) && !WaitsOn(Step(k, e).mutexes, m, Step(k, e).procs[o].pid))
            && (o != NULL && o == k.mutexes[m].owner ==> Step(k, e).procs[o].pid == k.procs[o].pid)
  {
    MutexStep(k, e, m);
    StepPids(k, e);
    var x := k.mutexes[m];
    assert LockOk(x);
    assert QueueOf(k.procs, x.waiters, Waiting, NULL);
    if e == Syscall(MutexLock(m)) {
      assert Live(k.procs, k.active);
    } else if e == Syscall(MutexUnlock(m)) && x.locks > 0 && x.owner == k.active && x.waiters != [] {
      assert x.waiters[0] in x.waiters;
    }
  }

  /** Discipline is exactly what keeps every owner alive and able to unlock. */
  lemma DisciplineExact(k: Kernel, e: Event)
    requires Inv(k) && OwnersOk(k) && Enabled(k, e)
    ensures OwnersOk(Step(k, e)) <==> Disciplined(k, e)
  {
    if Disciplined(k, e) {
      forall m | 0 <= m < MUTEX_MAX && Step(k, e).mutexes[m].owner != NULL
        ensures Live(Step(k, e).procs, Step(k, e).mutexes[m].owner)
        ensures !WaitsOn(Step(k, e).mutexes, m, Step(k, e).procs[Step(k, e).mutexes[m].owner].pid)
      {
        OwnerStep(k, e, m);
      }
    } else if Ends(k, e) {
      var m :| 0 <= m < MUTEX_MAX && k.mutexes[m].owner == k.active;
      OwnerExits(k, e, m);
    } else {
      var m :| 0 <= m < MUTEX_MAX && e == Syscall(MutexLock(m)) && k.mutexes[m].owner == k.active;
      OwnerRelocks(k, m);
    }
  }

  /** A process that exits keeps its mutexes: nobody alive can unlock them. */
  lemma OwnerExits(k: Kernel, e: Event, m: int)
    requires Inv(k) && Enabled(k, e) && Ends(k, e)
    requires 0 <= m < MUTEX_MAX && k.mutexes[m].owner == k.active
    ensures Step(k, e).mutexes[m].owner == k.active
    ensures !Live(Step(k, e).procs, k.active)
  {
    var a := k.active;
    var k1 := SetEax(k, EntryEax(e));
    SetEaxKeeps(k, EntryEax(e));
    DestroyKeeps(k1);
    MutexStep(k, e, m);
    var k2 := IrqHandler(k1, e);
    assert k2 == Exited(k1);
    StaysFree(k2, a);
  }

  /** The scheduler does not run a free entry. */
  lemma StaysFree(k: Kernel, e: Slot)
    requires Core(k, NULL) && !Live(k.procs, e)
    ensures !Live(SchedulerRun(k).procs, e)
  {
    DropInactiveSame(k);
    PreemptKeeps(k);
    var b := Preempt(k);
    if b.active == NULL {
      if b.run == [] { FloatIdle(b); } else { FloatRunHead(b); }
    }
  }

  /** A process that locks again what it owns waits for itself. */
  lemma OwnerRelocks(k: Kernel, m: int)
    requires Inv(k) && Enabled(k, Syscall(MutexLock(m))) && k.active != NULL
    requires 0 <= m < MUTEX_MAX && k.mutexes[m].owner == k.active
    ensures var k' := Step(k, Syscall(MutexLock(m)));
            && k'.mutexes[m].owner == k.active
            && k'.procs[k.active].pid == Running(k)
            && WaitsOn(k'.mutexes, m, Running(k))
  {
    MutexStep(k, Syscall(MutexLock(m)), m);
    StepPids(k, Syscall(MutexLock(m)));
    assert LockOk(k.mutexes[m]);
  }

  lemma {:induction false} OwnersRun(k: Kernel, es: seq<Event>)
    requires Inv(k) && OwnersOk(k) && Legal(k, es) && DisciplinedRun(k, es)
    ensures OwnersOk(Run(k, es))
    decreases |es|
  {
    if es != [] {
      hide Inv, OwnersOk, Step, Enabled, Disciplined;
      StepKeeps(k, es[0]);
      DisciplineExact(k, es[0]);
      OwnersRun(Step(k, es[0]), es[1..]);
    }
  }

  /** Grants and releases alternate: at most one grant is outstanding, the owner's. */
  ghost predicate OneHolder(l: Log, k: Kernel, m: int)
    requires 0 <= m < MUTEX_MAX
  {
    l.grants == l.releases + OwnerPid(k, m)
  }

  lemma LogOneHolder(l: Log, k: Kernel, e: Event, m: int)
    requires Inv(k) && OwnersOk(k) && Enabled(k, e) && Disciplined(k, e)
    requires 0 <= m < MUTEX_MAX && OneHolder(l, k, m)
    ensures OneHolder(LogStep(l, k, e, m), Step(k, e), m)
  {
    OwnerStep(k, e, m);
    OwnerMoves(k, e, m);
    hide Inv, OwnersOk, Step, Enabled, Disciplined;
    var o, o' := k.mutexes[m].owner, Step(k, e).mutexes[m].owner;
    if o == o' {
      assert l.grants + [] == l.grants && l.releases + [] == l.releases;
    }
  }

  /** A mutex is never taken over from an owner that has not unlocked it. */
  lemma OwnerMoves(k: Kernel, e: Event, m: int)
    requires Inv(k) && Enabled(k, e) && 0 <= m < MUTEX_MAX
    ensures var o, o' := k.mutexes[m].owner, Step(k, e).mutexes[m].owner;
            o' != o && o != NULL ==> e == Syscall(MutexUnlock(m)) && o == k.active
  {
    MutexStep(k, e, m);
    assert LockOk(k.mutexes[m]);
  }

  lemma {:induction false} LogRunOneHolder(l: Log, k: Kernel, es: seq<Event>, m: int)
    requires Inv(k) && OwnersOk(k) && Legal(k, es) && DisciplinedRun(k, es)
    requires 0 <= m < MUTEX_MAX && OneHolder(l, k, m)
    ensures OneHolder(LogRun(l, k, es, m), Run(k, es), m)
    decreases |es|
  {
    if es != [] {
      hide Inv, OwnersOk, Step, Enabled, Disciplined, OneHolder, LogStep;
      StepKeeps(k, es[0]);
      DisciplineExact(k, es[0]);
      LogOneHolder(l, k, es[0], m);
      LogRunOneHolder(LogStep(l, k, es[0], m), Step(k, es[0]), es[1..], m);
    }
  }

  /**
   FIFO mutual exclusion over every disciplined run from boot: the requests not yet
   released are those of the live owner, if there is one, and of the waiters in the
   order of their requests; they come from different processes, and all but the owner
   are WAITING.
   */
  lemma FifoMutualExclusion(es: seq<Event>, m: int)
    requires Legal(Boot(), es) && DisciplinedRun(Boot(), es) && 0 <= m < MUTEX_MAX
    ensures var l := LogRun(EMPTY_LOG, Boot(), es, m); var k := Run(Boot(), es);
            && l.requests == l.releases + OwnerPid(k, m) + k.mutexes[m].waiters
            && l.grants == l.releases + OwnerPid(k, m)
            && NoDup(OwnerPid(k, m) + k.mutexes[m].waiters)
            && (k.mutexes[m].owner != NULL ==> Live(k.procs, k.mutexes[m].owner))
            && (forall p | p in k.mutexes[m].waiters :: StateOf(k.procs, p) == Waiting)
  {
    hide *;
    var k := Run(Boot(), es);
    BootLog(m);
    GrantsFollowRequests(es, m);
    LogRunOneHolder(EMPTY_LOG, Boot(), es, m);
    OwnersRun(Boot(), es);
    RunKeeps(Boot(), es);
    HolderAndWaiters(LogRun(EMPTY_LOG, Boot(), es, m), k, m);
  }

  /** One outstanding grant, and waiters that are not its holder. */
  lemma HolderAndWaiters(l: Log, k: Kernel, m: int)
    requires Inv(k) && OwnersOk(k) && 0 <= m < MUTEX_MAX && OneHolder(l, k, m)
    ensures l.grants == l.releases + OwnerPid(k, m)
    ensures NoDup(OwnerPid(k, m) + k.mutexes[m].waiters)
    ensures k.mutexes[m].owner != NULL ==> Live(k.procs, k.mutexes[m].owner)
  {
    WaitersWait(k, m);
    NoDupConcat(OwnerPid(k, m), k.mutexes[m].waiters);
  }

  /** After its owner has exited a mutex belongs to whoever is created in the owner's entry. */
  lemma OwnershipInherited(k: Kernel, eax: int, m: int)
    requires Inv(k) && 0 <= m < MUTEX_MAX && k.freeEntries != []
    requires k.mutexes[m].owner == k.freeEntries[0]
    ensures var k' := Step(k, KeyNew(eax)); var o := k'.mutexes[m].owner;
            o == k.mutexes[m].owner && Live(k'.procs, o) && k'.procs[o].pid == k.nextPid
  {
    var e := KeyNew(eax);
    var k1 := SetEax(k, eax);
    SetEaxKeeps(k, eax);
    CreateKeeps(k1);
    MutexStep(k, e, m);
    var k2 := IrqHandler(k1, e);
    SchedulerRunOnly(k2);
  }

  /** A waiter that is no longer in the table is dropped; the mutex stays with its owner. */
  lemma DeadWaiterDropped(k: Kernel, id: int)
    requires 0 <= id < MUTEX_MAX && k.mutexes[id].locks > 1 && k.mutexes[id].owner == k.active
    requires k.mutexes[id].waiters != [] && PidToProc(k.procs, k.mutexes[id].waiters[0]) == NULL
    ensures var x := k.mutexes[id];
            KmutexUnlock(k, id) ==
              (k.(mutexes := k.mutexes[id := x.(waiters := x.waiters[1..], locks := x.locks - 1)]), x.locks - 1)
  {
  }
}
