/** What a process finds in its result register when it next runs, and the time it is charged. */
module SyscallResults {
  import opened Seqs
  import opened KernelModel
  import opened Invariant
  import opened Preservation
  import opened Reachability
  import opened BoundedWaiting
  import opened MutexRuns

  /** Live processes other than the active one keep their saved registers. */
  ghost predicate SameEax(k: Kernel, k': Kernel) {
    forall d | Live(k.procs, d) && d != k.active :: k'.procs[d].eax == k.procs[d].eax
  }

  lemma CallEax(k: Kernel, c: Call)
    requires Core(k, NULL) && k.active != NULL && k.procs[k.active].pid != 0 && CallAllowed(k, c)
    ensures SameEax(k, KsyscallIrq(k, c))
  {
    CallRun(k, c);
    CallEffectEax(k, c);
  }

  lemma CallEffectEax(k: Kernel, c: Call)
    requires Core(k, NULL) && k.active != NULL && k.procs[k.active].pid != 0 && CallAllowed(k, c)
    ensures SameEax(k, CallEffect(k, c).0)
    ensures !c.Exit? ==> CallEffect(k, c).0.procs[k.active].eax == k.procs[k.active].eax
  {
    CallShape(k, c);
  }

  lemma HandlerEax(k: Kernel, e: Event)
    requires Core(k, NULL) && Enabled(k, e)
    ensures SameEax(k, IrqHandler(k, e))
  {
    match e
    case Timer(_) => SchedulerTimerOnly(k);
    case KeyNew(_) =>
      CreateKeeps(k);
      assert k.freeEntries != [] ==> k.freeEntries[0] in k.freeEntries;
    case KeyQuit(_) => DestroyKeeps(k);
    case OtherIrq(_) =>
    case Syscall(c) => CallEax(k, c);
  }

  /** A kernel entry does not touch the registers of a process that was not running. */
  lemma StepEax(k: Kernel, e: Event, d: Slot)
    requires Inv(k) && Enabled(k, e) && Live(k.procs, d) && d != k.active
    ensures Step(k, e).procs[d].eax == k.procs[d].eax && Live(Step(k, e).procs, d)
  {
    var k1 := SetEax(k, EntryEax(e));
    SetEaxKeeps(k, EntryEax(e));
    HandlerKeeps(k1, e);
    HandlerEax(k1, e);
    HandlerPids(k1, e);
    SchedulerRunOnly(IrqHandler(k1, e));
  }

  /** An uncontended lock returns the lock count 1 to a caller that goes on running. */
  lemma LockReturns(k: Kernel, id: int)
    requires Inv(k) && Enabled(k, Syscall(MutexLock(id)))
    requires 0 <= id < MUTEX_MAX && k.mutexes[id].locks == 0
    ensures var k' := Step(k, Syscall(MutexLock(id)));
            && k'.active == k.active && k'.procs[k.active].eax == 1
            && k'.run == k.run && k'.freeEntries == k.freeEntries
            && k'.mutexes == k.mutexes[id := k.mutexes[id].(owner := k.active, locks := 1)]
  {
    var k1 := SetEax(k, SYSCALL_MUTEX_LOCK);
    assert LockOk(k.mutexes[id]);
    var m := k.mutexes[id].(owner := k.active, locks := 1);
    var k2 := k1.(mutexes := k1.mutexes[id := m]);
    assert k1.mutexes[id := k.mutexes[id].(owner := k.active)][id := m] == k2.mutexes;
    assert KmutexLock(k1, id) == (k2, 1);
    assert IrqHandler(k1, Syscall(MutexLock(id))) == SetEax(k2, 1);
  }

  /** The calls that take the processor away from their caller for a while. */
  predicate Blocks(k: Kernel, c: Call) {
    c.Sleep? || (c.MutexLock? && 0 <= c.id < MUTEX_MAX && k.mutexes[c.id].locks > 0)
  }

  /** What each system call promises to return. */
  function ReturnCode(k: Kernel, c: Call): int {
    match c
    case Sleep(_) => 0
    case Exit => 0
    case MutexInit => if |k.freeMutexes| <= 1 then -1 else k.freeMutexes[0]
    case MutexDestroy(id) => if 0 <= id < MUTEX_MAX && k.mutexes[id].locks == 0 then 0 else -1
    case MutexLock(id) => if 0 <= id < MUTEX_MAX then k.mutexes[id].locks + 1 else -1
    case MutexUnlock(id) => UnlockCode(k, id)
    case Other(_, rc) => rc
    case Invalid(_) => -1
  }

  function UnlockCode(k: Kernel, id: int): int {
    if !(0 <= id < MUTEX_MAX) then -1
    else if k.mutexes[id].locks == 0 then 0
    else if k.mutexes[id].owner == k.active then k.mutexes[id].locks - 1
    else -1
  }

  /** And does return to the dispatcher. */
  lemma CallReturns(k: Kernel, c: Call)
    requires Inv(k) && Enabled(k, Syscall(c))
    ensures CallEffect(SetEax(k, CallNumber(c)), c).1 == ReturnCode(k, c)
  {
    var k1 := SetEax(k, CallNumber(c));
    match c
    case Exit =>
      SetEaxKeeps(k, CallNumber(c));
      DestroyKeeps(k1);
    case MutexInit =>
      assert k.freeMutexes != [] ==> k.freeMutexes[0] in k.freeMutexes;
    case MutexDestroy(id) =>
      assert 0 <= id < MUTEX_MAX ==> LockOk(k.mutexes[id]);
    case MutexUnlock(id) => UnlockReturnsCode(k, id);
    case _ =>
  }

  lemma UnlockReturnsCode(k: Kernel, id: int)
    requires Inv(k) && Enabled(k, Syscall(MutexUnlock(id)))
    ensures KmutexUnlock(SetEax(k, SYSCALL_MUTEX_UNLOCK), id).1 == UnlockCode(k, id)
  {
    assert 0 <= id < MUTEX_MAX ==> LockOk(k.mutexes[id]);
    hide Inv;
  }

  /** The scheduler leaves a blocked process alone. */
  lemma StaysBlocked(k: Kernel, e: Slot)
    requires Core(k, NULL) && k.procs[e].state in {Waiting, Sleeping}
    ensures SchedulerRun(k).procs[e].state == k.procs[e].state && SchedulerRun(k).active != e
  {
    DropInactiveSame(k);
    PreemptKeeps(k);
    PreemptBlocked(k, e);
    DispatchBlocked(Preempt(k), e);
  }

  lemma PreemptBlocked(k: Kernel, e: Slot)
    requires Core(k, NULL) && k.procs[e].state in {Waiting, Sleeping}
    ensures Preempt(k).procs[e].state == k.procs[e].state
  {
  }

  lemma DispatchBlocked(k: Kernel, e: Slot)
    requires Core(k, NULL) && k.procs[e].state in {Waiting, Sleeping}
    ensures Dispatch(k).procs[e].state == k.procs[e].state && Dispatch(k).active != e
  {
    if k.active == NULL {
      if k.run == [] { FloatIdle(k); } else { FloatRunHead(k); }
    }
  }

  /** A blocking call: its caller stops running, and nobody writes its result register. */
  lemma BlockedCall(k: Kernel, c: Call)
    requires Inv(k) && Enabled(k, Syscall(c)) && Blocks(k, c)
    ensures var k' := Step(k, Syscall(c)); var p := k'.procs[k.active];
            && k'.active != k.active && p.pid == Running(k) && p.eax == CallNumber(c)
            && p.state == (if c.Sleep? then Sleeping else Waiting)
  {
    var k1 := SetEax(k, CallNumber(c));
    var k2 := CallEffect(k1, c).0;
    SetEaxKeeps(k, CallNumber(c));
    CallKeeps(k1, c);
    CallShape(k1, c);
    assert IrqHandler(k1, Syscall(c)) == k2;
    SchedulerRunOnly(k2);
    StaysBlocked(k2, k.active);
  }

  /** Any other call but exit: its caller goes on with the return code. */
  lemma ReturningCall(k: Kernel, c: Call)
    requires Inv(k) && Enabled(k, Syscall(c)) && !Blocks(k, c) && !c.Exit?
    ensures var k' := Step(k, Syscall(c));
            k'.active == k.active && k'.procs[k.active] == k.procs[k.active].(eax := ReturnCode(k, c))
  {
    var k1 := SetEax(k, CallNumber(c));
    var (k2, rc) := CallEffect(k1, c);
    SetEaxKeeps(k, CallNumber(c));
    CallKeeps(k1, c);
    CallStays(k1, c);
    CallReturns(k, c);
    SetEaxKeeps(k2, rc);
    assert IrqHandler(k1, Syscall(c)) == SetEax(k2, rc);
    hide SchedulerRun;
    GoesOn(SetEax(k2, rc));
  }

  lemma CallStays(k: Kernel, c: Call)
    requires Core(k, NULL) && k.active != NULL && k.procs[k.active].pid != 0 && CallAllowed(k, c)
    requires !Blocks(k, c) && !c.Exit?
    ensures var k' := CallEffect(k, c).0; k'.active == k.active && k'.procs[k.active] == k.procs[k.active]
  {
    CallShape(k, c);
  }

  /**
   The result of every call but exit, in the register of its caller: the return code if the
   call does not block, the number of the call if it does. So the return code arrives exactly
   if the call does not block or the two happen to be the same.
   */
  lemma CallResult(k: Kernel, c: Call)
    requires Inv(k) && Enabled(k, Syscall(c)) && !c.Exit?
    ensures var k' := Step(k, Syscall(c)); var eax := k'.procs[k.active].eax;
            && (k'.active == k.active <==> !Blocks(k, c))
            && eax == (if Blocks(k, c) then CallNumber(c) else ReturnCode(k, c))
            && (eax == ReturnCode(k, c) <==> !Blocks(k, c) || ReturnCode(k, c) == CallNumber(c))
            && k'.procs[k.active].pid == Running(k) && Live(k'.procs, k.active)
  {
    assert Live(k.procs, k.active);
    StepPids(k, Syscall(c));
    hide Inv, Step, Enabled, CallEffect, Running, Live;
    if Blocks(k, c) {
      BlockedCall(k, c);
    } else {
      ReturningCall(k, c);
    }
  }

  /**
   kmutex_lock gives its caller the number of locks exactly if it found none, or as many as
   make that number the number of the call; for an id out of range it gives -1.
   */
  lemma LockResultExact(k: Kernel, id: int)
    requires Inv(k) && Enabled(k, Syscall(MutexLock(id)))
    ensures var eax := Step(k, Syscall(MutexLock(id))).procs[k.active].eax;
            if 0 <= id < MUTEX_MAX
            then eax == k.mutexes[id].locks + 1 <==> k.mutexes[id].locks in {0, 11}
            else eax == -1
  {
    CallResult(k, MutexLock(id));
    if 0 <= id < MUTEX_MAX {
      assert LockOk(k.mutexes[id]);
      hide Inv, Step, LockOk;
      assert ReturnCode(k, MutexLock(id)) == k.mutexes[id].locks + 1;
    }
  }

  /** A sleeper never sees its 0. */
  lemma SleepResult(k: Kernel, seconds: int)
    requires Inv(k) && Enabled(k, Syscall(Sleep(seconds)))
    ensures ReturnCode(k, Sleep(seconds)) == 0
    ensures Step(k, Syscall(Sleep(seconds))).procs[k.active].eax == 6
  {
    hide Inv, Step;
    CallResult(k, Sleep(seconds));
  }

  /** Entry d is not the active one before any event of es. */
  ghost predicate IdlesThrough(k: Kernel, es: seq<Event>, d: int)
    decreases |es|
  {
    es != [] ==> k.active != d && IdlesThrough(Step(k, es[0]), es[1..], d)
  }

  lemma {:induction false} RunEax(k: Kernel, es: seq<Event>, d: Slot)
    requires Inv(k) && Legal(k, es) && Live(k.procs, d) && IdlesThrough(k, es, d)
    ensures Run(k, es).procs[d].eax == k.procs[d].eax
    decreases |es|
  {
    if es != [] {
      hide Inv, Step, Enabled, Live;
      StepKeeps(k, es[0]);
      StepEax(k, es[0], d);
      RunEax(Step(k, es[0]), es[1..], d);
    }
  }

  /**
   What a caller finds in its result register when it runs again, whatever happened meanwhile:
   the return code if the call did not block, and otherwise the number of the call.
   */
  lemma ResultWhenItRuns(k: Kernel, c: Call, es: seq<Event>)
    requires Inv(k) && Enabled(k, Syscall(c)) && !c.Exit?
    requires Legal(Step(k, Syscall(c)), es) && IdlesThrough(Step(k, Syscall(c)), es, k.active)
    ensures var eax := Run(Step(k, Syscall(c)), es).procs[k.active].eax;
            && eax == (if Blocks(k, c) then CallNumber(c) else ReturnCode(k, c))
            && (eax == ReturnCode(k, c) <==> !Blocks(k, c) || ReturnCode(k, c) == CallNumber(c))
  {
    hide Inv, Step, CallEffect, Live, Legal, IdlesThrough, Blocks;
    CallResult(k, c);
    StepKeeps(k, Syscall(c));
    RunEax(Step(k, Syscall(c)), es, k.active);
  }

  /**
   An unlock returns at once: -1 for an id out of range, 0 for an unlocked mutex, -1 for
   somebody else's, all without effect, and otherwise the number of locks that are left.
   */
  lemma UnlockReturns(k: Kernel, id: int)
    requires Inv(k) && Enabled(k, Syscall(MutexUnlock(id)))
    ensures var k' := Step(k, Syscall(MutexUnlock(id))); var eax := k'.procs[k.active].eax;
            && k'.active == k.active
            && if 0 <= id < MUTEX_MAX && k.mutexes[id].locks > 0 && k.mutexes[id].owner == k.active
               then eax == k'.mutexes[id].locks == k.mutexes[id].locks - 1
               else
                 && eax == (if 0 <= id < MUTEX_MAX && k.mutexes[id].locks == 0 then 0 else -1)
                 && k'.mutexes == k.mutexes && k'.run == k.run
  {
    var k1 := SetEax(k, SYSCALL_MUTEX_UNLOCK);
    SetEaxKeeps(k, SYSCALL_MUTEX_UNLOCK);
    MutexUnlockKeeps(k1, id);
    if 0 <= id < MUTEX_MAX {
      assert LockOk(k.mutexes[id]);
      if k.mutexes[id].locks > 1 && k.mutexes[id].owner == k.active {
        UnlockHandsOver(k1, id);
      }
    }
    var (k2, rc) := KmutexUnlock(k1, id);
    SetEaxKeeps(k2, rc);
    assert IrqHandler(k1, Syscall(MutexUnlock(id))) == SetEax(k2, rc);
    GoesOn(SetEax(k2, rc));
  }

  /** The scheduler changes nothing while the active process has time left. */
  lemma GoesOn(k: Kernel)
    requires Core(k, NULL) && k.active != NULL && k.procs[k.active].cpuTime < SCHEDULER_TIMESLICE
    ensures SchedulerRun(k) == k
  {
    DropInactiveSame(k);
    DispatchRun(k);
  }

  // ----- Run time -----

  function ActiveTicks(k: Kernel, es: seq<Event>, d: int): nat
    decreases |es|
  {
    if es == [] then 0
    else (if es[0].Timer? && k.active == d then 1 else 0) + ActiveTicks(Step(k, es[0]), es[1..], d)
  }

  /** The process in entry d does not end during es. */
  ghost predicate LivesThrough(k: Kernel, es: seq<Event>, d: int)
    decreases |es|
  {
    es != [] ==> !(k.active == d && Ends(k, es[0])) && LivesThrough(Step(k, es[0]), es[1..], d)
  }

  lemma CallRunTime(k: Kernel, c: Call, d: Slot)
    requires Core(k, NULL) && k.active != NULL && k.procs[k.active].pid != 0 && CallAllowed(k, c)
    requires Live(k.procs, d) && !(d == k.active && c.Exit?)
    ensures CallEffect(k, c).0.procs[d].runTime == k.procs[d].runTime
  {
    CallShape(k, c);
  }

  lemma HandlerRunTime(k: Kernel, e: Event, d: Slot)
    requires Core(k, NULL) && Enabled(k, e) && Live(k.procs, d) && !(d == k.active && Ends(k, e))
    ensures IrqHandler(k, e).procs[d].runTime
         == k.procs[d].runTime + (if e.Timer? && d == k.active then 1 else 0)
  {
    match e
    case Timer(_) => SchedulerTimerOnly(k);
    case KeyNew(_) =>
      CreateKeeps(k);
      assert k.freeEntries != [] ==> k.freeEntries[0] in k.freeEntries;
    case KeyQuit(_) => DestroyKeeps(k);
    case OtherIrq(_) =>
    case Syscall(c) => CallRunTime(k, c, d);
  }

  /** Over one kernel entry a process is charged exactly for a tick that finds it active. */
  lemma StepRunTime(k: Kernel, e: Event, d: Slot)
    requires Inv(k) && Enabled(k, e) && Live(k.procs, d) && !(d == k.active && Ends(k, e))
    ensures Step(k, e).procs[d].runTime == k.procs[d].runTime + (if e.Timer? && d == k.active then 1 else 0)
    ensures Live(Step(k, e).procs, d)
  {
    var k1 := SetEax(k, EntryEax(e));
    SetEaxKeeps(k, EntryEax(e));
    HandlerRunTime(k1, e, d);
    StepPids(k, e);
    SchedulerRunOnly(IrqHandler(k1, e));
  }

  /** The run time of a process counts the ticks that found it active, no more and no less. */
  lemma {:induction false} RunTime(k: Kernel, es: seq<Event>, d: Slot)
    requires Inv(k) && Legal(k, es) && Live(k.procs, d) && LivesThrough(k, es, d)
    ensures Run(k, es).procs[d].runTime == k.procs[d].runTime + ActiveTicks(k, es, d)
    decreases |es|
  {
    if es != [] {
      hide Inv, Step, Enabled, Live, Ends;
      StepKeeps(k, es[0]);
      StepRunTime(k, es[0], d);
      RunTime(Step(k, es[0]), es[1..], d);
    }
  }
}
