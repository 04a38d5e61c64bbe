/** Every operation, and so every kernel entry, keeps the kernel invariant. */
module Preservation {
  import opened Seqs
  import opened KernelModel
  import opened Invariant
  import RemoveOrder

  // ----- scheduler.c -----

  /** scheduler_add of the floating process. */
  lemma AddKeeps(k: Kernel, f: Entry)
    requires Core(k, f) && f != NULL && Live(k.procs, f)
    ensures Core(SchedulerAdd(k, f), NULL)
    ensures SchedulerAdd(k, f) == k.(procs := k.procs[f := k.procs[f].(queue := RunQueue, state := Idle, cpuTime := 0)],
                                     run := k.run + [k.procs[f].pid])
  {
    var v := k.procs[f].(queue := RunQueue, state := Idle, cpuTime := 0);
    Edit(k, f, v);
    PlaceRun(k.(procs := k.procs[f := v]), f);
  }

  /** scheduler_remove of the active process changes no queue. */
  lemma RemoveActive(k: Kernel)
    requires k.active != NULL
    requires k.procs[k.active].pid !in k.run && k.procs[k.active].pid !in k.sleep
    ensures SchedulerRemove(k, k.active)
         == k.(procs := k.procs[k.active := k.procs[k.active].(queue := NoQueue)], active := NULL)
  {
    var p := k.procs[k.active];
    RemoveOrder.RemoveAbsent(k.run, p.pid);
    RemoveOrder.RemoveAbsent(k.sleep, p.pid);
    assert p.queue == NoQueue ==> k.procs[k.active := p.(queue := NoQueue)] == k.procs;
  }

  function Slept(k: Kernel, time: int): Kernel
    requires k.active != NULL
  {
    var p := k.procs[k.active];
    k.(procs := k.procs[k.active := p.(sleepTime := time, state := Sleeping, queue := SleepQueue)],
       sleep := k.sleep + [p.pid], active := NULL)
  }

  lemma SleepKeeps(k: Kernel, time: int)
    requires Core(k, NULL) && k.active != NULL && k.procs[k.active].pid != 0
    ensures Core(SchedulerSleep(k, k.active, time), NULL)
    ensures SchedulerSleep(k, k.active, time) == Slept(k, time)
  {
    var a := k.active;
    var p := k.procs[a];
    FloatActive(k);
    var k1 := k.(procs := k.procs[a := p.(sleepTime := time)]);
    RemoveActive(k1);
    var v := p.(sleepTime := time, state := Sleeping, queue := SleepQueue);
    Edit(k.(active := NULL), a, v);
    PlaceSleep(k.(active := NULL, procs := k.procs[a := v]), a);
    assert SchedulerRemove(k1, a).procs[a := v] == k.procs[a := v];
  }

  lemma TimerVisitKeeps(k: Kernel)
    requires Core(k, NULL) && k.sleep != []
    ensures Core(TimerVisit(k), NULL)
  {
    hide Core;
    var pid := k.sleep[0];
    FloatSleepHead(k);
    var k1 := k.(sleep := k.sleep[1..]);
    var f := PidToProc(k.procs, pid);
    var v := k.procs[f].(sleepTime := k.procs[f].sleepTime - 1);
    Edit(k1, f, v);
    var k2 := k1.(procs := k.procs[f := v]);
    if k.procs[f].sleepTime >= 0 {
      PlaceSleep(k2, f);
      assert TimerVisit(k) == k2.(sleep := k2.sleep + [pid]);
    } else {
      AddKeeps(k2, f);
      assert TimerVisit(k) == SchedulerAdd(k2, f);
    }
  }

  lemma TimerLoopIs(k: Kernel, i: nat)
    ensures i >= |k.sleep| ==> TimerLoop(k, i) == k
    ensures i < |k.sleep| ==> |TimerVisit(k).sleep| <= |k.sleep| && TimerLoop(k, i) == TimerLoop(TimerVisit(k), i + 1)
  {
  }

  lemma {:induction false} TimerLoopKeeps(k: Kernel, i: nat)
    requires Core(k, NULL)
    ensures Core(TimerLoop(k, i), NULL)
    decreases |k.sleep| - i
  {
    hide Core, TimerVisit;
    if i < |k.sleep| {
      var k1 := TimerVisit(k);
      TimerVisitKeeps(k);
      TimerLoopKeeps(k1, i + 1);
      assert TimerLoop(k, i) == TimerLoop(k1, i + 1);
    }
  }

  /** A placed process may change its times and registers. */
  lemma Retime(k: Kernel, e: Slot, v: Pcb)
    requires Core(k, NULL) && Live(k.procs, e)
    requires v.pid == k.procs[e].pid && v.state == k.procs[e].state && v.queue == k.procs[e].queue
    ensures Core(k.(procs := k.procs[e := v]), NULL)
  {
    var t := k.procs[e := v];
    var k' := k.(procs := t);
    RetimeQueue(k.procs, k.run, Idle, e, v);
    RetimeQueue(k.procs, k.sleep, Sleeping, e, v);
    assert WaitersOk(t, k.mutexes, NULL) by {
      forall m | 0 <= m < MUTEX_MAX ensures QueueOf(t, k.mutexes[m].waiters, Waiting, NULL) {
        RetimeQueue(k.procs, k.mutexes[m].waiters, Waiting, e, v);
      }
    }
    assert Placed(k', NULL) by {
      forall d: Slot ensures Home(k', d) {
        assert Home(k, d);
      }
    }
    assert TableOk(t, k.freeEntries, k.nextPid) by {
      assert forall d | 0 <= d < PROC_MAX :: Live(t, d) == Live(k.procs, d);
    }
  }

  lemma RetimeQueue(t: ProcTable, q: seq<int>, state: ProcState, e: Slot, v: Pcb)
    requires QueueOf(t, q, state, NULL)
    requires v.pid == t[e].pid && v.state == t[e].state
    ensures QueueOf(t[e := v], q, state, NULL)
  {
    LookupSame(t, t[e := v]);
  }

  lemma ChargeKeeps(k: Kernel)
    requires Core(k, NULL)
    ensures Core(ChargeActive(k), NULL)
  {
    if k.active != NULL {
      assert Live(k.procs, k.active);
      var p := k.procs[k.active];
      var v := p.(runTime := p.runTime + 1, cpuTime := p.cpuTime + 1);
      Retime(k, k.active, v);
      assert ChargeActive(k) == k.(procs := k.procs[k.active := v]);
    }
  }

  lemma SchedulerTimerKeeps(k: Kernel)
    requires Core(k, NULL)
    ensures Core(SchedulerTimer(k), NULL)
  {
    ChargeKeeps(k);
    TimerLoopKeeps(ChargeActive(k), 0);
  }

  lemma DropInactiveSame(k: Kernel)
    requires Core(k, NULL)
    ensures DropInactive(k) == k
  {
  }

  /** The idle process is the only one that may be ready without being queued. */
  lemma PlaceIdle(k: Kernel)
    requires Core(k, 0) && k.procs[0].state == Idle && k.procs[0].queue == RunQueue
    ensures Core(k, NULL)
  {
    WeakenWaiters(k.procs, k.mutexes, 0);
    forall e: Slot ensures Home(k, e) {
      assert e != 0 ==> Home(k, e);
    }
  }

  lemma PreemptKeeps(k: Kernel)
    requires Core(k, NULL)
    ensures Core(Preempt(k), NULL)
  {
    var a := k.active;
    if a != NULL && k.procs[a].cpuTime >= SCHEDULER_TIMESLICE {
      var p := k.procs[a];
      FloatActive(k);
      assert Live(k.procs, a) && Home(k, a);
      if p.pid != 0 {
        var k1 := k.(active := NULL, procs := k.procs[a := p.(cpuTime := 0)]);
        Edit(k.(active := NULL), a, p.(cpuTime := 0));
        AddKeeps(k1, a);
        assert Preempt(k) == SchedulerAdd(k1, a);
      } else {
        LookupLive(k.procs, k.freeEntries, k.nextPid, a);
        var v := p.(cpuTime := 0, state := Idle);
        var k1 := k.(active := NULL, procs := k.procs[a := v]);
        Edit(k.(active := NULL), a, v);
        assert a == 0;
        PlaceIdle(k1);
        assert k.procs[a := p.(cpuTime := 0)][a := v] == k.procs[a := v];
        assert Preempt(k) == k1;
      }
    }
  }

  /** With nothing active and nothing queued, the idle process is there to be run. */
  lemma FloatIdle(k: Kernel)
    requires Core(k, NULL) && k.active == NULL && k.run == []
    ensures PidToProc(k.procs, 0) == 0
    ensures k.procs[0].state == Idle && k.procs[0].queue == RunQueue
    ensures Core(k, 0)
  {
    LookupLive(k.procs, k.freeEntries, k.nextPid, 0);
    assert Home(k, 0);
    OtherState(k.procs, k.sleep, Sleeping, 0);
    OtherStateWaiters(k.procs, k.mutexes, 0);
  }

  lemma DispatchKeeps(k: Kernel)
    requires Core(k, NULL)
    ensures Core(Dispatch(k), NULL)
    ensures Dispatch(k).active != NULL
  {
    if k.active != NULL {
      assert k.procs[k.active := k.procs[k.active].(state := Active)] == k.procs;
      assert Dispatch(k) == k;
    } else {
      var f: Entry, k1: Kernel;
      if k.run == [] {
        FloatIdle(k);
        f, k1 := 0, k;
      } else {
        FloatRunHead(k);
        f, k1 := PidToProc(k.procs, k.run[0]), k.(run := k.run[1..]);
      }
      var v := k.procs[f].(state := Active);
      Edit(k1, f, v);
      PlaceActive(k1.(procs := k.procs[f := v]), f);
      assert Dispatch(k) == k1.(procs := k.procs[f := v], active := f);
    }
  }

  lemma SchedulerRunKeeps(k: Kernel)
    requires Core(k, NULL)
    ensures Core(SchedulerRun(k), NULL)
    ensures SchedulerRun(k).active != NULL
  {
    DropInactiveSame(k);
    PreemptKeeps(k);
    DispatchKeeps(Preempt(k));
  }

  // ----- kproc.c -----

  /** A queue of live processes is unaffected when a table entry outside it is reused or freed. */
  lemma QueueReplace(t: ProcTable, free: seq<Slot>, nextPid: int,
                     t': ProcTable, free': seq<Slot>, nextPid': int,
                     q: seq<int>, state: ProcState, f: Slot, g: Entry)
    requires TableOk(t, free, nextPid) && TableOk(t', free', nextPid')
    requires forall e | 0 <= e < PROC_MAX && e != f :: t'[e] == t[e]
    requires QueueOf(t, q, state, f) && state != NoState && g in {f, NULL}
    ensures QueueOf(t', q, state, g)
  {
    forall p | p in q ensures StateOf(t', p) == state && PidToProc(t', p) != g {
      var r := PidToProc(t, p);
      LookupLive(t', free', nextPid', r);
    }
  }

  lemma ReplaceKeepsPlaces(k: Kernel, k': Kernel, f: Slot, g: Entry)
    requires Core(k, f) && TableOk(k'.procs, k'.freeEntries, k'.nextPid)
    requires forall e | 0 <= e < PROC_MAX && e != f :: k'.procs[e] == k.procs[e]
    requires k' == k.(procs := k'.procs, freeEntries := k'.freeEntries, nextPid := k'.nextPid)
    requires g == f || (g == NULL && k'.procs[f].state == NoState)
    ensures Core(k', g)
  {
    forall q, s | QueueOf(k.procs, q, s, f) && s != NoState ensures QueueOf(k'.procs, q, s, g) {
      QueueReplace(k.procs, k.freeEntries, k.nextPid, k'.procs, k'.freeEntries, k'.nextPid, q, s, f, g);
    }
    assert WaitersOk(k'.procs, k'.mutexes, g) by {
      forall m | 0 <= m < MUTEX_MAX ensures QueueOf(k'.procs, k'.mutexes[m].waiters, Waiting, g) {
        assert QueueOf(k.procs, k.mutexes[m].waiters, Waiting, f);
      }
    }
    forall e: Slot | e != g ensures Home(k', e) {
      assert e != f ==> Home(k, e);
    }
  }

  /** A free entry is in no queue. */
  lemma FloatFree(k: Kernel, e: Slot)
    requires Core(k, NULL) && !Live(k.procs, e)
    ensures Core(k, e)
  {
    OtherState(k.procs, k.run, Idle, e);
    OtherState(k.procs, k.sleep, Sleeping, e);
    OtherStateWaiters(k.procs, k.mutexes, e);
  }

  lemma CreateKeeps(k: Kernel)
    requires Core(k, NULL)
    ensures Core(KprocCreate(k).0, NULL)
    ensures k.freeEntries != [] ==>
              && KprocCreate(k).1 == k.nextPid
              && KprocCreate(k).0.run == k.run + [k.nextPid]
              && KprocCreate(k).0.active == k.active && KprocCreate(k).0.sleep == k.sleep
              && KprocCreate(k).0.mutexes == k.mutexes
              && KprocCreate(k).0.procs == k.procs[k.freeEntries[0] := Pcb(k.nextPid, Idle, 0, 0, 0, RunQueue, 0)]
  {
    if k.freeEntries != [] {
      var e := k.freeEntries[0];
      var v := Pcb(k.nextPid, Idle, 0, 0, 0, NoQueue, 0);
      var k1 := k.(procs := k.procs[e := v], nextPid := k.nextPid + 1, freeEntries := k.freeEntries[1..]);
      assert e in k.freeEntries;
      assert TableOk(k1.procs, k1.freeEntries, k1.nextPid) by {
        assert k.freeEntries == [e] + k1.freeEntries;
        assert forall d | 0 <= d < PROC_MAX && d != e :: Live(k1.procs, d) == Live(k.procs, d);
      }
      FloatFree(k, e);
      ReplaceKeepsPlaces(k, k1, e, e);
      AddKeeps(k1, e);
      assert KprocCreate(k).0 == SchedulerAdd(k1, e);
    }
  }

  function Exited(k: Kernel): Kernel
    requires k.active != NULL
  {
    k.(procs := k.procs[k.active := FREE_PCB], freeEntries := k.freeEntries + [k.active], active := NULL)
  }

  /** The allocator always has room for an entry that is given back. */
  lemma FreeEntry(t: ProcTable, free: seq<Slot>, nextPid: int, e: Slot)
    requires TableOk(t, free, nextPid) && Live(t, e) && e != 0
    ensures TableOk(t[e := FREE_PCB], free + [e], nextPid)
    ensures |free| < PROC_MAX
  {
    var t' := t[e := FREE_PCB];
    assert forall d | 0 <= d < PROC_MAX && d != e :: Live(t', d) == Live(t, d);
    assert NoDup(free + [e]);
    Pigeonhole(free + [e], 0, PROC_MAX);
  }

  /** The exit of the active process, which frees exactly its own entry. */
  lemma DestroyKeeps(k: Kernel)
    requires Core(k, NULL) && k.active != NULL
    ensures Core(KprocDestroy(k, k.active).0, NULL)
    ensures k.procs[k.active].pid != 0 ==> KprocDestroy(k, k.active) == (Exited(k), 0)
  {
    var a := k.active;
    if k.procs[a].pid != 0 {
      FloatActive(k);
      RemoveActive(k);
      var v := k.procs[a].(queue := NoQueue);
      var k1 := k.(active := NULL, procs := k.procs[a := v]);
      Edit(k.(active := NULL), a, v);
      assert SchedulerRemove(k, a) == k1;
      LookupLive(k1.procs, k1.freeEntries, k1.nextPid, a);
      var k2 := k1.(procs := k1.procs[a := FREE_PCB], freeEntries := k.freeEntries + [a]);
      FreeEntry(k1.procs, k1.freeEntries, k1.nextPid, a);
      ReplaceKeepsPlaces(k1, k2, a, NULL);
      assert KprocDestroy(k, a).0 == k2;
      assert k2.procs == k.procs[a := FREE_PCB];
    }
  }

  // ----- kmutex.c -----

  lemma MutexInitKeeps(k: Kernel)
    requires Core(k, NULL)
    ensures Core(KmutexInit(k).0, NULL)
  {
    if k.freeMutexes != [] {
      var id := k.freeMutexes[0];
      var k' := KmutexInit(k).0;
      assert id in k.freeMutexes && LockOk(k.mutexes[id]);
      assert k.freeMutexes == [id] + k'.freeMutexes;
      assert forall x | x in k'.freeMutexes :: x in k.freeMutexes && x != id;
      SameWaiters(k, k');
    }
  }

  /** Only the wait queues matter for who is where. */
  lemma SamePlaces(k: Kernel, k': Kernel)
    requires Placed(k, NULL)
    requires k' == k.(mutexes := k'.mutexes, freeMutexes := k'.freeMutexes)
    requires forall m | 0 <= m < MUTEX_MAX :: k'.mutexes[m].waiters == k.mutexes[m].waiters
    ensures Placed(k', NULL)
  {
    assert forall m, p :: WaitsOn(k'.mutexes, m, p) == WaitsOn(k.mutexes, m, p);
    forall m | 0 <= m < MUTEX_MAX ensures QueueOf(k'.procs, k'.mutexes[m].waiters, Waiting, NULL) {
      assert QueueOf(k.procs, k.mutexes[m].waiters, Waiting, NULL);
    }
    forall e: Slot ensures Home(k', e) {
      assert Home(k, e);
    }
  }

  /** Changes of mutexes and of the pool that touch no wait queue. */
  lemma SameWaiters(k: Kernel, k': Kernel)
    requires Core(k, NULL)
    requires k' == k.(mutexes := k'.mutexes, freeMutexes := k'.freeMutexes)
    requires forall m | 0 <= m < MUTEX_MAX :: k'.mutexes[m].waiters == k.mutexes[m].waiters
    requires LocksOk(k'.mutexes) && PoolOk(k'.mutexes, k'.freeMutexes)
    ensures Core(k', NULL)
  {
    SamePlaces(k, k');
  }

  /** The pool of ids never overflows. */
  lemma PoolBound(ms: MutexTable, pool: seq<int>)
    requires PoolOk(ms, pool)
    ensures |pool| <= MUTEX_MAX
  {
    forall i | 0 <= i < |pool| ensures 0 <= pool[i] < MUTEX_MAX {
      assert pool[i] in pool;
    }
    Pigeonhole(pool, 0, MUTEX_MAX);
  }

  lemma MutexDestroyKeeps(k: Kernel, id: int)
    requires Core(k, NULL) && (0 <= id < MUTEX_MAX ==> k.mutexes[id].inUse)
    ensures Core(KmutexDestroy(k, id).0, NULL)
  {
    if 0 <= id < MUTEX_MAX && k.mutexes[id].locks <= 0 {
      var k' := KmutexDestroy(k, id).0;
      assert LockOk(k.mutexes[id]);
      PoolBound(k.mutexes, k.freeMutexes);
      assert k'.freeMutexes == k.freeMutexes + [id];
      SameWaiters(k, k');
    }
  }

  /** A contended lock: the caller leaves the processor and joins the wait queue. */
  lemma LockBlocks(k: Kernel, id: int)
    requires Core(k, NULL) && k.active != NULL && k.procs[k.active].pid != 0
    requires 0 <= id < MUTEX_MAX && k.mutexes[id].locks > 0
    ensures Core(KmutexLock(k, id).0, NULL)
    ensures KmutexLock(k, id).0 == Blocked(k, id)
  {
    var a := k.active;
    var m := k.mutexes[id];
    var p := k.procs[a];
    FloatActive(k);
    var v := p.(state := Waiting, queue := NoQueue);
    var k1 := k.(active := NULL, procs := k.procs[a := v]);
    Edit(k.(active := NULL), a, v);
    PlaceWait(k1, a, id);
    var m1 := m.(waiters := m.waiters + [p.pid]);
    var k2 := k.(mutexes := k.mutexes[id := m1], procs := k.procs[a := p.(state := Waiting)]);
    RemoveActive(k2);
    assert k2.procs[a := v] == k.procs[a := v];
    assert k2.mutexes[id := m1.(locks := m.locks + 1)] == k.mutexes[id := m1.(locks := m.locks + 1)];
    assert Blocked(k, id) == k1.(mutexes := k.mutexes[id := m1.(locks := m.locks + 1)]);
  }

  function Blocked(k: Kernel, id: int): Kernel
    requires k.active != NULL && 0 <= id < MUTEX_MAX
  {
    var m := k.mutexes[id];
    var p := k.procs[k.active];
    k.(active := NULL, procs := k.procs[k.active := p.(state := Waiting, queue := NoQueue)],
       mutexes := k.mutexes[id := m.(waiters := m.waiters + [p.pid], locks := m.locks + 1)])
  }

  lemma MutexLockKeeps(k: Kernel, id: int)
    requires Core(k, NULL) && k.active != NULL && k.procs[k.active].pid != 0
    requires 0 <= id < MUTEX_MAX ==> k.mutexes[id].inUse
    ensures Core(KmutexLock(k, id).0, NULL)
  {
    if 0 <= id < MUTEX_MAX {
      var m := k.mutexes[id];
      if m.locks > 0 {
        LockBlocks(k, id);
      } else {
        var k' := k.(mutexes := k.mutexes[id := m.(owner := k.active, locks := m.locks + 1)]);
        assert LockOk(m);
        assert KmutexLock(k, id).0 == k';
        SameWaiters(k, k');
      }
    }
  }

  /** An unlock of a contended mutex hands it to the first waiter, which is live, and makes that ready. */
  lemma UnlockHandsOver(k: Kernel, id: int)
    requires Core(k, NULL) && k.active != NULL
    requires 0 <= id < MUTEX_MAX && k.mutexes[id].locks > 1 && k.mutexes[id].owner == k.active
    ensures k.mutexes[id].waiters != []
    ensures Core(KmutexUnlock(k, id).0, NULL)
    ensures KmutexUnlock(k, id).0 == HandedOver(k, id)
    ensures PidToProc(k.procs, k.mutexes[id].waiters[0]) !in {NULL, k.active}
  {
    var m := k.mutexes[id];
    assert LockOk(m);
    FloatWaiter(k, id);
    var w := PidToProc(k.procs, m.waiters[0]);
    var k1 := k.(mutexes := k.mutexes[id := m.(waiters := m.waiters[1..], locks := m.locks - 1, owner := w)]);
    AddKeeps(k1, w);
    assert KmutexUnlock(k, id).0 == SchedulerAdd(k1, w);
  }

  function HandedOver(k: Kernel, id: int): Kernel
    requires 0 <= id < MUTEX_MAX && k.mutexes[id].waiters != []
  {
    var m := k.mutexes[id];
    var w := PidToProc(k.procs, m.waiters[0]);
    if w == NULL then k
    else k.(mutexes := k.mutexes[id := m.(waiters := m.waiters[1..], locks := m.locks - 1, owner := w)],
            procs := k.procs[w := k.procs[w].(queue := RunQueue, state := Idle, cpuTime := 0)],
            run := k.run + [m.waiters[0]])
  }

  lemma MutexUnlockKeeps(k: Kernel, id: int)
    requires Core(k, NULL) && k.active != NULL
    ensures Core(KmutexUnlock(k, id).0, NULL)
  {
    if 0 <= id < MUTEX_MAX && k.mutexes[id].locks != 0 && k.mutexes[id].owner == k.active {
      var m := k.mutexes[id];
      assert LockOk(m);
      if m.locks == 1 {
        var k' := k.(mutexes := k.mutexes[id := m.(owner := NULL, locks := 0)]);
        assert KmutexUnlock(k, id).0 == k';
        SameWaiters(k, k');
      } else {
        UnlockHandsOver(k, id);
      }
    }
  }

  // ----- ksyscall.c and kernel.c -----

  lemma SetEaxKeeps(k: Kernel, eax: int)
    requires Core(k, NULL)
    ensures Core(SetEax(k, eax), NULL)
  {
    if k.active != NULL {
      assert Live(k.procs, k.active);
      Retime(k, k.active, k.procs[k.active].(eax := eax));
      assert SetEax(k, eax) == k.(procs := k.procs[k.active := k.procs[k.active].(eax := eax)]);
    }
  }

  lemma CallKeeps(k: Kernel, c: Call)
    requires Core(k, NULL) && k.active != NULL && k.procs[k.active].pid != 0 && CallAllowed(k, c)
    ensures Core(CallEffect(k, c).0, NULL)
  {
    match c
    case Sleep(seconds) => SleepKeeps(k, seconds * 100);
    case Exit => DestroyKeeps(k);
    case MutexInit => MutexInitKeeps(k);
    case MutexDestroy(id) => MutexDestroyKeeps(k, id);
    case MutexLock(id) => MutexLockKeeps(k, id);
    case MutexUnlock(id) => MutexUnlockKeeps(k, id);
    case Other(_, _) =>
  }

  /** What the calls that move a process leave behind, all at once. */
  lemma CallShape(k: Kernel, c: Call)
    requires Core(k, NULL) && k.active != NULL && k.procs[k.active].pid != 0 && CallAllowed(k, c)
    ensures c.Sleep? ==> CallEffect(k, c) == (Slept(k, c.seconds * 100), 0)
    ensures c.Exit? ==> CallEffect(k, c) == (Exited(k), 0)
    ensures c.MutexLock? && 0 <= c.id < MUTEX_MAX && k.mutexes[c.id].locks > 0 ==>
              CallEffect(k, c).0 == Blocked(k, c.id)
    ensures c.MutexUnlock? && 0 <= c.id < MUTEX_MAX
            && k.mutexes[c.id].locks > 1 && k.mutexes[c.id].owner == k.active ==>
              && k.mutexes[c.id].waiters != [] && CallEffect(k, c).0 == HandedOver(k, c.id)
              && PidToProc(k.procs, k.mutexes[c.id].waiters[0]) != NULL
              && k.procs[PidToProc(k.procs, k.mutexes[c.id].waiters[0])].state == Waiting
              && k.mutexes[c.id].waiters[0] != 0
  {
    match c
    case Sleep(seconds) => SleepKeeps(k, seconds * 100);
    case Exit => DestroyKeeps(k);
    case MutexLock(id) =>
      if 0 <= id < MUTEX_MAX && k.mutexes[id].locks > 0 {
        LockBlocks(k, id);
      }
    case MutexUnlock(id) =>
      if 0 <= id < MUTEX_MAX && k.mutexes[id].locks > 1 && k.mutexes[id].owner == k.active {
        UnlockHandsOver(k, id);
        FloatWaiter(k, id);
      }
    case _ =>
  }

  lemma HandlerKeeps(k: Kernel, e: Event)
    requires Core(k, NULL) && Enabled(k, e)
    ensures Core(IrqHandler(k, e), NULL)
  {
    match e
    case Timer(_) => SchedulerTimerKeeps(k);
    case KeyNew(_) => CreateKeeps(k);
    case KeyQuit(_) => DestroyKeeps(k);
    case OtherIrq(_) =>
    case Syscall(c) =>
      CallKeeps(k, c);
      SetEaxKeeps(CallEffect(k, c).0, CallEffect(k, c).1);
  }

  /** A kernel entry from any state that satisfies the invariant ends with a process to run. */
  lemma StepKeepsCore(k: Kernel, e: Event)
    requires Core(k, NULL) && Enabled(k, e)
    ensures Core(Step(k, e), NULL)
    ensures Step(k, e).active != NULL
  {
    SetEaxKeeps(k, EntryEax(e));
    HandlerKeeps(SetEax(k, EntryEax(e)), e);
    SchedulerRunKeeps(IrqHandler(SetEax(k, EntryEax(e)), e));
  }
}
