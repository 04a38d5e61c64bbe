/** What every reachable kernel state satisfies, stated on counts, and where the code loses track. */
module Accounting {
  import opened Seqs
  import opened KernelModel
  import opened Invariant
  import opened Preservation
  import opened Reachability
  import opened BoundedWaiting
  import opened MutexRuns

  // ----- Placement -----

  function Count(q: seq<int>, p: int): nat {
    multiset(q)[p]
  }

  function WaitCount(ms: MutexTable, p: int, n: nat): nat
    requires n <= MUTEX_MAX
  {
    if n == 0 then 0 else WaitCount(ms, p, n - 1) + Count(ms[n - 1].waiters, p)
  }

  /** The number of places in which pid p is found: the processor and all the queues. */
  function Places(k: Kernel, p: int): nat {
    (if k.active != NULL && Running(k) == p then 1 else 0)
    + Count(k.run, p) + Count(k.sleep, p) + WaitCount(k.mutexes, p, MUTEX_MAX)
  }

  lemma {:induction false} CountNoDup(q: seq<int>, p: int)
    requires NoDup(q)
    ensures Count(q, p) == if p in q then 1 else 0
  {
    if q != [] {
      CountNoDup(q[1..], p);
      assert q == [q[0]] + q[1..];
      assert p == q[0] ==> p !in q[1..];
    }
  }

  lemma {:induction false} WaitCountNone(ms: MutexTable, p: int, n: nat)
    requires n <= MUTEX_MAX && forall m | 0 <= m < n :: !WaitsOn(ms, m, p)
    ensures WaitCount(ms, p, n) == 0
  {
    if n > 0 {
      WaitCountNone(ms, p, n - 1);
      assert !WaitsOn(ms, n - 1, p);
    }
  }

  lemma {:induction false} WaitCountOne(ms: MutexTable, p: int, n: nat, m: nat)
    requires m < n <= MUTEX_MAX && NoDup(ms[m].waiters) && WaitsOn(ms, m, p)
    requires forall i | 0 <= i < n && i != m :: !WaitsOn(ms, i, p)
    ensures WaitCount(ms, p, n) == 1
  {
    if m == n - 1 {
      WaitCountNone(ms, p, n - 1);
      CountNoDup(ms[m].waiters, p);
    } else {
      WaitCountOne(ms, p, n - 1, m);
      assert !WaitsOn(ms, n - 1, p);
    }
  }

  /** Where a pid is, by the state of its process. */
  lemma QueueMembers(k: Kernel, e: Slot)
    requires Core(k, NULL) && Live(k.procs, e)
    ensures var p := k.procs[e].pid; var st := k.procs[e].state;
            && (k.active != NULL && Running(k) == p <==> st == Active)
            && (p in k.run ==> st == Idle) && (p in k.sleep <==> st == Sleeping)
            && ((exists m :: WaitsOn(k.mutexes, m, p)) <==> st == Waiting)
            && (st == Idle ==> p in k.run || e == 0)
  {
    var p := k.procs[e].pid;
    LookupLive(k.procs, k.freeEntries, k.nextPid, e);
    if k.active != NULL {
      LookupLive(k.procs, k.freeEntries, k.nextPid, k.active);
    }
    assert Home(k, e);
    forall m | WaitsOn(k.mutexes, m, p) ensures k.procs[e].state == Waiting {
      assert QueueOf(k.procs, k.mutexes[m].waiters, Waiting, NULL);
    }
  }

  /** A live process is in exactly one place; only the idle process may be ready in none. */
  lemma OnePlace(k: Kernel, e: Slot)
    requires Core(k, NULL) && Live(k.procs, e)
    ensures Places(k, k.procs[e].pid)
         == if e == 0 && k.procs[0].state == Idle && 0 !in k.run then 0 else 1
  {
    var p := k.procs[e].pid;
    QueueMembers(k, e);
    CountNoDup(k.run, p);
    CountNoDup(k.sleep, p);
    if k.procs[e].state == Waiting {
      var m :| WaitsOn(k.mutexes, m, p);
      WaiterOnce(k, m, p);
    } else {
      WaitCountNone(k.mutexes, p, MUTEX_MAX);
    }
  }

  lemma WaiterOnce(k: Kernel, m: nat, p: int)
    requires Core(k, NULL) && WaitsOn(k.mutexes, m, p)
    ensures WaitCount(k.mutexes, p, MUTEX_MAX) == 1
  {
    assert QueueOf(k.procs, k.mutexes[m].waiters, Waiting, NULL);
    WaitCountOne(k.mutexes, p, MUTEX_MAX, m);
  }

  /** A pid that no live process has is in no place. */
  lemma NoPlace(k: Kernel, p: int)
    requires Core(k, NULL) && forall e | Live(k.procs, e) :: k.procs[e].pid != p
    ensures Places(k, p) == 0
  {
    assert StateOf(k.procs, p) == NoState by {
      var r := PidToProc(k.procs, p);
      assert r != NULL ==> !Live(k.procs, r);
    }
    CountNoDup(k.run, p);
    CountNoDup(k.sleep, p);
    forall m | 0 <= m < MUTEX_MAX ensures !WaitsOn(k.mutexes, m, p) {
      assert QueueOf(k.procs, k.mutexes[m].waiters, Waiting, NULL);
    }
    WaitCountNone(k.mutexes, p, MUTEX_MAX);
    if k.active != NULL {
      assert Live(k.procs, k.active);
    }
  }

  /**
   Placement over every run from boot: every live process is in exactly one of the
   processor, the run queue, the sleep queue and the wait queues, in the one that its
   state names; only the idle process may be IDLE in no queue; and dead pids are nowhere.
   */
  lemma Placement(es: seq<Event>)
    requires Legal(Boot(), es)
    ensures var k := Run(Boot(), es);
            && (forall e: Slot | Live(k.procs, e) ::
                  Places(k, k.procs[e].pid) == if e == 0 && k.procs[0].state == Idle && 0 !in k.run then 0 else 1)
            && (forall e: Slot | Live(k.procs, e) :: Home(k, e))
            && (forall p | (forall e | Live(k.procs, e) :: k.procs[e].pid != p) :: Places(k, p) == 0)
  {
    var k := Run(Boot(), es);
    BootInv();
    RunKeeps(Boot(), es);
    hide Boot, Run, Legal;
    forall e: Slot | Live(k.procs, e)
      ensures Places(k, k.procs[e].pid) == if e == 0 && k.procs[0].state == Idle && 0 !in k.run then 0 else 1
    {
      OnePlace(k, e);
    }
    forall p | (forall e | Live(k.procs, e) :: k.procs[e].pid != p) ensures Places(k, p) == 0 {
      NoPlace(k, p);
    }
  }

  // ----- The process table -----

  /** Free and live entries partition the table, and no two processes share a pid. */
  lemma TablePartition(es: seq<Event>)
    requires Legal(Boot(), es)
    ensures var k := Run(Boot(), es);
            && (forall e: Slot :: Count(k.freeEntries, e) + (if Live(k.procs, e) then 1 else 0) == 1)
            && (forall d: Slot, e: Slot | Live(k.procs, d) && Live(k.procs, e) && d != e ::
                  k.procs[d].pid != k.procs[e].pid)
            && (forall e: Slot | Live(k.procs, e) :: Found(k, e))
            && Live(k.procs, 0) && PidToProc(k.procs, 0) == 0
  {
    BootInv();
    RunKeeps(Boot(), es);
    CorePartition(Run(Boot(), es));
  }

  /** Both lookups find entry e, whose pid was handed out. */
  predicate Found(k: Kernel, e: Slot) {
    PidToProc(k.procs, k.procs[e].pid) == e == ProcToEntry(k.procs, e) && 0 <= k.procs[e].pid < k.nextPid
  }

  lemma CorePartition(k: Kernel)
    requires Core(k, NULL)
    ensures forall e: Slot :: Count(k.freeEntries, e) + (if Live(k.procs, e) then 1 else 0) == 1
    ensures forall d: Slot, e: Slot | Live(k.procs, d) && Live(k.procs, e) && d != e :: k.procs[d].pid != k.procs[e].pid
    ensures forall e: Slot | Live(k.procs, e) :: Found(k, e)
    ensures Live(k.procs, 0) && PidToProc(k.procs, 0) == 0
  {
    forall e: Slot ensures Count(k.freeEntries, e) + (if Live(k.procs, e) then 1 else 0) == 1 {
      CountNoDup(k.freeEntries, e);
    }
    forall e: Slot | Live(k.procs, e) ensures Found(k, e) {
      LookupLive(k.procs, k.freeEntries, k.nextPid, e);
    }
  }

  /** A create yields a pid that no process has, for a process that is then ready and in one place. */
  lemma CreateFresh(k: Kernel)
    requires Core(k, NULL)
    ensures KprocCreate(k).1 == (if k.freeEntries == [] then -1 else k.nextPid)
    ensures k.freeEntries != [] ==>
              && StateOf(k.procs, k.nextPid) == NoState
              && StateOf(KprocCreate(k).0.procs, k.nextPid) == Idle
              && Places(KprocCreate(k).0, k.nextPid) == 1
  {
    if k.freeEntries != [] {
      CreateKeeps(k);
      var k' := KprocCreate(k).0;
      var e := k.freeEntries[0];
      LookupLive(k'.procs, k'.freeEntries, k'.nextPid, e);
      OnePlace(k', e);
      assert e in k.freeEntries;
    }
  }

  // ----- Pids are never reused -----

  ghost predicate Carried(k: Kernel, p: int) {
    exists e: Slot :: k.procs[e].pid == p
  }

  /** An entry keeps its pid, loses it, or gets the next one, which is then used up. */
  ghost predicate PidsMove(k: Kernel, k': Kernel) {
    && k.nextPid <= k'.nextPid
    && forall e: Slot ::
         || k'.procs[e].pid in {k.procs[e].pid, 0}
         || (k'.procs[e].pid == k.nextPid < k'.nextPid)
  }

  lemma CallMoves(k: Kernel, c: Call)
    requires Core(k, NULL) && k.active != NULL && k.procs[k.active].pid != 0 && CallAllowed(k, c)
    ensures PidsMove(k, CallEffect(k, c).0)
  {
    CallShape(k, c);
  }

  lemma HandlerMoves(k: Kernel, e: Event)
    requires Core(k, NULL) && Enabled(k, e)
    ensures PidsMove(k, IrqHandler(k, e))
  {
    match e
    case Timer(_) => SchedulerTimerOnly(k);
    case KeyNew(_) => CreateKeeps(k);
    case KeyQuit(_) => DestroyKeeps(k);
    case OtherIrq(_) =>
    case Syscall(c) => CallMoves(k, c);
  }

  lemma StepMoves(k: Kernel, e: Event)
    requires Inv(k) && Enabled(k, e)
    ensures PidsMove(k, Step(k, e))
  {
    var k1 := SetEax(k, EntryEax(e));
    SetEaxKeeps(k, EntryEax(e));
    HandlerMoves(k1, e);
    SchedulerRunOnly(IrqHandler(k1, e));
  }

  /** A pid that was handed out and is gone never comes back, and the counter never falls. */
  lemma {:induction false} PidsNeverReused(k: Kernel, es: seq<Event>, p: int)
    requires Inv(k) && Legal(k, es)
    ensures k.nextPid <= Run(k, es).nextPid
    ensures 0 < p < k.nextPid && !Carried(k, p) ==> !Carried(Run(k, es), p)
    decreases |es|
  {
    if es != [] {
      hide Inv, Step, Enabled;
      StepKeeps(k, es[0]);
      StepMoves(k, es[0]);
      PidsNeverReused(Step(k, es[0]), es[1..], p);
    }
  }

  /** At the end of a run from boot the next pid is greater than every pid there ever was in it. */
  lemma NextPidIsNew(es: seq<Event>, n: nat)
    requires Legal(Boot(), es) && n <= |es|
    ensures forall p | Carried(Run(Boot(), es[..n]), p) :: 0 <= p < Run(Boot(), es).nextPid
  {
    hide Legal, Run, Inv, Boot;
    BootInv();
    Halves(Boot(), es, n);
    var k := Run(Boot(), es[..n]);
    RunKeeps(Boot(), es[..n]);
    PidsNeverReused(k, es[n..], 0);
    PidsBelow(k);
  }

  lemma PidsBelow(k: Kernel)
    requires Inv(k)
    ensures forall p | Carried(k, p) :: 0 <= p < k.nextPid
  {
    forall e: Slot ensures 0 <= k.procs[e].pid < k.nextPid {
      assert !Live(k.procs, e) ==> k.procs[e] == FREE_PCB;
    }
  }

  /** A run in two parts. */
  lemma {:induction false} Halves(k: Kernel, es: seq<Event>, n: nat)
    requires Legal(k, es) && n <= |es|
    ensures Legal(k, es[..n]) && Legal(Run(k, es[..n]), es[n..])
    ensures Run(Run(k, es[..n]), es[n..]) == Run(k, es)
    decreases n
  {
    hide Step, Enabled;
    if n == 0 {
      assert es[..0] == [] && es[0..] == es;
    } else {
      assert es[..n][0] == es[0] && es[..n][1..] == es[1..][..n - 1] && es[n..] == es[1..][n - 1..];
      Halves(Step(k, es[0]), es[1..], n - 1);
    }
  }

  // ----- Locks, capacity, panics -----

  /** Queues far from their capacity, and every lock accounted for. */
  ghost predicate Accounts(k: Kernel) {
    && |k.run| <= PROC_MAX && |k.sleep| < PROC_MAX
    && forall m | 0 <= m < MUTEX_MAX :: MutexAccounts(k.mutexes[m])
  }

  ghost predicate MutexAccounts(m: Mutex) {
    && m.locks == (if m.owner == NULL then 0 else 1) + |m.waiters|
    && (m.locks == 0 <==> m.owner == NULL)
    && |m.waiters| < PROC_MAX
  }

  lemma CoreAccounts(k: Kernel)
    requires Core(k, NULL)
    ensures Accounts(k)
  {
    QueueBound(k.procs, k.run);
    SleepQueueBound(k);
    forall m | 0 <= m < MUTEX_MAX ensures MutexAccounts(k.mutexes[m]) {
      assert LockOk(k.mutexes[m]);
      WaitQueueBound(k, m);
    }
  }

  /** A run from boot panics exactly when it hits a fatal event, and otherwise every lock is accounted for. */
  lemma ReachableAccounts(es: seq<Event>)
    requires Admissible(Boot(), es)
    ensures var k := Run(Boot(), es);
            && (k.panicked <==> HitsFatal(Boot(), es))
            && (!k.panicked ==> Accounts(k))
            && (!k.panicked && es != [] ==> k.active != NULL)
  {
    BootInv();
    RunExact(Boot(), es);
    if !HitsFatal(Boot(), es) {
      RunKeeps(Boot(), es);
      CoreAccounts(Run(Boot(), es));
    }
  }

  lemma SleepQueueBound(k: Kernel)
    requires Core(k, NULL)
    ensures |k.sleep| < PROC_MAX
  {
    SleepersNonZero(k);
    QueueBound(k.procs, k.sleep);
  }

  lemma WaitQueueBound(k: Kernel, m: int)
    requires Core(k, NULL) && 0 <= m < MUTEX_MAX
    ensures |k.mutexes[m].waiters| < PROC_MAX
  {
    var q := k.mutexes[m].waiters;
    assert QueueOf(k.procs, q, Waiting, NULL);
    assert forall p | p in q :: Home(k, PidToProc(k.procs, p));
    QueueBound(k.procs, q);
  }

  // ----- The pool of mutex ids -----

  function InUse(ms: MutexTable): (s: set<int>)
    ensures forall m :: m in s <==> 0 <= m < MUTEX_MAX && ms[m].inUse
  {
    set m | 0 <= m < MUTEX_MAX && ms[m].inUse
  }

  /** The ids that are neither free nor in use: kmutex_init has lost them. */
  function Dropped(k: Kernel): (s: set<int>)
    ensures forall m :: m in s <==> 0 <= m < MUTEX_MAX && !k.mutexes[m].inUse && m !in k.freeMutexes
  {
    Range(0, MUTEX_MAX) - InUse(k.mutexes) - Elements(k.freeMutexes)
  }

  /** Free, used and lost ids add up to the table. */
  lemma IdsAddUp(k: Kernel)
    requires PoolOk(k.mutexes, k.freeMutexes)
    ensures |k.freeMutexes| + |InUse(k.mutexes)| + |Dropped(k)| == MUTEX_MAX
  {
    NoDupSize(k.freeMutexes);
    ThreeParts(Range(0, MUTEX_MAX), Elements(k.freeMutexes), InUse(k.mutexes), Dropped(k));
  }

  lemma ThreeParts(u: set<int>, a: set<int>, b: set<int>, c: set<int>)
    requires a !! b && a !! c && b !! c
    requires forall x :: x in u <==> x in a || x in b || x in c
    ensures |a| + |b| + |c| == |u|
  {
    var v := (a + b) + c;
    forall x ensures x in u <==> x in v {}
    assert u == v;
  }

  /**
   An id is lost exactly when kmutex_init takes the last free one, and then it returns -1;
   an id that is allocated leaves another one free.
   */
  lemma InitDrops(k: Kernel)
    requires PoolOk(k.mutexes, k.freeMutexes)
    ensures var (k', rc) := KmutexInit(k);
            && Dropped(k') == Dropped(k) + (if |k.freeMutexes| == 1 then {k.freeMutexes[0]} else {})
            && (rc == -1 <==> |k.freeMutexes| <= 1)
            && (rc != -1 ==>
                  && rc == k.freeMutexes[0] && k'.freeMutexes != []
                  && InUse(k'.mutexes) == InUse(k.mutexes) + {rc})
            && (rc == -1 ==> k'.mutexes == k.mutexes)
  {
    if k.freeMutexes != [] {
      var id := k.freeMutexes[0];
      assert id in k.freeMutexes;
      TakesFirst(k.freeMutexes);
      InitCase(k, id);
    }
  }

  lemma InitCase(k: Kernel, id: int)
    requires k.freeMutexes != [] && k.freeMutexes[0] == id && 0 <= id < MUTEX_MAX && !k.mutexes[id].inUse
    requires forall x :: x in k.freeMutexes[1..] <==> x in k.freeMutexes && x != id
    ensures var (k', rc) := KmutexInit(k);
            && Dropped(k') == Dropped(k) + (if |k.freeMutexes| == 1 then {id} else {})
            && (rc == -1 <==> |k.freeMutexes| <= 1)
            && (rc != -1 ==> rc == id && InUse(k'.mutexes) == InUse(k.mutexes) + {rc} && k'.freeMutexes != [])
            && (rc == -1 ==> k'.mutexes == k.mutexes)
  {
    hide InUse, Dropped;
    if |k.freeMutexes| == 1 {
      InitLast(k, id);
      assert KmutexInit(k) == (k.(freeMutexes := []), -1);
    } else {
      InitFirst(k, id);
      var ms := k.mutexes[id := Mutex(true, 0, NULL, [])];
      assert KmutexInit(k) == (k.(mutexes := ms, freeMutexes := k.freeMutexes[1..]), id);
    }
  }

  lemma InitLast(k: Kernel, id: int)
    requires 0 <= id < MUTEX_MAX && !k.mutexes[id].inUse && k.freeMutexes == [id]
    ensures Dropped(k.(freeMutexes := [])) == Dropped(k) + {id}
  {
  }

  lemma InitFirst(k: Kernel, id: int)
    requires k.freeMutexes != [] && k.freeMutexes[0] == id && 0 <= id < MUTEX_MAX && !k.mutexes[id].inUse
    requires forall x :: x in k.freeMutexes[1..] <==> x in k.freeMutexes && x != id
    ensures var ms := k.mutexes[id := Mutex(true, 0, NULL, [])];
            && InUse(ms) == InUse(k.mutexes) + {id}
            && Dropped(k.(mutexes := ms, freeMutexes := k.freeMutexes[1..])) == Dropped(k)
  {
    hide Dropped;
    var ms := k.mutexes[id := Mutex(true, 0, NULL, [])];
    assert k.freeMutexes[0] in k.freeMutexes;
    InitSameDrops(k, k.(mutexes := ms, freeMutexes := k.freeMutexes[1..]), id);
    forall x ensures x in InUse(ms) <==> x in InUse(k.mutexes) || x == id {}
  }

  lemma InitSameDrops(k: Kernel, k': Kernel, id: int)
    requires 0 <= id < MUTEX_MAX && id in k.freeMutexes && k'.mutexes == k.mutexes[id := Mutex(true, 0, NULL, [])]
    requires forall x :: x in k'.freeMutexes <==> x in k.freeMutexes && x != id
    ensures Dropped(k') == Dropped(k)
  {
    forall x ensures x in Dropped(k') <==> x in Dropped(k) {}
  }

  lemma TakesFirst(q: seq<int>)
    requires q != [] && NoDup(q)
    ensures forall x :: x in q[1..] <==> x in q && x != q[0]
  {
    assert q == [q[0]] + q[1..];
  }

  /** A destroy frees the id of an unlocked mutex, and fails without effect otherwise. */
  lemma DestroyDropsNone(k: Kernel, id: int)
    requires PoolOk(k.mutexes, k.freeMutexes)
    requires 0 <= id < MUTEX_MAX ==> k.mutexes[id].inUse
    ensures Dropped(KmutexDestroy(k, id).0) == Dropped(k)
    ensures InUse(KmutexDestroy(k, id).0.mutexes) <= InUse(k.mutexes)
    ensures var (k', rc) := KmutexDestroy(k, id);
            && rc == (if 0 <= id < MUTEX_MAX && k.mutexes[id].locks <= 0 then 0 else -1)
            && (rc == -1 ==> k' == k)
            && (rc == 0 ==> k'.freeMutexes == k.freeMutexes + [id] && id !in InUse(k'.mutexes))
  {
    PoolBound(k.mutexes, k.freeMutexes);
    if 0 <= id < MUTEX_MAX && k.mutexes[id].locks <= 0 {
      var ms := k.mutexes[id := FREE_MUTEX];
      assert KmutexDestroy(k, id) == (k.(freeMutexes := k.freeMutexes + [id], mutexes := ms), 0);
      Freed(k, id);
    }
  }

  lemma Freed(k: Kernel, id: int)
    requires 0 <= id < MUTEX_MAX && k.mutexes[id].inUse
    ensures var ms := k.mutexes[id := FREE_MUTEX];
            && InUse(ms) <= InUse(k.mutexes) && id !in InUse(ms)
            && Dropped(k.(freeMutexes := k.freeMutexes + [id], mutexes := ms)) == Dropped(k)
  {
    var ms := k.mutexes[id := FREE_MUTEX];
    FreedDrops(k, k.(freeMutexes := k.freeMutexes + [id], mutexes := ms), id);
  }

  lemma FreedDrops(k: Kernel, k': Kernel, id: int)
    requires 0 <= id < MUTEX_MAX && k.mutexes[id].inUse
    requires k'.freeMutexes == k.freeMutexes + [id] && k'.mutexes == k.mutexes[id := FREE_MUTEX]
    ensures Dropped(k') == Dropped(k)
  {
    forall x ensures x in Dropped(k') <==> x in Dropped(k) {
      assert x in k'.freeMutexes <==> x in k.freeMutexes || x == id;
    }
  }

  /** Over one kernel entry. */
  lemma StepIds(k: Kernel, e: Event)
    requires Inv(k) && Enabled(k, e) && |InUse(k.mutexes)| < MUTEX_MAX
    ensures |InUse(Step(k, e).mutexes)| < MUTEX_MAX
    ensures Dropped(Step(k, e)) == Dropped(k)
            + (if e == Syscall(MutexInit) && |k.freeMutexes| == 1 then {k.freeMutexes[0]} else {})
  {
    hide InUse, Dropped, Core, Step;
    var k' := Step(k, e);
    StepMutexes(k, e);
    StepKeeps(k, e);
    if e.Syscall? {
      StepCallIds(k, e.call, k');
    } else {
      SameIds(k, k');
    }
    assert PoolOk(k'.mutexes, k'.freeMutexes) by { InvPool(k'); }
    FewerIds(k, k');
  }

  lemma InvPool(k: Kernel)
    requires Inv(k)
    ensures PoolOk(k.mutexes, k.freeMutexes)
  {
  }

  lemma StepCallIds(k: Kernel, c: Call, k': Kernel)
    requires Inv(k) && Enabled(k, Syscall(c))
    requires var k2 := CallEffect(SetEax(k, CallNumber(c)), c).0;
             k'.mutexes == k2.mutexes && k'.freeMutexes == k2.freeMutexes
    ensures InUse(k'.mutexes) <= InUse(k.mutexes) || k'.freeMutexes != []
    ensures Dropped(k') == Dropped(k) + (if c.MutexInit? && |k.freeMutexes| == 1 then {k.freeMutexes[0]} else {})
  {
    hide InUse, Dropped, Core, CallEffect;
    var k1 := SetEax(k, CallNumber(c));
    SetEaxKeeps(k, CallNumber(c));
    CallIds(k1, c);
    SameIds(CallEffect(k1, c).0, k');
    SameIds(k, k1);
  }

  /** The bound on the ids in use survives if a free id is left over. */
  lemma FewerIds(k: Kernel, k': Kernel)
    requires PoolOk(k'.mutexes, k'.freeMutexes) && |InUse(k.mutexes)| < MUTEX_MAX
    requires InUse(k'.mutexes) <= InUse(k.mutexes) || k'.freeMutexes != []
    ensures |InUse(k'.mutexes)| < MUTEX_MAX
  {
    IdsAddUp(k');
    if InUse(k'.mutexes) <= InUse(k.mutexes) {
      SubsetSize(InUse(k'.mutexes), InUse(k.mutexes));
    }
  }

  lemma SameIds(k: Kernel, k': Kernel)
    requires k'.freeMutexes == k.freeMutexes
    requires forall m | 0 <= m < MUTEX_MAX :: k'.mutexes[m].inUse == k.mutexes[m].inUse
    ensures InUse(k'.mutexes) == InUse(k.mutexes) && Dropped(k') == Dropped(k)
  {
  }

  /** A call either allocates no id or leaves another one free. */
  lemma CallIds(k: Kernel, c: Call)
    requires Core(k, NULL) && k.active != NULL && k.procs[k.active].pid != 0 && CallAllowed(k, c)
    ensures var k' := CallEffect(k, c).0;
            && (InUse(k'.mutexes) <= InUse(k.mutexes) || k'.freeMutexes != [])
            && Dropped(k') == Dropped(k) + (if c.MutexInit? && |k.freeMutexes| == 1 then {k.freeMutexes[0]} else {})
  {
    hide InUse, Dropped, KmutexInit, KmutexDestroy;
    if c.MutexInit? {
      InitDrops(k);
    } else if c.MutexDestroy? {
      DestroyDropsNone(k, c.id);
    } else {
      OtherIds(k, c);
      SameIds(k, CallEffect(k, c).0);
    }
  }

  /** The other calls change no id. */
  lemma OtherIds(k: Kernel, c: Call)
    requires Core(k, NULL) && k.active != NULL && k.procs[k.active].pid != 0 && CallAllowed(k, c)
    requires !c.MutexInit? && !c.MutexDestroy?
    ensures CallEffect(k, c).0.freeMutexes == k.freeMutexes
    ensures forall m | 0 <= m < MUTEX_MAX :: CallEffect(k, c).0.mutexes[m].inUse == k.mutexes[m].inUse
  {
    CallShape(k, c);
  }

  lemma {:induction false} RunIds(k: Kernel, es: seq<Event>)
    requires Inv(k) && Legal(k, es) && |InUse(k.mutexes)| < MUTEX_MAX
    ensures |InUse(Run(k, es).mutexes)| < MUTEX_MAX
    decreases |es|
  {
    if es != [] {
      hide Inv, Enabled, Step;
      StepKeeps(k, es[0]);
      StepIds(k, es[0]);
      RunIds(Step(k, es[0]), es[1..]);
    }
  }

  /** Over every run from boot: the ids add up, and at most 15 mutexes exist at once. */
  lemma MutexIds(es: seq<Event>)
    requires Legal(Boot(), es)
    ensures var k := Run(Boot(), es);
            && NoDup(k.freeMutexes)
            && (forall id | id in k.freeMutexes :: 0 <= id < MUTEX_MAX && id !in InUse(k.mutexes))
            && |k.freeMutexes| + |InUse(k.mutexes)| + |Dropped(k)| == MUTEX_MAX
            && |InUse(k.mutexes)| <= MUTEX_MAX - 1
  {
    BootInv();
    RunKeeps(Boot(), es);
    IdsAddUp(Run(Boot(), es));
    BootMutexes(BOOT_PROCESSES);
    assert InUse(Boot().mutexes) == {};
    RunIds(Boot(), es);
  }

  // ----- Calls with an id that is not allocated -----

  /** kmutex_destroy keeps the pool free of duplicates exactly when it is not given a free id. */
  lemma DestroyExact(k: Kernel, id: int)
    requires Core(k, NULL)
    ensures PoolOk(KmutexDestroy(k, id).0.mutexes, KmutexDestroy(k, id).0.freeMutexes)
       <==> id !in k.freeMutexes
  {
    PoolBound(k.mutexes, k.freeMutexes);
    var k' := KmutexDestroy(k, id).0;
    if id in k.freeMutexes {
      assert LockOk(k.mutexes[id]);
      var i := IndexOf(k.freeMutexes, id);
      assert k'.freeMutexes == k.freeMutexes + [id];
      assert k'.freeMutexes[i] == k'.freeMutexes[|k.freeMutexes|];
    } else if 0 <= id < MUTEX_MAX && k.mutexes[id].locks <= 0 {
      assert k'.freeMutexes == k.freeMutexes + [id];
      assert forall x | x in k'.freeMutexes :: x == id || x in k.freeMutexes;
    }
  }

  /** kmutex_lock keeps unallocated mutexes unlocked exactly when it is given no such id. */
  lemma LockExact(k: Kernel, id: int)
    requires Core(k, NULL) && k.active != NULL && k.procs[k.active].pid != 0
    ensures LocksOk(KmutexLock(k, id).0.mutexes) <==> CallAllowed(k, MutexLock(id))
  {
    if CallAllowed(k, MutexLock(id)) {
      MutexLockKeeps(k, id);
    } else {
      assert LockOk(k.mutexes[id]);
      assert !LockOk(KmutexLock(k, id).0.mutexes[id]);
    }
  }

  /** The id that kmutex_init hands out in k, or -1. */
  function NextMutex(k: Kernel): int {
    if |k.freeMutexes| > 1 && 0 <= k.freeMutexes[0] < MUTEX_MAX then k.freeMutexes[0] else -1
  }

  /** kmutex_init forgets nobody exactly when the next free id has no waiters. */
  lemma InitExact(k: Kernel)
    requires TableOk(k.procs, k.freeEntries, k.nextPid) && Placed(k, NULL)
    ensures Placed(KmutexInit(k).0, NULL)
       <==> (NextMutex(k) != -1 ==> k.mutexes[NextMutex(k)].waiters == [])
  {
    var k' := KmutexInit(k).0;
    var id := NextMutex(k);
    assert id == KmutexInit(k).1;
    if id == -1 || k.mutexes[id].waiters == [] {
      SamePlaces(k, k');
    } else {
      InitForgets(k, id);
    }
  }

  /** A waiter of a mutex that is initialised again waits nowhere for ever. */
  lemma InitForgets(k: Kernel, id: int)
    requires Placed(k, NULL) && KmutexInit(k).1 == id != -1 && k.mutexes[id].waiters != []
    ensures !Placed(KmutexInit(k).0, NULL)
  {
    var k' := KmutexInit(k).0;
    var p := k.mutexes[id].waiters[0];
    assert QueueOf(k.procs, k.mutexes[id].waiters, Waiting, NULL) && WaitsOn(k.mutexes, id, p);
    var e := PidToProc(k.procs, p);
    assert k.procs[e].state == Waiting;
    forall m ensures !WaitsOn(k'.mutexes, m, p) {
      assert m != id ==> !WaitsOn(k.mutexes, m, p);
    }
    assert !Home(k', e);
  }

  // ----- Why the idle process must make no system call -----

  /** If the idle process slept with nothing else to run, it would run and sleep at once. */
  lemma IdleSleepsAndRuns(k: Kernel, seconds: int)
    requires Inv(k) && k.active == 0 && k.run == []
    ensures var k' := Step(k, Syscall(Sleep(seconds)));
            k'.active == 0 && 0 in k'.sleep && Places(k', 0) >= 2
  {
    var k1 := SetEax(k, SYSCALL_PROC_SLEEP);
    SetEaxKeeps(k, SYSCALL_PROC_SLEEP);
    FloatActive(k1);
    SleepQueueBound(k1);
    var v := k1.procs[0].(sleepTime := seconds * 100);
    var ks := k1.(procs := k1.procs[0 := v]);
    RemoveActive(ks);
    var w := v.(state := Sleeping, queue := SleepQueue);
    var k2 := k1.(procs := k1.procs[0 := w], sleep := k1.sleep + [0], active := NULL);
    assert SchedulerRemove(ks, 0).procs[0 := w] == k2.procs;
    assert SchedulerSleep(k1, 0, seconds * 100) == k2;
    assert IrqHandler(k1, Syscall(Sleep(seconds))) == k2;
    assert PidToProc(k2.procs, 0) == 0;
    var k' := SchedulerRun(k2);
    assert k'.active == 0 && k'.sleep == k2.sleep && Running(k') == 0;
    assert 0 in multiset(k'.sleep);
  }
}
