/**
 The kernel invariant, and the moves that keep it.

 `Placed(k, f)` places every live process except f, which is between two places;
 f is NULL when no process is. Every operation is a chain of the moves below.
 */
module Invariant {
  import opened Seqs
  import opened KernelModel

  // ----- The invariant -----

  predicate Live(t: ProcTable, e: int) {
    0 <= e < PROC_MAX && t[e].state != NoState
  }

  /** The process table and its allocator (kproc.c). */
  ghost predicate TableOk(t: ProcTable, free: seq<Slot>, nextPid: int) {
    && NoDup(free)
    && (forall e | 0 <= e < PROC_MAX :: e in free <==> !Live(t, e))
    && (forall e | 0 <= e < PROC_MAX && !Live(t, e) :: t[e] == FREE_PCB)
    && Live(t, 0) && t[0].pid == 0
    && 0 < nextPid
    && (forall e | 1 <= e < PROC_MAX && Live(t, e) :: 0 < t[e].pid < nextPid)
    && (forall d, e | 0 <= d < e < PROC_MAX && Live(t, d) && Live(t, e) :: t[d].pid != t[e].pid)
  }

  /** The state of the process that pid_to_proc finds; NoState if there is none. */
  function StateOf(t: ProcTable, pid: int): ProcState {
    var e := PidToProc(t, pid);
    if e == NULL then NoState else t[e].state
  }

  ghost predicate WaitsOn(ms: MutexTable, m: int, pid: int) {
    0 <= m < MUTEX_MAX && pid in ms[m].waiters
  }

  /** Where the process in entry e has to be, given its state. */
  ghost predicate Home(k: Kernel, e: Slot) {
    var p := k.procs[e];
    match p.state
    case NoState => true
    case Active => k.active == e && p.queue == RunQueue
    case Idle => (p.pid == 0 || p.pid in k.run) && p.queue == RunQueue
    case Sleeping => p.pid != 0 && p.pid in k.sleep && p.queue == SleepQueue
    case Waiting => p.pid != 0 && p.queue == NoQueue && exists m :: WaitsOn(k.mutexes, m, p.pid)
  }

  /** A duplicate-free queue that holds only processes in the given state, and not f. */
  ghost predicate QueueOf(t: ProcTable, q: seq<int>, state: ProcState, f: Entry) {
    && NoDup(q)
    && forall p | p in q :: StateOf(t, p) == state && PidToProc(t, p) != f
  }

  /** Every mutex has such a wait queue, and no process waits for two mutexes. */
  ghost predicate WaitersOk(t: ProcTable, ms: MutexTable, f: Entry) {
    && (forall m | 0 <= m < MUTEX_MAX :: QueueOf(t, ms[m].waiters, Waiting, f))
    && (forall m, n, p | m != n && WaitsOn(ms, m, p) :: !WaitsOn(ms, n, p))
  }

  ghost predicate Placed(k: Kernel, f: Entry) {
    && QueueOf(k.procs, k.run, Idle, f)
    && QueueOf(k.procs, k.sleep, Sleeping, f)
    && WaitersOk(k.procs, k.mutexes, f)
    && (k.active != NULL ==> k.active != f && k.procs[k.active].state == Active)
    && (forall e: Slot | e != f :: Home(k, e))
  }

  /** Lock accounting (kmutex.c): the owner and the waiters hold the locks. */
  ghost predicate LockOk(m: Mutex) {
    && m.locks == (if m.owner == NULL then 0 else 1) + |m.waiters|
    && (m.owner == NULL ==> m.waiters == [])
    && (!m.inUse ==> m.locks == 0)
  }

  ghost predicate LocksOk(ms: MutexTable) {
    forall m | 0 <= m < MUTEX_MAX :: LockOk(ms[m])
  }

  /** The pool of mutex ids. */
  ghost predicate PoolOk(ms: MutexTable, pool: seq<int>) {
    && NoDup(pool)
    && forall id | id in pool :: 0 <= id < MUTEX_MAX && !ms[id].inUse
  }

  /** Time slices: the active process has used less than `limit` ticks, the ready ones none. */
  ghost predicate CpuOk(k: Kernel, limit: int) {
    && (k.active != NULL ==> 0 <= k.procs[k.active].cpuTime < limit)
    && (forall e | 0 <= e < PROC_MAX && k.procs[e].state == Idle :: k.procs[e].cpuTime == 0)
  }

  /** What holds inside the kernel, f being in no queue. */
  ghost predicate Core(k: Kernel, f: Entry) {
    && TableOk(k.procs, k.freeEntries, k.nextPid)
    && Placed(k, f)
    && LocksOk(k.mutexes) && PoolOk(k.mutexes, k.freeMutexes)
    && !k.panicked
  }

  /** What holds between two kernel entries. */
  ghost predicate Inv(k: Kernel) {
    Core(k, NULL) && CpuOk(k, SCHEDULER_TIMESLICE)
  }

  // ----- Lookups -----

  /** On live processes the two lookups are inverse, although free entries carry pid 0. */
  lemma LookupLive(t: ProcTable, free: seq<Slot>, nextPid: int, e: Slot)
    requires TableOk(t, free, nextPid) && Live(t, e)
    ensures PidToProc(t, t[e].pid) == e
    ensures ProcToEntry(t, e) == e
  {
    var r := PidToProc(t, t[e].pid);
    assert 0 <= r <= e;
    assert Live(t, r);
  }

  lemma LookupSame(t: ProcTable, u: ProcTable)
    requires forall e | 0 <= e < PROC_MAX :: t[e].pid == u[e].pid
    ensures forall pid :: PidToProc(t, pid) == PidToProc(u, pid)
  {
  }

  /** A duplicate-free queue of processes is short, shorter still without the idle one. */
  lemma QueueBound(t: ProcTable, q: seq<int>)
    requires NoDup(q) && forall p | p in q :: PidToProc(t, p) != NULL
    ensures |q| <= PROC_MAX
    ensures 0 !in q && t[0].pid == 0 ==> |q| < PROC_MAX
  {
    var entries := seq(|q|, i requires 0 <= i < |q| => PidToProc(t, q[i]));
    forall i, j | 0 <= i < j < |entries| ensures entries[i] != entries[j] {
      assert q[i] in q && q[j] in q;
    }
    forall i | 0 <= i < |entries| ensures 0 <= entries[i] {
      assert q[i] in q;
    }
    Pigeonhole(entries, 0, PROC_MAX);
    if 0 !in q && t[0].pid == 0 {
      forall i | 0 <= i < |entries| ensures 1 <= entries[i] {
        assert q[i] in q;
      }
      Pigeonhole(entries, 1, PROC_MAX);
    }
  }

  // ----- Moves of the floating process -----

  /** Queues without f do not notice a change of f's entry. */
  lemma QueueEdit(t: ProcTable, q: seq<int>, state: ProcState, f: Slot, v: Pcb)
    requires QueueOf(t, q, state, f) && v.pid == t[f].pid
    ensures QueueOf(t[f := v], q, state, f)
  {
    LookupSame(t, t[f := v]);
  }

  /** The floating process may change all but its pid. */
  lemma Edit(k: Kernel, f: Entry, v: Pcb)
    requires Core(k, f) && f != NULL && Live(k.procs, f)
    requires v.pid == k.procs[f].pid && v.state != NoState
    ensures Core(k.(procs := k.procs[f := v]), f)
  {
    var t := k.procs[f := v];
    var k' := k.(procs := t);
    QueueEdit(k.procs, k.run, Idle, f, v);
    QueueEdit(k.procs, k.sleep, Sleeping, f, v);
    assert WaitersOk(t, k.mutexes, f) by {
      forall m | 0 <= m < MUTEX_MAX ensures QueueOf(t, k.mutexes[m].waiters, Waiting, f) {
        QueueEdit(k.procs, k.mutexes[m].waiters, Waiting, f, v);
      }
    }
    assert forall e | 0 <= e < PROC_MAX :: Live(t, e) == Live(k.procs, e);
    assert TableOk(t, k.freeEntries, k.nextPid);
    forall e: Slot | e != f ensures Home(k', e) {
      assert Home(k, e);
    }
  }

  /** Appending f keeps a queue of f's state well formed, and f is there to be found. */
  lemma Append(t: ProcTable, q: seq<int>, state: ProcState, f: Slot)
    requires QueueOf(t, q, state, f)
    requires PidToProc(t, t[f].pid) == f && t[f].state == state != NoState
    ensures QueueOf(t, q + [t[f].pid], state, NULL)
    ensures t[f].pid !in q
    ensures |q| < PROC_MAX
  {
    var q' := q + [t[f].pid];
    assert t[f].pid !in q;
    assert forall p | p in q' :: StateOf(t, p) == state;
    QueueBound(t, q');
  }

  lemma PlaceRun(k: Kernel, f: Entry)
    requires Core(k, f) && f != NULL && k.procs[f].state == Idle && k.procs[f].queue == RunQueue
    ensures Core(k.(run := k.run + [k.procs[f].pid]), NULL)
    ensures |k.run| < PROC_MAX
  {
    var k' := k.(run := k.run + [k.procs[f].pid]);
    LookupLive(k.procs, k.freeEntries, k.nextPid, f);
    Append(k.procs, k.run, Idle, f);
    forall e: Slot ensures Home(k', e) {
      assert e != f ==> Home(k, e);
    }
  }

  lemma PlaceSleep(k: Kernel, f: Entry)
    requires Core(k, f) && f != NULL && k.procs[f].state == Sleeping && k.procs[f].queue == SleepQueue
    requires k.procs[f].pid != 0
    ensures Core(k.(sleep := k.sleep + [k.procs[f].pid]), NULL)
    ensures |k.sleep| < PROC_MAX
  {
    var k' := k.(sleep := k.sleep + [k.procs[f].pid]);
    LookupLive(k.procs, k.freeEntries, k.nextPid, f);
    Append(k.procs, k.sleep, Sleeping, f);
    forall e: Slot ensures Home(k', e) {
      assert e != f ==> Home(k, e);
    }
  }

  /** f joins one wait queue, having been in none. */
  lemma JoinWaiters(t: ProcTable, ms: MutexTable, f: Slot, id: int, m: Mutex)
    requires WaitersOk(t, ms, f) && 0 <= id < MUTEX_MAX
    requires PidToProc(t, t[f].pid) == f && t[f].state == Waiting
    requires m.waiters == ms[id].waiters + [t[f].pid]
    ensures WaitersOk(t, ms[id := m], NULL) && WaitsOn(ms[id := m], id, t[f].pid)
    ensures forall i, p :: WaitsOn(ms, i, p) ==> WaitsOn(ms[id := m], i, p)
  {
    var pid := t[f].pid;
    var ms' := ms[id := m];
    assert QueueOf(t, ms[id].waiters, Waiting, f);
    Append(t, ms[id].waiters, Waiting, f);
    forall i | 0 <= i < MUTEX_MAX ensures !WaitsOn(ms, i, pid) {
      assert QueueOf(t, ms[i].waiters, Waiting, f);
    }
    forall i, p | WaitsOn(ms', i, p) ensures WaitsOn(ms, i, p) || (i == id && p == pid) {
    }
    forall i | 0 <= i < MUTEX_MAX ensures QueueOf(t, ms'[i].waiters, Waiting, NULL) {
      assert QueueOf(t, ms[i].waiters, Waiting, f);
    }
  }

  /** f becomes a waiter of a locked mutex, which then counts one lock more. */
  lemma PlaceWait(k: Kernel, f: Entry, id: int)
    requires Core(k, f) && f != NULL && k.procs[f].state == Waiting && k.procs[f].queue == NoQueue
    requires k.procs[f].pid != 0
    requires 0 <= id < MUTEX_MAX && k.mutexes[id].locks > 0
    ensures |k.mutexes[id].waiters| < PROC_MAX
    ensures var m := k.mutexes[id];
            var m' := m.(waiters := m.waiters + [k.procs[f].pid], locks := m.locks + 1);
            Core(k.(mutexes := k.mutexes[id := m']), NULL)
  {
    var m := k.mutexes[id];
    var pid := k.procs[f].pid;
    var ms := k.mutexes[id := m.(waiters := m.waiters + [pid], locks := m.locks + 1)];
    var k' := k.(mutexes := ms);
    hide TableOk, LocksOk, LockOk, PoolOk, QueueOf;
    LookupLive(k.procs, k.freeEntries, k.nextPid, f);
    Append(k.procs, m.waiters, Waiting, f);
    OneLockMore(k.mutexes, k.freeMutexes, id, ms[id]);
    JoinWaiters(k.procs, k.mutexes, f, id, ms[id]);
    HomesKept(k, k', f);
    WeakenQueue(k.procs, k.run, Idle, f);
    WeakenQueue(k.procs, k.sleep, Sleeping, f);
    hide WaitersOk;
    assert Placed(k', NULL);
  }

  lemma OneLockMore(ms: MutexTable, pool: seq<int>, id: int, m: Mutex)
    requires LocksOk(ms) && PoolOk(ms, pool) && 0 <= id < MUTEX_MAX && ms[id].locks > 0
    requires m.locks == ms[id].locks + 1 && |m.waiters| == |ms[id].waiters| + 1
    requires m.owner == ms[id].owner && m.inUse == ms[id].inUse
    ensures LocksOk(ms[id := m]) && PoolOk(ms[id := m], pool)
  {
    assert LockOk(ms[id]);
  }

  lemma WeakenQueue(t: ProcTable, q: seq<int>, state: ProcState, f: Entry)
    requires QueueOf(t, q, state, f) && state != NoState
    ensures QueueOf(t, q, state, NULL)
  {
  }

  /** Everybody but f stays where they are when wait queues lose none of them. */
  lemma HomesKept(k: Kernel, k': Kernel, f: Entry)
    requires k' == k.(mutexes := k'.mutexes)
    requires forall e: Slot | e != f :: Home(k, e)
    requires forall e: Slot, i | e != f && k.procs[e].state == Waiting && WaitsOn(k.mutexes, i, k.procs[e].pid) ::
               WaitsOn(k'.mutexes, i, k.procs[e].pid)
    ensures forall e: Slot | e != f :: Home(k', e)
  {
    forall e: Slot | e != f ensures Home(k', e) {
      assert Home(k, e);
    }
  }

  lemma PlaceActive(k: Kernel, f: Entry)
    requires Core(k, f) && f != NULL && k.active == NULL
    requires k.procs[f].state == Active && k.procs[f].queue == RunQueue
    ensures Core(k.(active := f), NULL)
  {
    var k' := k.(active := f);
    forall e: Slot ensures Home(k', e) {
      assert e != f ==> Home(k, e);
    }
    assert WaitersOk(k.procs, k.mutexes, NULL) by { WeakenWaiters(k.procs, k.mutexes, f); }
  }

  lemma WeakenWaiters(t: ProcTable, ms: MutexTable, f: Entry)
    requires WaitersOk(t, ms, f)
    ensures WaitersOk(t, ms, NULL)
  {
    forall i | 0 <= i < MUTEX_MAX ensures QueueOf(t, ms[i].waiters, Waiting, NULL) {
      assert QueueOf(t, ms[i].waiters, Waiting, f);
    }
  }

  // ----- Moves that let a process float -----

  /** Without its pid in a queue, nothing in the queue is in entry f. */
  lemma Avoids(t: ProcTable, q: seq<int>, state: ProcState, f: Slot)
    requires QueueOf(t, q, state, NULL)
    requires t[f].pid !in q
    ensures QueueOf(t, q, state, f)
  {
  }

  /** A process in one state is in no queue of another state. */
  lemma OtherState(t: ProcTable, q: seq<int>, state: ProcState, f: Slot)
    requires QueueOf(t, q, state, NULL) && t[f].state != state
    ensures QueueOf(t, q, state, f)
  {
  }

  lemma OtherStateWaiters(t: ProcTable, ms: MutexTable, f: Slot)
    requires WaitersOk(t, ms, NULL) && t[f].state != Waiting
    ensures WaitersOk(t, ms, f)
  {
    forall m | 0 <= m < MUTEX_MAX ensures QueueOf(t, ms[m].waiters, Waiting, f) {
      OtherState(t, ms[m].waiters, Waiting, f);
    }
  }

  lemma FloatActive(k: Kernel)
    requires Core(k, NULL) && k.active != NULL
    ensures Core(k.(active := NULL), k.active)
    ensures k.procs[k.active].pid !in k.run
    ensures k.procs[k.active].pid !in k.sleep
  {
    var k' := k.(active := NULL);
    var f := k.active;
    OtherState(k.procs, k.run, Idle, f);
    OtherState(k.procs, k.sleep, Sleeping, f);
    OtherStateWaiters(k.procs, k.mutexes, f);
    LookupLive(k.procs, k.freeEntries, k.nextPid, f);
    forall e: Slot | e != f ensures Home(k', e) {
      assert Home(k, e);
    }
  }

  lemma FloatRunHead(k: Kernel)
    requires Core(k, NULL) && k.run != []
    ensures var f := PidToProc(k.procs, k.run[0]);
            && f != NULL && k.procs[f].state == Idle && k.procs[f].pid == k.run[0] && k.procs[f].queue == RunQueue
            && Core(k.(run := k.run[1..]), f)
  {
    var f := PidToProc(k.procs, k.run[0]);
    var k' := k.(run := k.run[1..]);
    assert k.run[0] in k.run;
    assert Home(k, f);
    assert k.run == [k.run[0]] + k'.run;
    Avoids(k.procs, k'.run, Idle, f);
    OtherState(k.procs, k.sleep, Sleeping, f);
    OtherStateWaiters(k.procs, k.mutexes, f);
    forall e: Slot | e != f ensures Home(k', e) {
      assert Home(k, e);
      if k.procs[e].state == Idle && k.procs[e].pid != 0 {
        assert k.procs[e].pid != k.run[0];
      }
    }
  }

  lemma FloatSleepHead(k: Kernel)
    requires Core(k, NULL) && k.sleep != []
    ensures var f := PidToProc(k.procs, k.sleep[0]);
            && f != NULL && k.procs[f].state == Sleeping && k.procs[f].pid == k.sleep[0] != 0
            && k.procs[f].queue == SleepQueue && f != k.active
            && Core(k.(sleep := k.sleep[1..]), f)
  {
    var f := PidToProc(k.procs, k.sleep[0]);
    var k' := k.(sleep := k.sleep[1..]);
    assert k.sleep[0] in k.sleep;
    assert Home(k, f);
    assert k.sleep == [k.sleep[0]] + k'.sleep;
    Avoids(k.procs, k'.sleep, Sleeping, f);
    OtherState(k.procs, k.run, Idle, f);
    OtherStateWaiters(k.procs, k.mutexes, f);
    forall e: Slot | e != f ensures Home(k', e) {
      assert Home(k, e);
      if k.procs[e].state == Sleeping {
        assert k.procs[e].pid != k.sleep[0];
      }
    }
  }

  /** Taking the first waiter off a wait queue leaves it waiting nowhere. */
  lemma PopWaiter(t: ProcTable, ms: MutexTable, id: int, m: Mutex)
    requires WaitersOk(t, ms, NULL) && 0 <= id < MUTEX_MAX && ms[id].waiters != []
    requires m.waiters == ms[id].waiters[1..]
    ensures PidToProc(t, ms[id].waiters[0]) != NULL
    ensures WaitersOk(t, ms[id := m], PidToProc(t, ms[id].waiters[0]))
    ensures forall i, p | WaitsOn(ms, i, p) && p != ms[id].waiters[0] :: WaitsOn(ms[id := m], i, p)
  {
    var pid := ms[id].waiters[0];
    var f := PidToProc(t, pid);
    var ms' := ms[id := m];
    assert QueueOf(t, ms[id].waiters, Waiting, NULL);
    assert WaitsOn(ms, id, pid);
    assert ms[id].waiters == [pid] + m.waiters;
    assert forall i, p | WaitsOn(ms', i, p) :: WaitsOn(ms, i, p);
    forall i | 0 <= i < MUTEX_MAX ensures QueueOf(t, ms'[i].waiters, Waiting, f) {
      assert QueueOf(t, ms[i].waiters, Waiting, NULL);
      assert i != id ==> !WaitsOn(ms, i, pid);
      Avoids(t, ms'[i].waiters, Waiting, f);
    }
  }

  /** The first waiter of a mutex takes it over from its owner. */
  lemma FloatWaiter(k: Kernel, id: int)
    requires Core(k, NULL) && 0 <= id < MUTEX_MAX && k.mutexes[id].waiters != []
    ensures var m := k.mutexes[id]; var f := PidToProc(k.procs, m.waiters[0]);
            && f != NULL && k.procs[f].state == Waiting && k.procs[f].pid == m.waiters[0] != 0 && f != k.active
            && Core(k.(mutexes := k.mutexes[id := m.(waiters := m.waiters[1..], locks := m.locks - 1, owner := f)]), f)
  {
    var m := k.mutexes[id];
    var pid := m.waiters[0];
    var f := PidToProc(k.procs, pid);
    var m' := m.(waiters := m.waiters[1..], locks := m.locks - 1, owner := f);
    var k' := k.(mutexes := k.mutexes[id := m']);
    hide LocksOk, PoolOk, LockOk;
    PopWaiter(k.procs, k.mutexes, id, m');
    assert f != NULL && k.procs[f].state == Waiting && Home(k, f) by {
      assert QueueOf(k.procs, m.waiters, Waiting, NULL) && pid in m.waiters;
    }
    OneLockLess(k.mutexes, k.freeMutexes, id, m');
    assert Placed(k', f) by {
      OtherState(k.procs, k.run, Idle, f);
      OtherState(k.procs, k.sleep, Sleeping, f);
      HomesKept(k, k', f);
    }
  }

  lemma OneLockLess(ms: MutexTable, pool: seq<int>, id: int, m: Mutex)
    requires LocksOk(ms) && PoolOk(ms, pool) && 0 <= id < MUTEX_MAX && ms[id].waiters != []
    requires m.locks == ms[id].locks - 1 && |m.waiters| == |ms[id].waiters| - 1
    requires m.owner != NULL && m.inUse == ms[id].inUse
    ensures LocksOk(ms[id := m]) && PoolOk(ms[id := m], pool)
  {
    assert LockOk(ms[id]);
  }
}
