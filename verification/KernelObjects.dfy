/**
 The kernel as the program has it: process and mutex records updated in place, queues
 shared through pointers. Every method is proved to do what KernelModel says; `st` is
 the value that the records represent.
 */
module KernelObjects {
  import opened Queues
  import M = KernelModel
  import I = Invariant
  import R = Reachability

  /** scheduler_add does not look at the mutexes. */
  lemma AddThenMutexes(k: M.Kernel, ms: M.MutexTable, e: M.Entry)
    ensures M.SchedulerAdd(k, e).(mutexes := ms) == M.SchedulerAdd(k.(mutexes := ms), e)
    ensures M.SchedulerAdd(k, e).mutexes == k.mutexes
  {
  }

  /** A process control block; `entry` is its index in the process table. */
  class Proc {
    ghost const entry: int
    var pid: int
    var state: M.ProcState
    var runTime: int
    var cpuTime: int
    var sleepTime: int
    var schedulerQueue: Queue?
    var eax: int

    constructor (ghost entry: int)
      ensures this.entry == entry
      ensures pid == 0 && state == M.NoState && runTime == 0 && cpuTime == 0 && sleepTime == 0
      ensures schedulerQueue == null && eax == 0
    {
      this.entry := entry;
      pid, state, runTime, cpuTime, sleepTime, schedulerQueue, eax := 0, M.NoState, 0, 0, 0, null, 0;
    }

    /** memset to zero. */
    method Clear()
      modifies this
      ensures pid == 0 && state == M.NoState && runTime == 0 && cpuTime == 0 && sleepTime == 0
      ensures schedulerQueue == null && eax == 0
    {
      pid, state, runTime, cpuTime, sleepTime, schedulerQueue, eax := 0, M.NoState, 0, 0, 0, null, 0;
    }
  }

  class Mutex {
    ghost const id: int
    var inUse: bool
    var locks: int
    var owner: Proc?
    const waitQueue: Queue

    constructor (ghost id: int, waitQueue: Queue)
      ensures this.id == id && this.waitQueue == waitQueue
      ensures !inUse && locks == 0 && owner == null
    {
      this.id, this.waitQueue := id, waitQueue;
      inUse, locks, owner := false, 0, null;
    }
  }

  ghost predicate ZeroedProcs(table: seq<Proc>)
    reads set e | 0 <= e < |table| :: table[e]
  {
    && |table| == M.PROC_MAX
    && forall e | 0 <= e < |table| ::
         && table[e].entry == e
         && table[e].pid == 0 && table[e].state == M.NoState && table[e].runTime == 0 && table[e].cpuTime == 0
         && table[e].sleepTime == 0 && table[e].schedulerQueue == null && table[e].eax == 0
  }

  ghost predicate ZeroedMutexes(ms: seq<Mutex>, qs: seq<Queue>)
    reads set m | 0 <= m < |ms| :: ms[m]
  {
    && |ms| == M.MUTEX_MAX && |qs| == 4 + M.MUTEX_MAX
    && forall m | 0 <= m < |ms| ::
         && ms[m].id == m && ms[m].waitQueue == qs[4 + m]
         && !ms[m].inUse && ms[m].locks == 0 && ms[m].owner == null
  }

  ghost predicate EmptyQueues(qs: seq<Queue>)
    reads set i | 0 <= i < |qs| :: qs[i]
    reads set i | 0 <= i < |qs| :: qs[i].items
  {
    && (forall i | 0 <= i < |qs| :: qs[i].Valid() && qs[i].contents == [])
    && (forall i, j | 0 <= i < j < |qs| :: qs[i] != qs[j] && qs[i].items != qs[j].items)
  }

  /** The queues of a kernel. */
  datatype QueueName = RunQ | SleepQ | EntryQ | MutexQ | WaitQ(m: int) {
    predicate Exists() {
      WaitQ? ==> 0 <= m < M.MUTEX_MAX
    }
  }

  /** Where the constructor keeps the queue. */
  function Tag(n: QueueName): (i: nat)
    requires n.Exists()
    ensures i < 4 + M.MUTEX_MAX
  {
    match n
    case RunQ => 0
    case SleepQ => 1
    case EntryQ => 2
    case MutexQ => 3
    case WaitQ(m) => 4 + m
  }

  lemma TagsDiffer(a: QueueName, b: QueueName)
    requires a.Exists() && b.Exists() && a != b
    ensures Tag(a) != Tag(b)
  {
  }

  ghost function QueueValue(s: M.Kernel, n: QueueName): seq<int>
    requires n.Exists()
  {
    match n
    case RunQ => s.run
    case SleepQ => s.sleep
    case EntryQ => s.freeEntries
    case MutexQ => s.freeMutexes
    case WaitQ(m) => s.mutexes[m].waiters
  }

  ghost predicate IsSlots(q: seq<int>) {
    forall i | 0 <= i < |q| :: 0 <= q[i] < M.PROC_MAX
  }

  ghost function WithQueue(s: M.Kernel, n: QueueName, q: seq<int>): M.Kernel
    requires n.Exists()
    requires n == EntryQ ==> IsSlots(q)
  {
    match n
    case RunQ => s.(run := q)
    case SleepQ => s.(sleep := q)
    case EntryQ => s.(freeEntries := q)
    case MutexQ => s.(freeMutexes := q)
    case WaitQ(m) => s.(mutexes := s.mutexes[m := s.mutexes[m].(waiters := q)])
  }

  lemma WithTwice(s: M.Kernel, n: QueueName, p: seq<int>, q: seq<int>)
    requires n in {RunQ, SleepQ}
    ensures WithQueue(WithQueue(s, n, p), n, q) == WithQueue(s, n, q)
    ensures QueueValue(WithQueue(s, n, p), n) == p && QueueValue(WithQueue(s, n, q), n) == q
  {
  }

  lemma WithSame(s: M.Kernel, n: QueueName)
    requires n in {RunQ, SleepQ}
    ensures WithQueue(s, n, QueueValue(s, n)) == s
  {
  }

  class Kernel {
    const procTable: seq<Proc>
    const mutexes: seq<Mutex>
    const runQueue: Queue
    const sleepQueue: Queue
    const procAllocator: Queue
    const mutexQueue: Queue
    var nextPid: int
    var activeProc: Proc?
    var panicked: bool

    ghost const Repr: set<object>
    ghost var st: M.Kernel

    ghost function Named(n: QueueName): Queue
      requires n.Exists() && |mutexes| == M.MUTEX_MAX
    {
      match n
      case RunQ => runQueue
      case SleepQ => sleepQueue
      case EntryQ => procAllocator
      case MutexQ => mutexQueue
      case WaitQ(m) => mutexes[m].waitQueue
    }

    /** The records are distinct and owned by this kernel; this never changes. */
    ghost predicate Layout() {
      && |procTable| == M.PROC_MAX && |mutexes| == M.MUTEX_MAX
      && this in Repr
      && (forall e | 0 <= e < M.PROC_MAX :: procTable[e] in Repr && procTable[e].entry == e)
      && (forall m | 0 <= m < M.MUTEX_MAX :: mutexes[m] in Repr && mutexes[m].id == m)
      && (forall n: QueueName | n.Exists() :: Named(n) in Repr && Named(n).items in Repr)
      && (forall a: QueueName, b: QueueName | a.Exists() && b.Exists() && a != b ::
            Named(a) != Named(b) && Named(a).items != Named(b).items)
    }

    ghost function ToProc(e: M.Entry): Proc?
      requires |procTable| == M.PROC_MAX
    {
      if e == M.NULL then null else procTable[e]
    }

    ghost function ToQueue(r: M.QueueRef): Queue? {
      match r
      case NoQueue => null
      case RunQueue => runQueue
      case SleepQueue => sleepQueue
    }

    ghost predicate ProcShows(p: Proc, v: M.Pcb)
      reads p
    {
      && p.pid == v.pid && p.state == v.state && p.runTime == v.runTime && p.cpuTime == v.cpuTime
      && p.sleepTime == v.sleepTime && p.schedulerQueue == ToQueue(v.queue) && p.eax == v.eax
    }

    ghost predicate MutexShows(x: Mutex, v: M.Mutex)
      requires |procTable| == M.PROC_MAX
      reads x
    {
      x.inUse == v.inUse && x.locks == v.locks && x.owner == ToProc(v.owner)
    }

    ghost predicate Valid()
      reads this, Repr
      ensures Valid() ==> Layout()
    {
      && Layout()
      && (forall e | 0 <= e < M.PROC_MAX :: ProcShows(procTable[e], st.procs[e]))
      && (forall m | 0 <= m < M.MUTEX_MAX :: MutexShows(mutexes[m], st.mutexes[m]))
      && (forall n: QueueName | n.Exists() :: Named(n).Valid() && Named(n).contents == QueueValue(st, n))
      && nextPid == st.nextPid && activeProc == ToProc(st.active) && panicked == st.panicked
    }

    /** A pointer into the process table, or NULL. */
    ghost predicate IsEntry(p: Proc?) {
      p == null || (|procTable| == M.PROC_MAX && 0 <= p.entry < M.PROC_MAX && procTable[p.entry] == p)
    }

    ghost function EntryOf(p: Proc?): M.Entry
      requires IsEntry(p)
    {
      if p == null then M.NULL else p.entry
    }

    /** Zeroed records, laid out in distinct places. */
    constructor (table: seq<Proc>, ms: seq<Mutex>, qs: seq<Queue>)
      requires ZeroedProcs(table) && ZeroedMutexes(ms, qs) && EmptyQueues(qs)
      ensures Valid() && st == M.Zeroed().(freeEntries := [], freeMutexes := [])
      ensures forall o | o in Repr :: o == this || (exists e | 0 <= e < |table| :: o == table[e])
                || (exists m | 0 <= m < |ms| :: o == ms[m])
                || (exists i | 0 <= i < |qs| :: o == qs[i]) || (exists i | 0 <= i < |qs| :: o == qs[i].items)
    {
      hide Queue.Valid;
      procTable, mutexes := table, ms;
      Repr := {this} + (set e | 0 <= e < |table| :: table[e]) + (set m | 0 <= m < |ms| :: ms[m])
              + (set i | 0 <= i < |qs| :: qs[i]) + (set i | 0 <= i < |qs| :: qs[i].items);
      runQueue, sleepQueue, procAllocator, mutexQueue := qs[0], qs[1], qs[2], qs[3];
      nextPid, activeProc, panicked := 0, null, false;
      st := M.Zeroed().(freeEntries := [], freeMutexes := []);
      new;
      forall n: QueueName | n.Exists() ensures Named(n) == qs[Tag(n)] {}
      forall a: QueueName, b: QueueName | a.Exists() && b.Exists() && a != b
        ensures Named(a) != Named(b) && Named(a).items != Named(b).items
      {
        TagsDiffer(a, b);
      }
    }

    // ----- Access to the queues -----

    method QueueIn(q: Queue, ghost n: QueueName, item: int) returns (rc: int)
      requires Valid() && n.Exists() && Named(n) == q
      requires n == EntryQ ==> 0 <= item < M.PROC_MAX
      modifies Repr
      ensures Valid() && |QueueValue(old(st), n)| <= QUEUE_SIZE
      ensures rc == if |QueueValue(old(st), n)| == QUEUE_SIZE then -1 else 0
      ensures rc != 0 ==> st == old(st)
      ensures n == EntryQ ==> IsSlots(QueueValue(old(st), n) + [item])
      ensures rc == 0 ==> st == WithQueue(old(st), n, QueueValue(old(st), n) + [item])
    {
      hide Queue.Valid;
      rc := q.In(item);
      if rc == 0 {
        st := WithQueue(st, n, QueueValue(st, n) + [item]);
      }
    }

    method QueueOut(q: Queue, ghost n: QueueName) returns (rc: int, item: int)
      requires Valid() && n.Exists() && Named(n) == q
      modifies Repr
      ensures Valid() && |QueueValue(old(st), n)| <= QUEUE_SIZE
      ensures rc == if QueueValue(old(st), n) == [] then -1 else 0
      ensures rc != 0 ==> st == old(st)
      ensures rc == 0 && n == EntryQ ==> IsSlots(QueueValue(old(st), n)[1..])
      ensures rc == 0 ==> item == QueueValue(old(st), n)[0] && st == WithQueue(old(st), n, QueueValue(old(st), n)[1..])
    {
      q.SizeCounts();
      hide Queue.Valid;
      rc, item := q.Out();
      if rc == 0 {
        st := WithQueue(st, n, QueueValue(st, n)[1..]);
      }
    }

    /** queue_init. */
    method QueueInit(q: Queue, ghost n: QueueName)
      requires Valid() && n.Exists() && Named(n) == q
      modifies Repr
      ensures Valid() && st == WithQueue(old(st), n, [])
    {
      q.SizeCounts();
      hide Queue.Valid;
      q.Init();
      st := WithQueue(st, n, []);
    }

    method KernelPanic()
      requires Valid()
      modifies Repr
      ensures Valid() && st == M.Panic(old(st))
    {
      hide Queue.Valid;
      panicked := true;
      st := M.Panic(st);
    }

    // ----- Single assignments -----

    method SetActive(proc: Proc?)
      requires Valid() && IsEntry(proc)
      modifies Repr
      ensures Valid() && st == old(st).(active := EntryOf(proc))
    {
      hide Queue.Valid;
      activeProc := proc;
      st := st.(active := EntryOf(proc));
    }

    method SetQueue(proc: Proc, q: Queue?, ghost r: M.QueueRef)
      requires Valid() && IsEntry(proc) && q == ToQueue(r)
      modifies Repr
      ensures Valid() && st == old(st).(procs := old(st).procs[proc.entry := old(st).procs[proc.entry].(queue := r)])
    {
      hide Queue.Valid;
      proc.schedulerQueue := q;
      st := st.(procs := st.procs[proc.entry := st.procs[proc.entry].(queue := r)]);
    }

    method SetState(proc: Proc, state: M.ProcState)
      requires Valid() && IsEntry(proc)
      modifies Repr
      ensures Valid()
      ensures st == old(st).(procs := old(st).procs[proc.entry := old(st).procs[proc.entry].(state := state)])
    {
      hide Queue.Valid;
      proc.state := state;
      st := st.(procs := st.procs[proc.entry := st.procs[proc.entry].(state := state)]);
    }

    /** Assignments to the other fields of a record. */
    method SetTimes(proc: Proc, runTime: int, cpuTime: int, sleepTime: int, eax: int)
      requires Valid() && IsEntry(proc)
      modifies Repr
      ensures Valid()
      ensures st == old(st).(procs := old(st).procs[proc.entry :=
                old(st).procs[proc.entry].(runTime := runTime, cpuTime := cpuTime, sleepTime := sleepTime, eax := eax)])
    {
      hide Queue.Valid;
      proc.runTime, proc.cpuTime, proc.sleepTime, proc.eax := runTime, cpuTime, sleepTime, eax;
      st := st.(procs := st.procs[proc.entry :=
              st.procs[proc.entry].(runTime := runTime, cpuTime := cpuTime, sleepTime := sleepTime, eax := eax)]);
    }

    method SetMutex(x: Mutex, inUse: bool, locks: int, owner: Proc?)
      requires Valid() && 0 <= x.id < M.MUTEX_MAX && mutexes[x.id] == x && IsEntry(owner)
      modifies Repr
      ensures Valid()
      ensures st == old(st).(mutexes := old(st).mutexes[x.id :=
                old(st).mutexes[x.id].(inUse := inUse, locks := locks, owner := EntryOf(owner))])
    {
      hide Queue.Valid;
      ghost var k := st;
      x.inUse, x.locks, x.owner := inUse, locks, owner;
      st := st.(mutexes := st.mutexes[x.id :=
              st.mutexes[x.id].(inUse := inUse, locks := locks, owner := EntryOf(owner))]);
      assert forall n: QueueName | n.Exists() :: QueueValue(st, n) == QueueValue(k, n);
    }

    // ----- kproc.c: lookups -----

    /** pid_to_proc. */
    method PidToProc(pid: int) returns (proc: Proc?)
      requires Valid()
      ensures IsEntry(proc) && EntryOf(proc) == M.PidToProc(st.procs, pid)
    {
      var i := 0;
      while i < M.PROC_MAX
        invariant 0 <= i <= M.PROC_MAX
        invariant M.SearchFrom(st.procs, pid, i) == M.PidToProc(st.procs, pid)
      {
        if procTable[i].pid == pid {
          return procTable[i];
        }
        i := i + 1;
      }
      return null;
    }

    /** proc_to_entry. */
    method ProcToEntry(proc: Proc?) returns (entry: int)
      requires Valid() && IsEntry(proc)
      ensures entry == M.ProcToEntry(st.procs, EntryOf(proc))
    {
      if proc == null {
        return -1;
      }
      var i := 0;
      while i < M.PROC_MAX
        invariant 0 <= i <= M.PROC_MAX
        invariant M.SearchFrom(st.procs, proc.pid, i) == M.PidToProc(st.procs, proc.pid)
      {
        if proc.pid == procTable[i].pid {
          return i;
        }
        i := i + 1;
      }
      return -1;
    }

    // ----- scheduler.c -----

    method SchedulerAdd(proc: Proc?)
      requires Valid() && IsEntry(proc)
      modifies Repr
      ensures Valid() && st == M.SchedulerAdd(old(st), EntryOf(proc))
    {
      hide Queue.Valid;
      if proc == null {
        KernelPanic();
        return;
      }
      proc.schedulerQueue := runQueue;
      proc.state := M.Idle;
      proc.cpuTime := 0;
      ghost var e := EntryOf(proc);
      st := st.(procs := st.procs[e := st.procs[e].(queue := M.RunQueue, state := M.Idle, cpuTime := 0)]);
      var rc := QueueIn(runQueue, RunQ, proc.pid);
      if rc != 0 {
        KernelPanic();
      }
    }

    /** The loop of scheduler_remove: i runs to a size that shrinks when the pid is found. */
    method RemoveFromQueue(q: Queue, ghost n: QueueName, pid: int)
      requires Valid() && n in {RunQ, SleepQ} && Named(n) == q
      modifies Repr
      ensures Valid()
      ensures st == WithQueue(old(st), n, M.RemoveLoop(QueueValue(old(st), n), pid, 0))
    {
      hide Queue.Valid, WithQueue, QueueValue;
      ghost var s0 := st;
      ghost var c := QueueValue(st, n);
      WithSame(s0, n);
      q.SizeCounts();
      var i := 0;
      while i < q.size
        invariant Valid() && 0 <= i
        invariant q.size == |c| <= QUEUE_SIZE && c == QueueValue(st, n)
        invariant st == WithQueue(s0, n, c)
        invariant M.RemoveLoop(c, pid, i) == M.RemoveLoop(QueueValue(s0, n), pid, 0)
        decreases |c| - i
      {
        var rc, x := QueueOut(q, n);
        assert rc == 0;
        WithTwice(s0, n, c, c[1..]);
        if pid == x {
          c := c[1..];
        } else {
          rc := QueueIn(q, n, x);
          assert rc == 0;
          WithTwice(s0, n, c[1..], c[1..] + [x]);
          c := c[1..] + [x];
        }
        q.SizeCounts();
        i := i + 1;
      }
    }

    method SchedulerRemove(proc: Proc?)
      requires Valid() && IsEntry(proc)
      modifies Repr
      ensures Valid() && st == M.SchedulerRemove(old(st), EntryOf(proc))
    {
      hide Queue.Valid;
      if proc == null {
        KernelPanic();
        return;
      }
      ghost var e := EntryOf(proc);
      var q := proc.schedulerQueue;
      if q != null {
        ghost var n := if st.procs[e].queue == M.RunQueue then RunQ else SleepQ;
        RemoveFromQueue(q, n, proc.pid);
        SetQueue(proc, null, M.NoQueue);
      }
      if proc == activeProc {
        SetActive(null);
      }
    }

    method SchedulerSleep(proc: Proc?, time: int)
      requires Valid() && IsEntry(proc)
      modifies Repr
      ensures Valid() && st == M.SchedulerSleep(old(st), EntryOf(proc), time)
    {
      hide Queue.Valid;
      if proc == null {
        KernelPanic();
        return;
      }
      ghost var e := EntryOf(proc);
      proc.sleepTime := time;
      st := st.(procs := st.procs[e := st.procs[e].(sleepTime := time)]);
      if proc.state == M.Sleeping {
        return;
      }
      SchedulerRemove(proc);
      SetState(proc, M.Sleeping);
      SetQueue(proc, sleepQueue, M.SleepQueue);
      var rc := QueueIn(sleepQueue, SleepQ, proc.pid);
    }

    /** The body of the loop of scheduler_timer. */
    method TimerVisit()
      requires Valid() && st.sleep != []
      modifies Repr
      ensures Valid() && st == M.TimerVisit(old(st))
    {
      hide Queue.Valid, M.SchedulerAdd;
      var rc, pid := QueueOut(sleepQueue, SleepQ);
      var proc := PidToProc(pid);
      if proc == null {
        return;
      }
      var t := proc.sleepTime;
      SetTimes(proc, proc.runTime, proc.cpuTime, t - 1, proc.eax);
      if t >= 0 {
        rc := QueueIn(sleepQueue, SleepQ, pid);
      } else {
        SchedulerAdd(proc);
      }
    }

    /** The first lines of scheduler_timer. */
    method ChargeActive()
      requires Valid()
      modifies Repr
      ensures Valid() && st == M.ChargeActive(old(st))
    {
      hide Queue.Valid;
      if activeProc != null {
        SetTimes(activeProc, activeProc.runTime + 1, activeProc.cpuTime + 1, activeProc.sleepTime, activeProc.eax);
      }
    }

    lemma SleepSize()
      requires Valid()
      ensures sleepQueue.size == |st.sleep|
      ensures sleepQueue in Repr
    {
      assert Named(SleepQ).contents == QueueValue(st, SleepQ);
      sleepQueue.SizeCounts();
    }

    method SchedulerTimer()
      requires Valid()
      modifies Repr
      ensures Valid() && st == M.SchedulerTimer(old(st))
    {
      ChargeActive();
      hide Valid, M.TimerVisit;
      ghost var s0 := st;
      SleepSize();
      var i := 0;
      while i < sleepQueue.size
        invariant Valid() && 0 <= i
        invariant sleepQueue.size == |st.sleep|
        invariant M.TimerLoop(st, i) == M.TimerLoop(s0, 0)
        decreases |st.sleep| - i
      {
        TimerVisit();
        SleepSize();
        i := i + 1;
      }
    }

    /** The part of scheduler_run that ends an exhausted time slice. */
    method EndTimeSlice()
      requires Valid()
      modifies Repr
      ensures Valid() && st == M.Preempt(old(st))
    {
      hide Queue.Valid;
      if activeProc != null && activeProc.cpuTime >= M.SCHEDULER_TIMESLICE {
        SetTimes(activeProc, activeProc.runTime, 0, activeProc.sleepTime, activeProc.eax);
        if activeProc.pid != 0 {
          SchedulerAdd(activeProc);
        } else {
          SetState(activeProc, M.Idle);
        }
        SetActive(null);
      }
    }

    /** The part of scheduler_run that takes the next process. */
    method DispatchNext()
      requires Valid()
      modifies Repr
      ensures Valid() && st == M.Dispatch(old(st))
    {
      hide Queue.Valid;
      if activeProc == null {
        var rc, pid := QueueOut(runQueue, RunQ);
        if rc != 0 {
          pid := 0;
        }
        var proc := PidToProc(pid);
        SetActive(proc);
      }
      if activeProc == null {
        KernelPanic();
        return;
      }
      SetState(activeProc, M.Active);
    }

    method SchedulerRun()
      requires Valid()
      modifies Repr
      ensures Valid() && st == M.SchedulerRun(old(st))
    {
      hide Queue.Valid;
      if activeProc != null && activeProc.state != M.Active {
        SetActive(null);
      }
      assert st == M.DropInactive(old(st));
      EndTimeSlice();
      DispatchNext();
    }

    // ----- kproc.c: creation and destruction -----

    /** The initialisation of a new control block. */
    method InitProc(proc: Proc)
      requires Valid() && IsEntry(proc)
      modifies Repr
      ensures Valid()
      ensures var v := M.Pcb(old(st).nextPid, M.Idle, 0, 0, 0, M.NoQueue, 0);
              st == old(st).(procs := old(st).procs[proc.entry := v], nextPid := old(st).nextPid + 1)
    {
      hide Queue.Valid;
      proc.Clear();
      proc.pid := nextPid;
      nextPid := nextPid + 1;
      proc.state := M.Idle;
      st := st.(procs := st.procs[proc.entry := M.Pcb(st.nextPid, M.Idle, 0, 0, 0, M.NoQueue, 0)],
                nextPid := st.nextPid + 1);
    }

    method ClearProc(proc: Proc)
      requires Valid() && IsEntry(proc)
      modifies Repr
      ensures Valid() && st == old(st).(procs := old(st).procs[proc.entry := M.FREE_PCB])
    {
      hide Queue.Valid;
      proc.Clear();
      st := st.(procs := st.procs[proc.entry := M.FREE_PCB]);
    }

    method KprocCreate() returns (pid: int)
      requires Valid()
      modifies Repr
      ensures Valid() && (st, pid) == M.KprocCreate(old(st))
    {
      hide Queue.Valid;
      var rc, entry := QueueOut(procAllocator, EntryQ);
      if rc != 0 {
        return -1;
      }
      var proc := procTable[entry];
      InitProc(proc);
      SchedulerAdd(proc);
      return proc.pid;
    }

    method KprocDestroy(proc: Proc?) returns (rc: int)
      requires Valid() && IsEntry(proc)
      modifies Repr
      ensures Valid() && (st, rc) == M.KprocDestroy(old(st), EntryOf(proc))
    {
      hide Queue.Valid;
      if proc == null {
        KernelPanic();
        return -1;
      }
      if proc.pid == 0 {
        return -1;
      }
      SchedulerRemove(proc);
      var entry := ProcToEntry(proc);
      ClearProc(proc);
      rc := QueueIn(procAllocator, EntryQ, entry);
      return 0;
    }

    // ----- kmutex.c -----

    method KmutexInit() returns (id: int)
      requires Valid()
      modifies Repr
      ensures Valid() && (st, id) == M.KmutexInit(old(st))
    {
      hide Queue.Valid;
      var rc;
      rc, id := QueueOut(mutexQueue, MutexQ);
      if rc == -1 {
        return -1;
      }
      assert Named(MutexQ).contents == QueueValue(st, MutexQ);
      var empty := mutexQueue.IsEmpty();
      if empty {
        return -1;
      }
      if id < 0 || id >= M.MUTEX_MAX {
        return -1;
      }
      var x := mutexes[id];
      SetMutex(x, true, 0, null);
      QueueInit(x.waitQueue, WaitQ(id));
      assert st.mutexes == old(st).mutexes[id := M.Mutex(true, 0, M.NULL, [])];
    }

    method KmutexDestroy(id: int) returns (rc: int)
      requires Valid()
      modifies Repr
      ensures Valid() && (st, rc) == M.KmutexDestroy(old(st), id)
    {
      hide Queue.Valid;
      if id < 0 || id >= M.MUTEX_MAX {
        return -1;
      }
      var x := mutexes[id];
      if x.locks > 0 {
        return -1;
      }
      rc := QueueIn(mutexQueue, MutexQ, id);
      SetMutex(x, false, 0, null);
      QueueInit(x.waitQueue, WaitQ(id));
      assert st.mutexes == old(st).mutexes[id := M.FREE_MUTEX];
      return 0;
    }

    method KmutexLock(id: int) returns (rc: int)
      requires Valid()
      modifies Repr
      ensures Valid() && (st, rc) == M.KmutexLock(old(st), id)
    {
      hide Queue.Valid;
      if id < 0 || id >= M.MUTEX_MAX {
        return -1;
      }
      var x := mutexes[id];
      var active := activeProc;
      if x.locks > 0 {
        if active != null {
          Block(x, active);
        }
      } else {
        SetMutex(x, x.inUse, x.locks, active);
      }
      SetMutex(x, x.inUse, x.locks + 1, x.owner);
      return x.locks;
    }

    /** The contended branch of kmutex_lock. */
    method Block(x: Mutex, proc: Proc)
      requires Valid() && 0 <= x.id < M.MUTEX_MAX && mutexes[x.id] == x && IsEntry(proc)
      modifies Repr
      ensures Valid()
      ensures var k, m, a := old(st), old(st).mutexes[x.id], EntryOf(proc);
              st == M.SchedulerRemove(
                k.(mutexes := k.mutexes[x.id := m.(waiters := M.QueueIn(m.waiters, k.procs[a].pid))],
                   procs := k.procs[a := k.procs[a].(state := M.Waiting)]), a)
    {
      hide Queue.Valid, M.SchedulerRemove;
      ghost var m := st.mutexes[x.id];
      var rc := QueueIn(x.waitQueue, WaitQ(x.id), proc.pid);
      assert st.mutexes == old(st).mutexes[x.id := m.(waiters := M.QueueIn(m.waiters, proc.pid))];
      SetState(proc, M.Waiting);
      SchedulerRemove(proc);
    }

    method KmutexUnlock(id: int) returns (rc: int)
      requires Valid()
      modifies Repr
      ensures Valid() && (st, rc) == M.KmutexUnlock(old(st), id)
    {
      hide Queue.Valid;
      if id < 0 || id >= M.MUTEX_MAX {
        return -1;
      }
      var x := mutexes[id];
      if x.locks == 0 {
        return 0;
      }
      if x.owner != activeProc {
        return -1;
      }
      ghost var m := st.mutexes[id];
      SetMutex(x, x.inUse, x.locks - 1, x.owner);
      assert st.mutexes == old(st).mutexes[id := m.(locks := m.locks - 1)];
      ghost var ms := st.mutexes;
      if x.locks == 0 {
        SetMutex(x, x.inUse, x.locks, null);
        assert st.mutexes == old(st).mutexes[id := m.(locks := 0, owner := M.NULL)];
      } else {
        HandOver(x);
        assert forall v: M.Mutex {:trigger ms[id := v]} :: ms[id := v] == old(st).mutexes[id := v];
      }
      return x.locks;
    }

    /** The contended branch of kmutex_unlock. */
    method HandOver(x: Mutex)
      requires Valid() && 0 <= x.id < M.MUTEX_MAX && mutexes[x.id] == x
      modifies Repr
      ensures Valid()
      ensures var k, m := old(st), old(st).mutexes[x.id];
              st == if m.waiters == [] then k
                    else
                      var w := M.PidToProc(k.procs, m.waiters[0]);
                      var m2 := m.(waiters := m.waiters[1..]);
                      if w == M.NULL then k.(mutexes := k.mutexes[x.id := m2])
                      else M.SchedulerAdd(k.(mutexes := k.mutexes[x.id := m2.(owner := w)]), w)
    {
      hide Queue.Valid, M.SchedulerAdd;
      var rc, pid := QueueOut(x.waitQueue, WaitQ(x.id));
      if rc == 0 {
        var proc := PidToProc(pid);
        if proc != null {
          ghost var w, k := EntryOf(proc), st;
          ghost var ms := k.mutexes[x.id := k.mutexes[x.id].(owner := w)];
          AddThenMutexes(k, ms, w);
          SchedulerAdd(proc);
          SetMutex(x, x.inUse, x.locks, proc);
          assert st == M.SchedulerAdd(k.(mutexes := ms), w);
          assert ms == old(st).mutexes[x.id := k.mutexes[x.id].(owner := w)];
        }
      }
    }

    // ----- ksyscall.c and kernel.c -----

    method SetEax(eax: int)
      requires Valid()
      modifies Repr
      ensures Valid() && st == M.SetEax(old(st), eax)
    {
      hide Queue.Valid;
      if activeProc != null {
        SetTimes(activeProc, activeProc.runTime, activeProc.cpuTime, activeProc.sleepTime, eax);
      }
    }

    /** The switch of ksyscall_irq_handler. */
    method SystemCall(c: M.Call) returns (rc: int)
      requires Valid()
      modifies Repr
      ensures Valid() && (st, rc) == M.CallEffect(old(st), c)
    {
      hide Queue.Valid, M.SchedulerSleep, M.KprocDestroy, M.KmutexInit, M.KmutexDestroy, M.KmutexLock, M.KmutexUnlock;
      rc := -1;
      match c
      case Sleep(seconds) =>
        SchedulerSleep(activeProc, seconds * 100);
        rc := 0;
      case Exit => rc := KprocDestroy(activeProc);
      case MutexInit => rc := KmutexInit();
      case MutexDestroy(id) => rc := KmutexDestroy(id);
      case MutexLock(id) => rc := KmutexLock(id);
      case MutexUnlock(id) => rc := KmutexUnlock(id);
      case Other(_, r) => rc := r;
      case Invalid(_) => KernelPanic();
    }

    method KsyscallIrqHandler(c: M.Call)
      requires Valid()
      modifies Repr
      ensures Valid() && st == M.KsyscallIrq(old(st), c)
    {
      hide Queue.Valid, M.CallEffect;
      if activeProc == null {
        KernelPanic();
        return;
      }
      var rc := SystemCall(c);
      SetEax(rc);
    }

    method IrqHandler(e: M.Event)
      requires Valid()
      modifies Repr
      ensures Valid() && st == M.IrqHandler(old(st), e)
    {
      hide Queue.Valid, M.SchedulerTimer, M.KprocCreate, M.KprocDestroy, M.KsyscallIrq;
      match e
      case Timer(_) => SchedulerTimer();
      case KeyNew(_) => var pid := KprocCreate();
      case KeyQuit(_) => var rc := KprocDestroy(activeProc);
      case OtherIrq(_) =>
      case Syscall(c) => KsyscallIrqHandler(c);
    }

    /**
     kernel_context_enter: one step of KernelModel, on the records themselves; from a state
     that satisfies the kernel invariant it panics exactly on a fatal event, and an enabled
     event keeps the invariant and leaves a process to run.
     */
    method KernelContextEnter(e: M.Event)
      requires Valid()
      modifies Repr
      ensures Valid() && st == M.Step(old(st), e)
      ensures I.Inv(old(st)) ==>
                && (panicked <==> M.Fatal(old(st), e))
                && (M.Enabled(old(st), e) ==> I.Inv(st) && activeProc != null)
    {
      if I.Inv(st) {
        R.StepExact(st, e);
      }
      hide I.Inv, M.Enabled, M.Fatal, M.SchedulerRun, M.IrqHandler, M.SetEax, Queue.Valid;
      SetEax(M.EntryEax(e));
      IrqHandler(e);
      SchedulerRun();
    }

    // ----- Initialisation -----

    /** The creation loops of kproc_init. */
    method CreateProcesses(n: nat)
      requires Valid()
      modifies Repr
      ensures Valid() && st == M.CreateMany(old(st), n)
    {
      hide Valid, M.KprocCreate;
      ghost var s := st;
      var i := 0;
      while i < n
        invariant Valid() && 0 <= i <= n
        invariant st == M.CreateMany(s, i)
      {
        var pid := KprocCreate();
        i := i + 1;
      }
    }

    /** scheduler_init. */
    method SchedulerInit()
      requires Valid()
      modifies Repr
      ensures Valid() && st == old(st).(run := [], sleep := [])
    {
      hide Queue.Valid;
      QueueInit(runQueue, RunQ);
      QueueInit(sleepQueue, SleepQ);
    }

    /**
     kproc_init, whatever the table and the allocator held: fill the one, clear the other,
     then create the idle process, 4 shells, 3 pings and 3 pongs.
     */
    method KprocInit()
      requires Valid()
      modifies Repr
      ensures Valid()
      ensures st == M.CreateMany(old(st).(procs := M.Zeroed().procs, freeEntries := M.Zeroed().freeEntries),
                                 M.BOOT_PROCESSES)
    {
      hide Valid, M.CreateMany;
      FillEntries();
      ClearProcs();
      BootProcesses();
    }

    method BootProcesses()
      requires Valid()
      modifies Repr
      ensures Valid() && st == M.CreateMany(old(st), M.BOOT_PROCESSES)
    {
      hide Valid, M.CreateMany;
      ghost var s := st;
      CreateProcesses(1);
      CreateProcesses(4);
      CreateProcesses(3);
      CreateProcesses(3);
      CreateSum(s, 1, 4);
      CreateSum(s, 5, 3);
      CreateSum(s, 8, 3);
    }

    /** memset of the process table. */
    method ClearProcs()
      requires Valid()
      modifies Repr
      ensures Valid() && st == old(st).(procs := M.Zeroed().procs)
    {
      hide Queue.Valid;
      ghost var s := st;
      var i := 0;
      while i < M.PROC_MAX
        invariant Valid() && 0 <= i <= M.PROC_MAX
        invariant st == s.(procs := st.procs) && forall e | 0 <= e < i :: st.procs[e] == M.FREE_PCB
      {
        ClearProc(procTable[i]);
        i := i + 1;
      }
      assert st.procs == M.Zeroed().procs;
    }

    method FillEntries()
      requires Valid()
      modifies Repr
      ensures Valid() && st == old(st).(freeEntries := M.Zeroed().freeEntries)
    {
      hide Queue.Valid;
      ghost var s := st;
      QueueInit(procAllocator, EntryQ);
      var i := 0;
      while i < M.PROC_MAX
        invariant Valid() && 0 <= i <= M.PROC_MAX
        invariant |st.freeEntries| == i && forall j | 0 <= j < i :: st.freeEntries[j] == j
        invariant st == s.(freeEntries := st.freeEntries)
      {
        var rc := QueueIn(procAllocator, EntryQ, i);
        i := i + 1;
      }
      assert st.freeEntries == M.Zeroed().freeEntries;
    }

    /** kmutexes_init, whatever the table and the pool held. */
    method KmutexesInit()
      requires Valid()
      modifies Repr
      ensures Valid() && st == old(st).(mutexes := M.Zeroed().mutexes, freeMutexes := M.Zeroed().freeMutexes)
    {
      ClearMutexes();
      hide Queue.Valid;
      ghost var s := st;
      QueueInit(mutexQueue, MutexQ);
      var i := 0;
      while i < M.MUTEX_MAX
        invariant Valid() && 0 <= i <= M.MUTEX_MAX
        invariant |st.freeMutexes| == i && forall j | 0 <= j < i :: st.freeMutexes[j] == j
        invariant st == s.(freeMutexes := st.freeMutexes)
      {
        var rc := QueueIn(mutexQueue, MutexQ, i);
        i := i + 1;
      }
      assert st.freeMutexes == M.Zeroed().freeMutexes;
    }

    /** memset of the mutex table, wait queues included. */
    method ClearMutexes()
      requires Valid()
      modifies Repr
      ensures Valid() && st == old(st).(mutexes := M.Zeroed().mutexes)
    {
      hide Queue.Valid;
      ghost var s := st;
      var i := 0;
      while i < M.MUTEX_MAX
        invariant Valid() && 0 <= i <= M.MUTEX_MAX
        invariant st == s.(mutexes := st.mutexes) && forall m | 0 <= m < i :: st.mutexes[m] == M.FREE_MUTEX
      {
        SetMutex(mutexes[i], false, 0, null);
        QueueInit(mutexes[i].waitQueue, WaitQ(i));
        i := i + 1;
      }
      assert st.mutexes == M.Zeroed().mutexes;
    }

    /** The part of main that concerns processes, from variables that are zero. */
    method Boot()
      requires Valid() && st.nextPid == 0 && st.active == M.NULL && !st.panicked
      modifies Repr
      ensures Valid() && st == M.Boot()
    {
      hide Valid;
      ghost var s := st;
      SchedulerInit();
      KprocInit();
      CreateMutexes(M.Zeroed(), M.BOOT_PROCESSES, s.mutexes, s.freeMutexes);
      CreateMutexes(M.Zeroed(), M.BOOT_PROCESSES, M.Zeroed().mutexes, M.Zeroed().freeMutexes);
      KmutexesInit();
      assert M.Zeroed().(mutexes := M.Zeroed().mutexes, freeMutexes := M.Zeroed().freeMutexes) == M.Zeroed();
    }
  }

  lemma {:induction false} CreateSum(k: M.Kernel, m: nat, n: nat)
    ensures M.CreateMany(M.CreateMany(k, m), n) == M.CreateMany(k, m + n)
  {
    if n > 0 {
      CreateSum(k, m, n - 1);
    }
  }

  /** Creating processes does not involve the mutexes. */
  lemma {:induction false} CreateMutexes(k: M.Kernel, n: nat, ms: M.MutexTable, pool: seq<int>)
    ensures M.CreateMany(k.(mutexes := ms, freeMutexes := pool), n)
         == M.CreateMany(k, n).(mutexes := ms, freeMutexes := pool)
  {
    if n > 0 {
      CreateMutexes(k, n - 1, ms, pool);
    }
  }

  /** Room for a kernel, and its start. */
  method Start() returns (k: Kernel)
    ensures fresh(k) && fresh(k.Repr) && k.Valid() && k.st == M.Boot()
  {
    var table := AllocateProcs();
    var qs := AllocateQueues();
    var ms := AllocateMutexes(qs);
    k := new Kernel(table, ms, qs);
    k.Boot();
  }

  method AllocateProcs() returns (table: seq<Proc>)
    ensures ZeroedProcs(table)
    ensures forall e | 0 <= e < |table| :: fresh(table[e])
  {
    table := [];
    while |table| < M.PROC_MAX
      invariant |table| <= M.PROC_MAX
      invariant forall e | 0 <= e < |table| :: fresh(table[e]) && table[e].entry == e
      invariant forall e | 0 <= e < |table| ::
                  && table[e].pid == 0 && table[e].state == M.NoState && table[e].runTime == 0 && table[e].cpuTime == 0
                  && table[e].sleepTime == 0 && table[e].schedulerQueue == null && table[e].eax == 0
    {
      var p := new Proc(|table|);
      table := table + [p];
    }
  }

  method AllocateQueues() returns (qs: seq<Queue>)
    ensures |qs| == 4 + M.MUTEX_MAX && EmptyQueues(qs)
    ensures forall i | 0 <= i < |qs| :: fresh(qs[i]) && fresh(qs[i].items)
  {
    qs := [];
    while |qs| < 4 + M.MUTEX_MAX
      invariant |qs| <= 4 + M.MUTEX_MAX
      invariant forall i | 0 <= i < |qs| :: fresh(qs[i]) && fresh(qs[i].items) && qs[i].Valid() && qs[i].contents == []
      invariant forall i, j | 0 <= i < j < |qs| :: qs[i] != qs[j] && qs[i].items != qs[j].items
    {
      var q := new Queue();
      qs := qs + [q];
    }
  }

  method AllocateMutexes(qs: seq<Queue>) returns (ms: seq<Mutex>)
    requires |qs| == 4 + M.MUTEX_MAX
    ensures ZeroedMutexes(ms, qs)
    ensures forall m | 0 <= m < |ms| :: fresh(ms[m])
  {
    ms := [];
    while |ms| < M.MUTEX_MAX
      invariant |ms| <= M.MUTEX_MAX
      invariant forall m | 0 <= m < |ms| :: fresh(ms[m]) && ms[m].id == m && ms[m].waitQueue == qs[4 + m]
      invariant forall m | 0 <= m < |ms| :: !ms[m].inUse && ms[m].locks == 0 && ms[m].owner == null
    {
      var x := new Mutex(|ms|, qs[4 + |ms|]);
      ms := ms + [x];
    }
  }
}
