/**
 The kernel's process-management state as one value, and every operation on it
 as a total function: scheduler.c, kproc.c, kmutex.c, the dispatch of ksyscall.c
 and the kernel entry of kernel.c.

 A pointer to a process is the index of its table entry, NULL being -1. A call of
 kernel_panic sets `panicked`; the fields of a panicked kernel mean nothing more.
 */
module KernelModel {
  import Queues

  const PROC_MAX := 20
  const QUEUE_SIZE := Queues.QUEUE_SIZE
  const MUTEX_MAX := 16
  const SCHEDULER_TIMESLICE := 10

  const SYSCALL_PROC_SLEEP := 6
  const SYSCALL_PROC_EXIT := 7
  const SYSCALL_MUTEX_INIT := 10
  const SYSCALL_MUTEX_DESTROY := 11
  const SYSCALL_MUTEX_LOCK := 12
  const SYSCALL_MUTEX_UNLOCK := 13

  // ----- Data -----

  datatype ProcState = NoState | Idle | Active | Sleeping | Waiting

  /** The values that the scheduler_queue pointer takes. */
  datatype QueueRef = NoQueue | RunQueue | SleepQueue

  /** The process control block; `eax` is the saved register of its trapframe. */
  datatype Pcb = Pcb(pid: int, state: ProcState, runTime: int, cpuTime: int,
                     sleepTime: int, queue: QueueRef, eax: int)

  const FREE_PCB := Pcb(0, NoState, 0, 0, 0, NoQueue, 0)

  type Slot = e: int | 0 <= e < PROC_MAX
  type Entry = e: int | -1 <= e < PROC_MAX witness -1
  const NULL: Entry := -1

  datatype Mutex = Mutex(inUse: bool, locks: int, owner: Entry, waiters: seq<int>)

  const FREE_MUTEX := Mutex(false, 0, NULL, [])

  type ProcTable = t: seq<Pcb> | |t| == PROC_MAX witness seq(PROC_MAX, i => FREE_PCB)
  type MutexTable = t: seq<Mutex> | |t| == MUTEX_MAX witness seq(MUTEX_MAX, i => FREE_MUTEX)

  datatype Kernel = Kernel(
    procs: ProcTable, nextPid: int, freeEntries: seq<Slot>,
    run: seq<int>, sleep: seq<int>, active: Entry,
    mutexes: MutexTable, freeMutexes: seq<int>,
    panicked: bool)

  function Panic(k: Kernel): Kernel {
    k.(panicked := true)
  }

  /** queue_in with its result ignored: a full queue stays as it is. */
  function QueueIn(q: seq<int>, x: int): seq<int> {
    if |q| < QUEUE_SIZE then q + [x] else q
  }

  // ----- kproc.c: lookups -----

  function SearchFrom(t: ProcTable, pid: int, i: nat): (e: Entry)
    requires i <= PROC_MAX
    ensures e != NULL ==> i <= e && t[e].pid == pid && forall j | i <= j < e :: t[j].pid != pid
    ensures e == NULL ==> forall j | i <= j < PROC_MAX :: t[j].pid != pid
    decreases PROC_MAX - i
  {
    if i == PROC_MAX then NULL
    else if t[i].pid == pid then i
    else SearchFrom(t, pid, i + 1)
  }

  /** pid_to_proc: the first entry carrying the pid. */
  function PidToProc(t: ProcTable, pid: int): (e: Entry)
    ensures e != NULL ==> t[e].pid == pid && forall j | 0 <= j < e :: t[j].pid != pid
    ensures e == NULL ==> forall j | 0 <= j < PROC_MAX :: t[j].pid != pid
  {
    SearchFrom(t, pid, 0)
  }

  /** proc_to_entry: it too searches the table by pid. */
  function ProcToEntry(t: ProcTable, proc: Entry): (e: Entry)
    ensures proc != NULL ==> e != NULL && t[e].pid == t[proc].pid
  {
    if proc == NULL then NULL else PidToProc(t, t[proc].pid)
  }

  // ----- scheduler.c -----

  function SchedulerAdd(k: Kernel, e: Entry): Kernel {
    if e == NULL then Panic(k)
    else
      var k1 := k.(procs := k.procs[e := k.procs[e].(queue := RunQueue, state := Idle, cpuTime := 0)]);
      if |k.run| == QUEUE_SIZE then Panic(k1)
      else k1.(run := k.run + [k.procs[e].pid])
  }

  /** The loop of scheduler_remove from iteration i on; its bound is the shrinking size. */
  function RemoveLoop(q: seq<int>, pid: int, i: nat): seq<int>
    decreases |q| - i
  {
    if i >= |q| then q
    else if q[0] == pid then RemoveLoop(q[1..], pid, i + 1)
    else RemoveLoop(q[1..] + [q[0]], pid, i + 1)
  }

  function SchedulerRemove(k: Kernel, e: Entry): Kernel {
    if e == NULL then Panic(k)
    else
      var p := k.procs[e];
      var k1 := match p.queue
        case NoQueue => k
        case RunQueue => k.(run := RemoveLoop(k.run, p.pid, 0), procs := k.procs[e := p.(queue := NoQueue)])
        case SleepQueue => k.(sleep := RemoveLoop(k.sleep, p.pid, 0), procs := k.procs[e := p.(queue := NoQueue)]);
      if e == k.active then k1.(active := NULL) else k1
  }

  function SchedulerSleep(k: Kernel, e: Entry, time: int): Kernel {
    if e == NULL then Panic(k)
    else
      var k1 := k.(procs := k.procs[e := k.procs[e].(sleepTime := time)]);
      if k.procs[e].state == Sleeping then k1
      else
        var k2 := SchedulerRemove(k1, e);
        k2.(procs := k2.procs[e := k2.procs[e].(state := Sleeping, queue := SleepQueue)],
            sleep := QueueIn(k2.sleep, k2.procs[e].pid))
  }

  /** One iteration of scheduler_timer: examine the head of the sleep queue. */
  function TimerVisit(k: Kernel): (k': Kernel)
    requires k.sleep != []
    ensures |k'.sleep| <= |k.sleep|
  {
    var pid := k.sleep[0];
    var k1 := k.(sleep := k.sleep[1..]);
    var e := PidToProc(k.procs, pid);
    if e == NULL then k1
    else
      var t := k.procs[e].sleepTime;
      var k2 := k1.(procs := k.procs[e := k.procs[e].(sleepTime := t - 1)]);
      if t >= 0 then k2.(sleep := k2.sleep + [pid]) else SchedulerAdd(k2, e)
  }

  /** Iterations i, i+1, ... of the loop of scheduler_timer; its bound shrinks as sleepers wake. */
  function TimerLoop(k: Kernel, i: nat): Kernel
    decreases |k.sleep| - i
  {
    if i >= |k.sleep| then k else TimerLoop(TimerVisit(k), i + 1)
  }

  function ChargeActive(k: Kernel): Kernel {
    if k.active == NULL then k
    else
      var p := k.procs[k.active];
      k.(procs := k.procs[k.active := p.(runTime := p.runTime + 1, cpuTime := p.cpuTime + 1)])
  }

  function SchedulerTimer(k: Kernel): Kernel {
    TimerLoop(ChargeActive(k), 0)
  }

  /** First part of scheduler_run: drop an active process that is not ACTIVE. */
  function DropInactive(k: Kernel): Kernel {
    if k.active != NULL && k.procs[k.active].state != Active then k.(active := NULL) else k
  }

  /** Second part: end an exhausted time slice. */
  function Preempt(k: Kernel): Kernel {
    if k.active == NULL || k.procs[k.active].cpuTime < SCHEDULER_TIMESLICE then k
    else
      var a := k.active;
      var k1 := k.(procs := k.procs[a := k.procs[a].(cpuTime := 0)]);
      var k2 := if k1.procs[a].pid != 0 then SchedulerAdd(k1, a)
                else k1.(procs := k1.procs[a := k1.procs[a].(state := Idle)]);
      k2.(active := NULL)
  }

  /** Third part: take the next process, the idle process by default, and make it ACTIVE. */
  function Dispatch(k: Kernel): Kernel {
    var k1 :=
      if k.active != NULL then k
      else if |k.run| == 0 then k.(active := PidToProc(k.procs, 0))
      else k.(run := k.run[1..], active := PidToProc(k.procs, k.run[0]));
    if k1.active == NULL then Panic(k1)
    else k1.(procs := k1.procs[k1.active := k1.procs[k1.active].(state := Active)])
  }

  function SchedulerRun(k: Kernel): Kernel {
    Dispatch(Preempt(DropInactive(k)))
  }

  // ----- kproc.c: creation and destruction -----

  function KprocCreate(k: Kernel): (Kernel, int) {
    if |k.freeEntries| == 0 then (k, -1)
    else
      var e := k.freeEntries[0];
      var k1 := k.(procs := k.procs[e := Pcb(k.nextPid, Idle, 0, 0, 0, NoQueue, 0)],
                   nextPid := k.nextPid + 1, freeEntries := k.freeEntries[1..]);
      (SchedulerAdd(k1, e), k.nextPid)
  }

  function KprocDestroy(k: Kernel, e: Entry): (Kernel, int) {
    if e == NULL then (Panic(k), -1)
    else if k.procs[e].pid == 0 then (k, -1)
    else
      var k1 := SchedulerRemove(k, e);
      var entry := ProcToEntry(k1.procs, e);
      (k1.(procs := k1.procs[e := FREE_PCB],
           freeEntries := if |k1.freeEntries| < QUEUE_SIZE then k1.freeEntries + [entry] else k1.freeEntries), 0)
  }

  // ----- kmutex.c -----

  function KmutexInit(k: Kernel): (Kernel, int) {
    if |k.freeMutexes| == 0 then (k, -1)
    else
      var id := k.freeMutexes[0];
      var k1 := k.(freeMutexes := k.freeMutexes[1..]);
      if |k1.freeMutexes| == 0 || id < 0 || id >= MUTEX_MAX then (k1, -1)
      else (k1.(mutexes := k.mutexes[id := Mutex(true, 0, NULL, [])]), id)
  }

  function KmutexDestroy(k: Kernel, id: int): (Kernel, int) {
    if id < 0 || id >= MUTEX_MAX then (k, -1)
    else if k.mutexes[id].locks > 0 then (k, -1)
    else (k.(freeMutexes := QueueIn(k.freeMutexes, id), mutexes := k.mutexes[id := FREE_MUTEX]), 0)
  }

  function KmutexLock(k: Kernel, id: int): (Kernel, int) {
    if id < 0 || id >= MUTEX_MAX then (k, -1)
    else
      var a := k.active;
      var m := k.mutexes[id];
      var k1 :=
        if m.locks <= 0 then k.(mutexes := k.mutexes[id := m.(owner := a)])
        else if a == NULL then k
        else
          SchedulerRemove(
            k.(mutexes := k.mutexes[id := m.(waiters := QueueIn(m.waiters, k.procs[a].pid))],
               procs := k.procs[a := k.procs[a].(state := Waiting)]), a);
      (k1.(mutexes := k1.mutexes[id := k1.mutexes[id].(locks := m.locks + 1)]), m.locks + 1)
  }

  function KmutexUnlock(k: Kernel, id: int): (Kernel, int) {
    if id < 0 || id >= MUTEX_MAX then (k, -1)
    else
      var m := k.mutexes[id];
      if m.locks == 0 then (k, 0)
      else if m.owner != k.active then (k, -1)
      else
        var m1 := m.(locks := m.locks - 1);
        if m1.locks == 0 then
          (k.(mutexes := k.mutexes[id := m1.(owner := NULL)]), 0)
        else if |m.waiters| == 0 then
          (k.(mutexes := k.mutexes[id := m1]), m1.locks)
        else
          var w := PidToProc(k.procs, m.waiters[0]);
          var m2 := m1.(waiters := m.waiters[1..]);
          if w == NULL then (k.(mutexes := k.mutexes[id := m2]), m1.locks)
          else (SchedulerAdd(k.(mutexes := k.mutexes[id := m2.(owner := w)]), w), m1.locks)
  }

  // ----- ksyscall.c and kernel.c -----

  /**
   The system calls. Other stands for every call that leaves processes and mutexes
   alone and returns rc; Invalid for a number the dispatcher does not know.
   */
  datatype Call =
    | Sleep(seconds: int) | Exit
    | MutexInit | MutexDestroy(id: int) | MutexLock(id: int) | MutexUnlock(id: int)
    | Other(number: int, rc: int) | Invalid(number: int)

  function CallNumber(c: Call): int {
    match c
    case Sleep(_) => SYSCALL_PROC_SLEEP
    case Exit => SYSCALL_PROC_EXIT
    case MutexInit => SYSCALL_MUTEX_INIT
    case MutexDestroy(_) => SYSCALL_MUTEX_DESTROY
    case MutexLock(_) => SYSCALL_MUTEX_LOCK
    case MutexUnlock(_) => SYSCALL_MUTEX_UNLOCK
    case Other(n, _) => n
    case Invalid(n) => n
  }

  function CallEffect(k: Kernel, c: Call): (Kernel, int) {
    match c
    case Sleep(seconds) => (SchedulerSleep(k, k.active, seconds * 100), 0)
    case Exit => KprocDestroy(k, k.active)
    case MutexInit => KmutexInit(k)
    case MutexDestroy(id) => KmutexDestroy(k, id)
    case MutexLock(id) => KmutexLock(k, id)
    case MutexUnlock(id) => KmutexUnlock(k, id)
    case Other(_, rc) => (k, rc)
    case Invalid(_) => (Panic(k), -1)
  }

  function SetEax(k: Kernel, eax: int): Kernel {
    if k.active == NULL then k
    else k.(procs := k.procs[k.active := k.procs[k.active].(eax := eax)])
  }

  /** ksyscall_irq_handler: the result reaches the caller only if it is still active. */
  function KsyscallIrq(k: Kernel, c: Call): Kernel {
    if k.active == NULL then Panic(k)
    else
      var (k1, rc) := CallEffect(k, c);
      SetEax(k1, rc)
  }

  /** What makes the processor enter the kernel; eax is the register saved on entry. */
  datatype Event =
    | Timer(eax: int)
    | KeyNew(eax: int)
    | KeyQuit(eax: int)
    | OtherIrq(eax: int)
    | Syscall(call: Call)

  function EntryEax(e: Event): int {
    if e.Syscall? then CallNumber(e.call) else e.eax
  }

  function IrqHandler(k: Kernel, e: Event): Kernel {
    match e
    case Timer(_) => SchedulerTimer(k)
    case KeyNew(_) => KprocCreate(k).0
    case KeyQuit(_) => KprocDestroy(k, k.active).0
    case OtherIrq(_) => k
    case Syscall(c) => KsyscallIrq(k, c)
  }

  /** kernel_context_enter: save the context, handle the interrupt, run the scheduler. */
  function Step(k: Kernel, e: Event): Kernel {
    SchedulerRun(IrqHandler(SetEax(k, EntryEax(e)), e))
  }

  // ----- Initialisation -----

  function Zeroed(): Kernel {
    Kernel(seq(PROC_MAX, i => FREE_PCB), 0, seq(PROC_MAX, i requires 0 <= i < PROC_MAX => i), [], [], NULL,
           seq(MUTEX_MAX, i => FREE_MUTEX), seq(MUTEX_MAX, i => i), false)
  }

  function CreateMany(k: Kernel, n: nat): Kernel {
    if n == 0 then k else KprocCreate(CreateMany(k, n - 1)).0
  }

  /** The idle process, 4 shells, 3 pings and 3 pongs. */
  const BOOT_PROCESSES: nat := 1 + 4 + 3 + 3

  /** The kernel when main enables interrupts. */
  function Boot(): Kernel {
    CreateMany(Zeroed(), BOOT_PROCESSES)
  }

  // ----- Runs -----

  function Run(k: Kernel, es: seq<Event>): Kernel
    decreases |es|
  {
    if es == [] then k else Run(Step(k, es[0]), es[1..])
  }

  /** The calls of a well-behaved client, which know their number and their mutexes. */
  predicate CallAllowed(k: Kernel, c: Call) {
    match c
    case MutexDestroy(id) => 0 <= id < MUTEX_MAX ==> k.mutexes[id].inUse
    case MutexLock(id) => 0 <= id < MUTEX_MAX ==> k.mutexes[id].inUse
    case Invalid(_) => false
    case _ => true
  }

  /**
   The events that can happen in k: a system call comes from a process other than the
   idle one, and Ctrl-Q needs a process to destroy.
   */
  predicate Enabled(k: Kernel, e: Event) {
    match e
    case Syscall(c) => k.active != NULL && k.procs[k.active].pid != 0 && CallAllowed(k, c)
    case KeyQuit(_) => k.active != NULL
    case _ => true
  }

  predicate Legal(k: Kernel, es: seq<Event>)
    decreases |es|
  {
    es == [] || (Enabled(k, es[0]) && Legal(Step(k, es[0]), es[1..]))
  }

  /**
   The events on which the kernel gives up: an unknown call number, and a system call or
   Ctrl-Q before there is a process.
   */
  predicate Fatal(k: Kernel, e: Event) {
    || (e.Syscall? && (k.active == NULL || e.call.Invalid?))
    || (e.KeyQuit? && k.active == NULL)
  }

  /** Runs that may also contain fatal events; what follows one does not matter. */
  predicate Admissible(k: Kernel, es: seq<Event>)
    decreases |es|
  {
    es == [] || Fatal(k, es[0]) || (Enabled(k, es[0]) && Admissible(Step(k, es[0]), es[1..]))
  }

  predicate HitsFatal(k: Kernel, es: seq<Event>)
    decreases |es|
  {
    es != [] && (Fatal(k, es[0]) || HitsFatal(Step(k, es[0]), es[1..]))
  }

  function Ticks(es: seq<Event>): nat {
    if es == [] then 0 else (if es[0].Timer? then 1 else 0) + Ticks(es[1..])
  }
}
