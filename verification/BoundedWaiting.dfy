/** Round-robin: what a kernel entry does to the run queue, and how long a ready process waits. */
module BoundedWaiting {
  import opened Seqs
  import opened KernelModel
  import opened Invariant
  import opened Preservation
  import opened Reachability
  import opened SleepTick

  // ----- The run queue only grows at its tail until a dispatch pops its head -----

  /** q' is q with processes other than the idle one appended. */
  ghost predicate Extends(q: seq<int>, q': seq<int>) {
    q <= q' && forall i | |q| <= i < |q'| :: q'[i] != 0
  }

  /** What the handler of a timer interrupt does, in closed form. */
  lemma TimerEffect(k: Kernel)
    requires Core(k, NULL)
    ensures Examined(ChargeActive(k)) <= |k.sleep|
    ensures SchedulerTimer(k) == After(ChargeActive(k), Examined(ChargeActive(k)))
    ensures TickReady(ChargeActive(k))
  {
    ChargeKeeps(k);
    LoopEffect(ChargeActive(k));
  }

  lemma SleepersNonZero(k: Kernel)
    requires Core(k, NULL)
    ensures 0 !in k.sleep
  {
    assert forall p | p in k.sleep :: Home(k, PidToProc(k.procs, p));
  }

  lemma TimerRun(k: Kernel)
    requires Core(k, NULL)
    ensures Extends(k.run, SchedulerTimer(k).run)
    ensures SchedulerTimer(k).active == k.active
    ensures k.active != NULL ==>
              SchedulerTimer(k).procs[k.active] == ChargeActive(k).procs[k.active]
  {
    TimerEffect(k);
    SleepersNonZero(k);
    var c := ChargeActive(k);
    var q := c.sleep[..Examined(c)];
    Split(c.procs, q);
    assert 0 !in Woken(c.procs, q);
    assert c.active != NULL ==> c.procs[c.active].state == Active;
  }

  lemma CallRun(k: Kernel, c: Call)
    requires Core(k, NULL) && k.active != NULL && k.procs[k.active].pid != 0 && CallAllowed(k, c)
    ensures Extends(k.run, CallEffect(k, c).0.run)
    ensures CallEffect(k, c).0.active in {k.active, NULL}
  {
    CallShape(k, c);
  }

  lemma HandlerRun(k: Kernel, e: Event)
    requires Core(k, NULL) && Enabled(k, e)
    ensures Extends(k.run, IrqHandler(k, e).run)
    ensures IrqHandler(k, e).active in {k.active, NULL}
  {
    match e
    case Timer(_) => TimerRun(k);
    case KeyNew(_) => CreateKeeps(k);
    case KeyQuit(_) => DestroyKeeps(k);
    case OtherIrq(_) =>
    case Syscall(c) => CallRun(k, c);
  }

  /** The active process's entry is left alone by a handler, except for its time and registers. */
  lemma HandlerActive(k: Kernel, e: Event)
    requires Core(k, NULL) && Enabled(k, e)
    requires k.active != NULL && IrqHandler(k, e).active == k.active
    ensures IrqHandler(k, e).procs[k.active].cpuTime
         == k.procs[k.active].cpuTime + if e.Timer? then 1 else 0
    ensures IrqHandler(k, e).procs[k.active].pid == k.procs[k.active].pid
  {
    match e
    case Timer(_) => TimerRun(k);
    case KeyNew(_) => CreateKeeps(k);
    case KeyQuit(_) => DestroyKeeps(k);
    case OtherIrq(_) =>
    case Syscall(c) => CallActive(k, c);
  }

  lemma CallActive(k: Kernel, c: Call)
    requires Core(k, NULL) && k.active != NULL && k.procs[k.active].pid != 0 && CallAllowed(k, c)
    requires CallEffect(k, c).0.active == k.active
    ensures CallEffect(k, c).0.procs[k.active] == k.procs[k.active]
  {
    CallShape(k, c);
  }

  // ----- Dispatch soundness -----

  /** The process that runs when the kernel returns. */
  function Running(k: Kernel): int {
    if k.active == NULL then -1 else k.procs[k.active].pid
  }

  /** The kernel after the interrupt handler, when the time slice has been looked at. */
  function BeforeDispatch(k: Kernel, e: Event): Kernel {
    Preempt(DropInactive(IrqHandler(SetEax(k, EntryEax(e)), e)))
  }

  /** A kernel entry extends the run queue and pops its head if it has to dispatch. */
  lemma StepRun(k: Kernel, e: Event)
    requires Inv(k) && Enabled(k, e)
    ensures var b := BeforeDispatch(k, e);
            && Extends(k.run, b.run)
            && b.active in {k.active, NULL}
            && Step(k, e) == Dispatch(b)
            && Core(b, NULL)
  {
    var k1 := SetEax(k, EntryEax(e));
    var k2 := IrqHandler(k1, e);
    SetEaxKeeps(k, EntryEax(e));
    HandlerKeeps(k1, e);
    HandlerRun(k1, e);
    DropInactiveSame(k2);
    PreemptKeeps(k2);
    assert !Preempt(k2).panicked;
    PreemptRun(k2);
  }

  lemma PreemptRun(k: Kernel)
    requires Core(k, NULL) && Core(Preempt(k), NULL)
    ensures Extends(k.run, Preempt(k).run)
    ensures Preempt(k).active in {k.active, NULL}
  {
  }

  lemma DispatchRun(k: Kernel)
    requires Core(k, NULL)
    ensures k.active != NULL ==> Dispatch(k) == k
    ensures k.active == NULL && k.run == [] ==> Dispatch(k).active == 0 && Dispatch(k).run == []
    ensures k.active == NULL && k.run != [] ==>
              Dispatch(k).run == k.run[1..] && Running(Dispatch(k)) == k.run[0]
  {
    if k.active != NULL {
      assert k.procs[k.active := k.procs[k.active].(state := Active)] == k.procs;
    } else if k.run == [] {
      FloatIdle(k);
    } else {
      FloatRunHead(k);
    }
  }

  /** The idle process stays out of the run queue once its boot-time entry has been popped. */
  lemma StepIdleUnqueued(k: Kernel, e: Event)
    requires Inv(k) && Enabled(k, e)
    requires 0 in k.run ==> k.run[0] == 0 && k.active == NULL
    ensures 0 !in Step(k, e).run
  {
    StepRun(k, e);
    var b := BeforeDispatch(k, e);
    DispatchRun(b);
    assert forall i | 0 <= i < |k.run| :: b.run[i] == k.run[i];
    if 0 in k.run {
      assert forall i | 1 <= i < |b.run| :: b.run[i] != b.run[0];
    }
  }

  lemma {:induction false} RunIdleUnqueued(k: Kernel, es: seq<Event>)
    requires Inv(k) && Legal(k, es) && es != []
    requires 0 in k.run ==> k.run[0] == 0 && k.active == NULL
    ensures 0 !in Run(k, es).run
    decreases |es|
  {
    StepIdleUnqueued(k, es[0]);
    if |es| > 1 {
      StepKeeps(k, es[0]);
      RunIdleUnqueued(Step(k, es[0]), es[1..]);
    }
  }

  /**
   In every run from boot, after the first kernel entry: when a process has to be
   dispatched it is the head of the run queue, and the idle process exactly when
   nothing is ready.
   */
  lemma DispatchSound(es: seq<Event>, e: Event)
    requires es != [] && Legal(Boot(), es) && Enabled(Run(Boot(), es), e)
    requires BeforeDispatch(Run(Boot(), es), e).active == NULL
    ensures var b := BeforeDispatch(Run(Boot(), es), e);
            var p := Running(Step(Run(Boot(), es), e));
            && (p == 0 <==> b.run == [])
            && (b.run != [] ==> p == b.run[0])
  {
    BootInv();
    BootQueues();
    RunKeeps(Boot(), es);
    RunIdleUnqueued(Boot(), es);
    DispatchSoundStep(Run(Boot(), es), e);
  }

  lemma DispatchSoundStep(k: Kernel, e: Event)
    requires Inv(k) && Enabled(k, e) && 0 !in k.run
    requires BeforeDispatch(k, e).active == NULL
    ensures var b := BeforeDispatch(k, e);
            var p := Running(Step(k, e));
            && (p == 0 <==> b.run == [])
            && (b.run != [] ==> p == b.run[0])
  {
    StepRun(k, e);
    var b := BeforeDispatch(k, e);
    DispatchRun(b);
    IdleStillUnqueued(k.run, b.run);
    if b.run == [] { FloatIdle(b); }
  }

  lemma IdleStillUnqueued(q: seq<int>, q': seq<int>)
    requires Extends(q, q') && 0 !in q
    ensures 0 !in q'
  {
    assert forall i | 0 <= i < |q| :: q'[i] == q[i];
  }

  // ----- Bounded waiting -----

  /** An upper bound on the ticks until the process at position i of the run queue runs. */
  function Measure(k: Kernel, i: nat): int {
    if k.active == NULL then SCHEDULER_TIMESLICE * i + 1
    else SCHEDULER_TIMESLICE - k.procs[k.active].cpuTime + SCHEDULER_TIMESLICE * i
  }

  function Tick(e: Event): nat {
    if e.Timer? then 1 else 0
  }

  /** The time slices across one kernel entry. */
  lemma StepCpu(k: Kernel, e: Event)
    requires Inv(k) && Enabled(k, e)
    ensures var b := BeforeDispatch(k, e);
            && Step(k, e).active != NULL
            && (b.active == NULL ==> Step(k, e).procs[Step(k, e).active].cpuTime == 0)
            && (b.active != NULL ==>
                  && Step(k, e).active == k.active
                  && Step(k, e).procs[k.active].cpuTime == k.procs[k.active].cpuTime + Tick(e))
  {
    var k1 := SetEax(k, EntryEax(e));
    var k2 := IrqHandler(k1, e);
    SetEaxKeeps(k, EntryEax(e));
    HandlerKeeps(k1, e);
    HandlerCpu(k1, e);
    HandlerRun(k1, e);
    DropInactiveSame(k2);
    AfterHandlerCpu(k2);
    var b := Preempt(k2);
    assert BeforeDispatch(k, e) == b && Step(k, e) == Dispatch(b);
    if b.active != NULL {
      HandlerActive(k1, e);
      assert k2.active == k1.active == k.active;
      assert k1.procs[k.active].cpuTime == k.procs[k.active].cpuTime;
    }
  }

  lemma AfterHandlerCpu(k: Kernel)
    requires Core(k, NULL) && CpuOk(k, SCHEDULER_TIMESLICE + 1)
    ensures var b := Preempt(k);
            && (b.active == NULL ==> Dispatch(b).active != NULL && Dispatch(b).procs[Dispatch(b).active].cpuTime == 0)
            && (b.active != NULL ==> Dispatch(b) == b == k)
  {
    PreemptKeeps(k);
    PreemptCpu(k);
    var b := Preempt(k);
    DispatchRun(b);
    DispatchZero(b);
  }

  lemma DispatchZero(k: Kernel)
    requires Core(k, NULL) && CpuOk(k, SCHEDULER_TIMESLICE)
    ensures k.active == NULL ==> Dispatch(k).active != NULL && Dispatch(k).procs[Dispatch(k).active].cpuTime == 0
  {
    if k.active == NULL {
      if k.run == [] { FloatIdle(k); } else { FloatRunHead(k); }
    }
  }

  /** The measure drops on every tick until the process runs, and never rises. */
  lemma StepMeasure(k: Kernel, e: Event, i: nat)
    requires Inv(k) && Enabled(k, e) && i < |k.run|
    ensures var k' := Step(k, e); var p := k.run[i];
            || Running(k') == p
            || (i < |k'.run| && k'.run[i] == p && Measure(k', i) + Tick(e) <= Measure(k, i))
            || (0 < i <= |k'.run| && k'.run[i - 1] == p && Measure(k', i - 1) + Tick(e) <= Measure(k, i))
  {
    StepRun(k, e);
    var b := BeforeDispatch(k, e);
    DispatchRun(b);
    StepCpu(k, e);
    StepKeeps(k, e);
    assert b.run[i] == k.run[i];
  }

  ghost predicate RunsAfter(k: Kernel, es: seq<Event>, n: int, p: int) {
    0 <= n <= |es| && Running(Run(k, es[..n])) == p
  }

  lemma {:induction false} RunsWithin(k: Kernel, es: seq<Event>, i: nat)
    requires Inv(k) && Legal(k, es) && i < |k.run|
    requires Measure(k, i) <= Ticks(es)
    ensures exists n :: RunsAfter(k, es, n, k.run[i]) && Ticks(es[..n]) <= Measure(k, i)
    decreases |es|
  {
    assert es != [];
    var k' := Step(k, es[0]);
    var p := k.run[i];
    StepMeasure(k, es[0], i);
    StepKeeps(k, es[0]);
    if Running(k') == p {
      Prepend(k, es, 0, p);
    } else {
      var stays := i < |k'.run| && k'.run[i] == p && Measure(k', i) + Tick(es[0]) <= Measure(k, i);
      var j: nat := if stays then i else i - 1;
      RunsWithin(k', es[1..], j);
      var n :| RunsAfter(k', es[1..], n, p) && Ticks(es[1..][..n]) <= Measure(k', j);
      Prepend(k, es, n, p);
    }
  }

  lemma Prepend(k: Kernel, es: seq<Event>, n: nat, p: int)
    requires es != [] && RunsAfter(Step(k, es[0]), es[1..], n, p)
    ensures RunsAfter(k, es, n + 1, p)
    ensures Ticks(es[..n + 1]) == Tick(es[0]) + Ticks(es[1..][..n])
  {
    hide Step, Running;
    assert es[..n + 1] == [es[0]] + es[1..][..n];
  }

  /**
   Bounded waiting: the process at position i of the run queue becomes active within
   10 * (i + 1) timer ticks, whatever else happens meanwhile.
   */
  lemma BoundedWaiting(k: Kernel, es: seq<Event>, i: nat)
    requires Inv(k) && Legal(k, es) && i < |k.run|
    requires 10 * (i + 1) <= Ticks(es)
    ensures exists n :: RunsAfter(k, es, n, k.run[i]) && Ticks(es[..n]) <= 10 * (i + 1)
  {
    RunsWithin(k, es, i);
  }

  function Timers(n: nat, eax: int): seq<Event> {
    seq(n, j => Timer(eax))
  }

  /** Timer interrupts can always happen, any number of them in a row. */
  lemma {:induction false} TimersLegal(k: Kernel, n: nat, eax: int)
    requires Inv(k)
    ensures Legal(k, Timers(n, eax)) && Ticks(Timers(n, eax)) == n
    decreases n
  {
    if n > 0 {
      hide Inv, Step;
      var es := Timers(n, eax);
      assert es[0] == Timer(eax) && es[1..] == Timers(n - 1, eax);
      StepKeeps(k, es[0]);
      TimersLegal(Step(k, es[0]), n - 1, eax);
    }
  }

  ghost predicate RunsDuring(k: Kernel, es: seq<Event>, p: int) {
    exists n :: RunsAfter(k, es, n, p)
  }

  /** So a ready process does run: the timer alone brings it to the processor in time. */
  lemma ReadyRuns(k: Kernel, i: nat, eax: int)
    requires Inv(k) && i < |k.run|
    ensures RunsDuring(k, Timers(10 * (i + 1), eax), k.run[i])
  {
    TimersLegal(k, 10 * (i + 1), eax);
    BoundedWaiting(k, Timers(10 * (i + 1), eax), i);
  }
}
