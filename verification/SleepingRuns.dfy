/** Sleepers over whole runs: how long they sleep and how often a tick passes them over. */
module SleepingRuns {
  import opened Seqs
  import opened KernelModel
  import opened Invariant
  import opened Preservation
  import opened Reachability
  import opened SleepTick
  import opened BoundedWaiting

  // ----- What a kernel entry leaves alone -----

  /** Sleeping processes keep their entries and their place in the sleep queue. */
  ghost predicate Undisturbed(k: Kernel, k': Kernel) {
    && k.sleep <= k'.sleep
    && forall e: Slot | k.procs[e].state == Sleeping :: k'.procs[e] == k.procs[e]
  }

  lemma CallSleep(k: Kernel, c: Call)
    requires Core(k, NULL) && k.active != NULL && k.procs[k.active].pid != 0 && CallAllowed(k, c)
    ensures Undisturbed(k, CallEffect(k, c).0)
    ensures !c.Sleep? ==> CallEffect(k, c).0.sleep == k.sleep
  {
    CallShape(k, c);
  }

  lemma HandlerSleep(k: Kernel, e: Event)
    requires Core(k, NULL) && Enabled(k, e) && !e.Timer?
    ensures Undisturbed(k, IrqHandler(k, e))
    ensures !(e.Syscall? && e.call.Sleep?) ==> IrqHandler(k, e).sleep == k.sleep
  {
    match e
    case KeyNew(_) =>
      CreateKeeps(k);
      assert k.freeEntries != [] ==> k.freeEntries[0] in k.freeEntries;
    case KeyQuit(_) => DestroyKeeps(k);
    case OtherIrq(_) =>
    case Syscall(c) =>
      CallKeeps(k, c);
      CallSleep(k, c);
      SetEaxSleep(CallEffect(k, c).0, CallEffect(k, c).1);
  }

  lemma SetEaxSleep(k: Kernel, eax: int)
    requires Core(k, NULL)
    ensures Undisturbed(k, SetEax(k, eax)) && SetEax(k, eax).sleep == k.sleep
  {
  }

  lemma SchedulerRunSleep(k: Kernel)
    requires Core(k, NULL)
    ensures Undisturbed(k, SchedulerRun(k)) && SchedulerRun(k).sleep == k.sleep
  {
    DropInactiveSame(k);
    PreemptKeeps(k);
    PreemptSleep(k);
    DispatchSleep(Preempt(k));
    hide Core, Preempt, Dispatch;
    assert SchedulerRun(k) == Dispatch(Preempt(k));
  }

  lemma PreemptSleep(k: Kernel)
    requires Core(k, NULL)
    ensures Undisturbed(k, Preempt(k)) && Preempt(k).sleep == k.sleep
  {
  }

  lemma DispatchSleep(k: Kernel)
    requires Core(k, NULL)
    ensures Undisturbed(k, Dispatch(k)) && Dispatch(k).sleep == k.sleep
  {
    if k.active == NULL {
      if k.run == [] { FloatIdle(k); } else { FloatRunHead(k); }
    }
  }

  // ----- One sleeper -----

  function SleepTime(t: ProcTable, pid: int): int {
    var e := PidToProc(t, pid);
    if e == NULL then 0 else t[e].sleepTime
  }

  /** The examinations that a sleeper needs until it wakes, the waking one included. */
  function Remaining(k: Kernel, pid: int): (n: nat)
    ensures n >= 1
  {
    var t := SleepTime(k.procs, pid);
    if t >= 0 then t + 2 else 1
  }

  lemma SleeperSame(k: Kernel, k': Kernel, pid: int)
    requires Core(k, NULL) && Core(k', NULL) && Undisturbed(k, k') && pid in k.sleep
    ensures pid in k'.sleep
    ensures PidToProc(k'.procs, pid) == PidToProc(k.procs, pid) != NULL
    ensures SleepTime(k'.procs, pid) == SleepTime(k.procs, pid)
  {
    var e := PidToProc(k.procs, pid);
    assert k.procs[e].state == Sleeping;
    LookupLive(k'.procs, k'.freeEntries, k'.nextPid, e);
    var i :| 0 <= i < |k.sleep| && k.sleep[i] == pid;
    assert k'.sleep[i] == pid;
  }

  /** The kernel when the loop of scheduler_timer starts. */
  function Charged(k: Kernel, e: Event): Kernel {
    ChargeActive(SetEax(k, EntryEax(e)))
  }

  /** A timer interrupt examines the first sleepers, this many of them. */
  function Visited(k: Kernel, e: Event): (v: nat)
    ensures v <= |k.sleep|
  {
    if e.Timer? then Examined(Charged(k, e)) else 0
  }

  function Wakeups(k: Kernel, e: Event): nat {
    |Woken(Charged(k, e).procs, k.sleep[..Visited(k, e)])|
  }

  lemma ChargedSleep(k: Kernel, e: Event)
    requires Core(k, NULL)
    ensures Core(Charged(k, e), NULL)
    ensures Undisturbed(k, Charged(k, e)) && Charged(k, e).sleep == k.sleep && Charged(k, e).run == k.run
  {
    SetEaxKeeps(k, EntryEax(e));
    ChargeKeeps(SetEax(k, EntryEax(e)));
  }

  /** Any other kernel entry leaves the sleepers alone. */
  lemma QuietStep(k: Kernel, e: Event)
    requires Inv(k) && Enabled(k, e) && !e.Timer?
    ensures Undisturbed(k, Step(k, e))
    ensures !(e.Syscall? && e.call.Sleep?) ==> Step(k, e).sleep == k.sleep
  {
    var k1 := SetEax(k, EntryEax(e));
    SetEaxKeeps(k, EntryEax(e));
    SetEaxSleep(k, EntryEax(e));
    HandlerKeeps(k1, e);
    HandlerSleep(k1, e);
    SchedulerRunSleep(IrqHandler(k1, e));
  }

  /** The loop's effect on the entry of one sleeper. */
  lemma AfterSleeper(c: Kernel, v: nat, pid: int)
    requires Core(c, NULL) && v <= |c.sleep| && pid in c.sleep
    requires Core(After(c, v), NULL)
    ensures var e := PidToProc(c.procs, pid);
            && e != NULL
            && After(c, v).procs[e] == (if pid in c.sleep[..v] then Examine(c.procs[e]) else c.procs[e])
            && PidToProc(After(c, v).procs, pid) == e
  {
    LookupSame(c.procs, After(c, v).procs);
  }

  lemma TimerStep(k: Kernel, e: Event)
    requires Inv(k) && Enabled(k, e) && e.Timer?
    ensures var c := Charged(k, e); var a := After(c, Visited(k, e));
            && Core(c, NULL) && Core(a, NULL)
            && Step(k, e) == SchedulerRun(a)
            && Undisturbed(a, Step(k, e)) && Step(k, e).sleep == a.sleep
            && (k.sleep != [] ==> Visited(k, e) > 0)
            && |k.sleep| < 2 * Visited(k, e) + 1
            && |k.sleep| - Visited(k, e) <= Wakeups(k, e)
  {
    var k1 := SetEax(k, EntryEax(e));
    SetEaxKeeps(k, EntryEax(e));
    ChargedSleep(k, e);
    HandlerKeeps(k1, e);
    TimerEffect(k1);
    SchedulerRunSleep(IrqHandler(k1, e));
    LoopEffect(Charged(k, e));
  }

  /** A timer interrupt examines every sleeper exactly when none before the last has its time up. */
  lemma TickExaminesAll(k: Kernel, e: Event)
    requires Inv(k) && Enabled(k, e) && e.Timer?
    ensures Visited(k, e) == |k.sleep|
       <==> forall i | 0 <= i < |k.sleep| - 1 :: SleepTime(k.procs, k.sleep[i]) >= 0
  {
    var t := Charged(k, e).procs;
    AllExaminedExact(t, k.sleep);
    forall i | 0 <= i < |k.sleep| - 1 ensures Due(t, k.sleep[i]) <==> SleepTime(k.procs, k.sleep[i]) < 0 {
      TimerSleeper(k, e, i);
    }
  }

  /**
   One kernel entry and the sleeper at position i. A tick either examines it, which
   wakes it if it was due for its last examination, or leaves at most half the sleepers
   before it and wakes somebody else. Nothing else touches it.
   */
  ghost predicate SleeperStepped(k: Kernel, e: Event, i: nat)
    requires i < |k.sleep|
  {
    var k' := Step(k, e); var p := k.sleep[i];
    if i >= Visited(k, e) then
      && var j := i - Visited(k, e);
         && j < |k'.sleep| && k'.sleep[j] == p
         && Remaining(k', p) == Remaining(k, p)
         && (e.Timer? ==> 2 * (j + 1) <= i + 1 && Wakeups(k, e) > 0)
    else if Remaining(k, p) > 1 then
      p in k'.sleep && Remaining(k', p) == Remaining(k, p) - 1
    else
      p !in k'.sleep && (p in k'.run || Running(k') == p) && Wakeups(k, e) > 0
  }

  lemma SleeperStep(k: Kernel, e: Event, i: nat)
    requires Inv(k) && Enabled(k, e) && i < |k.sleep|
    ensures SleeperStepped(k, e, i)
  {
    hide Inv, Core, Wakeups, Visited, Remaining, Step, Running;
    if !e.Timer? {
      QuietSleeper(k, e, i);
    } else if i >= Visited(k, e) {
      PassedSleeper(k, e, i);
    } else if Remaining(k, k.sleep[i]) > 1 {
      KeptSleeper(k, e, i);
    } else {
      WokenSleeper(k, e, i);
    }
  }

  lemma QuietSleeper(k: Kernel, e: Event, i: nat)
    requires Inv(k) && Enabled(k, e) && i < |k.sleep| && !e.Timer?
    ensures Visited(k, e) == 0 && i < |Step(k, e).sleep| && Step(k, e).sleep[i] == k.sleep[i]
    ensures Remaining(Step(k, e), k.sleep[i]) == Remaining(k, k.sleep[i])
  {
    StepKeepsCore(k, e);
    QuietStep(k, e);
    SleeperSame(k, Step(k, e), k.sleep[i]);
  }

  /** The table entry of a sleeper after the loop of scheduler_timer. */
  lemma TimerSleeper(k: Kernel, e: Event, i: nat)
    requires Inv(k) && Enabled(k, e) && i < |k.sleep| && e.Timer?
    ensures var p := k.sleep[i]; var a := After(Charged(k, e), Visited(k, e));
            && Core(a, NULL) && Core(Step(k, e), NULL) && Undisturbed(a, Step(k, e))
            && SleepTime(a.procs, p) == SleepTime(k.procs, p) - (if i < Visited(k, e) then 1 else 0)
            && (Due(Charged(k, e).procs, p) <==> SleepTime(k.procs, p) < 0)
  {
    assert NoDup(k.sleep) && k.sleep[i] in k.sleep;
    hide Core;
    var p := k.sleep[i];
    var c := Charged(k, e);
    TimerStep(k, e);
    StepKeepsCore(k, e);
    ChargedSleep(k, e);
    SleeperSame(k, c, p);
    AfterSleeper(c, Visited(k, e), p);
    assert p in k.sleep[..Visited(k, e)] <==> i < Visited(k, e);
  }

  lemma PassedPosition(c: Kernel, v: nat, i: nat)
    requires v <= i < |c.sleep|
    ensures i - v < |After(c, v).sleep| && After(c, v).sleep[i - v] == c.sleep[i]
    ensures c.sleep[i] in After(c, v).sleep
  {
  }

  lemma PassedSleeper(k: Kernel, e: Event, i: nat)
    requires Inv(k) && Enabled(k, e) && i < |k.sleep| && e.Timer? && i >= Visited(k, e)
    ensures var j := i - Visited(k, e);
            && j < |Step(k, e).sleep| && Step(k, e).sleep[j] == k.sleep[i]
            && 2 * (j + 1) <= i + 1 && Wakeups(k, e) > 0
    ensures Remaining(Step(k, e), k.sleep[i]) == Remaining(k, k.sleep[i])
  {
    TimerStep(k, e);
    PassedPosition(Charged(k, e), Visited(k, e), i);
    PassedTime(k, e, i);
  }

  lemma PassedTime(k: Kernel, e: Event, i: nat)
    requires Inv(k) && Enabled(k, e) && i < |k.sleep| && e.Timer? && i >= Visited(k, e)
    ensures Remaining(Step(k, e), k.sleep[i]) == Remaining(k, k.sleep[i])
  {
    hide Core, Undisturbed;
    TimerSleeper(k, e, i);
    PassedPosition(Charged(k, e), Visited(k, e), i);
    SleeperSame(After(Charged(k, e), Visited(k, e)), Step(k, e), k.sleep[i]);
  }

  lemma KeptSleeper(k: Kernel, e: Event, i: nat)
    requires Inv(k) && Enabled(k, e) && i < |k.sleep| && e.Timer? && i < Visited(k, e)
    requires Remaining(k, k.sleep[i]) > 1
    ensures k.sleep[i] in Step(k, e).sleep
    ensures Remaining(Step(k, e), k.sleep[i]) == Remaining(k, k.sleep[i]) - 1
  {
    var p := k.sleep[i];
    var q := k.sleep[..Visited(k, e)];
    var c := Charged(k, e);
    TimerSleeper(k, e, i);
    TimerStep(k, e);
    assert q[i] == p;
    Split(c.procs, q);
    assert p in Kept(c.procs, q);
    assert p in After(c, Visited(k, e)).sleep;
    SleeperSame(After(c, Visited(k, e)), Step(k, e), p);
  }

  lemma WokenSleeper(k: Kernel, e: Event, i: nat)
    requires Inv(k) && Enabled(k, e) && i < |k.sleep| && e.Timer? && i < Visited(k, e)
    requires Remaining(k, k.sleep[i]) == 1
    ensures k.sleep[i] !in Step(k, e).sleep
    ensures k.sleep[i] in Step(k, e).run || Running(Step(k, e)) == k.sleep[i]
    ensures Wakeups(k, e) > 0
  {
    var p := k.sleep[i];
    var q := k.sleep[..Visited(k, e)];
    var c := Charged(k, e);
    var a := After(c, Visited(k, e));
    TimerSleeper(k, e, i);
    TimerStep(k, e);
    assert q[i] == p;
    Split(c.procs, q);
    assert p in Woken(c.procs, q);
    assert p in a.run;
    NotAsleep(a, p);
    StaysReady(a, p);
  }

  lemma NotAsleep(k: Kernel, p: int)
    requires Core(k, NULL) && p in k.run
    ensures p !in k.sleep
  {
  }

  /** A ready process stays ready until it is dispatched. */
  lemma StaysReady(k: Kernel, p: int)
    requires Core(k, NULL) && p in k.run
    ensures p in SchedulerRun(k).run || Running(SchedulerRun(k)) == p
  {
    DropInactiveSame(k);
    PreemptKeeps(k);
    PreemptRun(k);
    var b := Preempt(k);
    DispatchRun(b);
    assert p in b.run by {
      var i :| 0 <= i < |k.run| && k.run[i] == p;
      assert b.run[i] == p;
    }
  }

  // ----- Falling asleep -----

  /** A sleep call of t ticks queues the caller last, t + 2 examinations away from waking. */
  lemma FallAsleep(k: Kernel, seconds: int)
    requires Inv(k) && Enabled(k, Syscall(Sleep(seconds)))
    ensures var k' := Step(k, Syscall(Sleep(seconds))); var p := Running(k);
            && k'.sleep == k.sleep + [p]
            && Remaining(k', p) == (if seconds >= 0 then 100 * seconds + 2 else 1)
  {
    var e := Syscall(Sleep(seconds));
    var k1 := SetEax(k, SYSCALL_PROC_SLEEP);
    SetEaxKeeps(k, SYSCALL_PROC_SLEEP);
    SleepKeeps(k1, seconds * 100);
    var k2 := SchedulerSleep(k1, k1.active, seconds * 100);
    assert IrqHandler(k1, e) == k2;
    LookupLive(k2.procs, k2.freeEntries, k2.nextPid, k.active);
    StepKeepsCore(k, e);
    SchedulerRunSleep(k2);
    SleeperSame(k2, SchedulerRun(k2), Running(k));
  }

  /** A sleeper that is put to sleep again keeps its place and only gets the new time. */
  lemma SleepAgain(k: Kernel, e: Slot, time: int)
    requires k.procs[e].state == Sleeping
    ensures SchedulerSleep(k, e, time) == k.(procs := k.procs[e := k.procs[e].(sleepTime := time)])
  {
  }

  // ----- Halving -----

  /** p sleeps through es and no tick in it examines p. */
  ghost predicate PassedOver(k: Kernel, es: seq<Event>, p: int)
    decreases |es|
  {
    p in k.sleep &&
    (es == [] || (p !in k.sleep[..Visited(k, es[0])] && PassedOver(Step(k, es[0]), es[1..], p)))
  }

  function Pow2(n: nat): nat {
    if n == 0 then 1 else 2 * Pow2(n - 1)
  }

  lemma PassedStep(k: Kernel, e: Event, i: nat)
    requires Inv(k) && Enabled(k, e) && i < |k.sleep| && k.sleep[i] !in k.sleep[..Visited(k, e)]
    ensures var j := i - Visited(k, e);
            && 0 <= j < |Step(k, e).sleep| && Step(k, e).sleep[j] == k.sleep[i]
            && (e.Timer? ==> 2 * (j + 1) <= i + 1)
  {
    hide Inv, Step, Visited;
    var q := k.sleep[..Visited(k, e)];
    assert forall j | 0 <= j < |q| :: k.sleep[j] == q[j];
    SleeperStep(k, e, i);
  }

  /** The position of a sleeper that is passed over halves with every tick. */
  lemma {:induction false} Halving(k: Kernel, es: seq<Event>, i: nat)
    requires Inv(k) && Legal(k, es) && i < |k.sleep| && PassedOver(k, es, k.sleep[i])
    ensures Pow2(Ticks(es)) <= i + 1
    decreases |es|
  {
    hide Inv, Step, Visited, Enabled;
    if es != [] {
      StepKeeps(k, es[0]);
      PassedStep(k, es[0], i);
      Halving(Step(k, es[0]), es[1..], i - Visited(k, es[0]));
    }
  }

  lemma SleepBound(k: Kernel)
    requires Inv(k)
    ensures |k.sleep| < PROC_MAX
  {
    SleepersNonZero(k);
    QueueBound(k.procs, k.sleep);
  }

  /** No sleeper is passed over on more than four consecutive ticks. */
  lemma PassedOverAtMostFour(k: Kernel, es: seq<Event>, p: int)
    requires Inv(k) && Legal(k, es) && PassedOver(k, es, p)
    ensures Ticks(es) <= 4
  {
    var i := IndexOf(k.sleep, p);
    Halving(k, es, i);
    SleepBound(k);
    if Ticks(es) >= 5 {
      Pow2Monotone(5, Ticks(es));
    }
  }

  lemma {:induction false} Pow2Monotone(m: nat, n: nat)
    requires m <= n
    ensures Pow2(m) <= Pow2(n)
    decreases n - m
  {
    if m < n {
      Pow2Monotone(m, n - 1);
    }
  }

  // ----- Sleep duration -----

  ghost predicate SleepsThrough(k: Kernel, es: seq<Event>, p: int)
    decreases |es|
  {
    p in k.sleep && (es == [] || SleepsThrough(Step(k, es[0]), es[1..], p))
  }

  function Examinations(k: Kernel, es: seq<Event>, p: int): nat
    decreases |es|
  {
    if es == [] then 0
    else (if p in k.sleep[..Visited(k, es[0])] then 1 else 0) + Examinations(Step(k, es[0]), es[1..], p)
  }

  function AllWakeups(k: Kernel, es: seq<Event>): nat
    decreases |es|
  {
    if es == [] then 0 else Wakeups(k, es[0]) + AllWakeups(Step(k, es[0]), es[1..])
  }

  /** The account of one sleeper over one kernel entry. */
  lemma SleepStep(k: Kernel, e: Event, p: int)
    requires Inv(k) && Enabled(k, e) && p in k.sleep
    ensures var x := if p in k.sleep[..Visited(k, e)] then 1 else 0; var t := if e.Timer? then 1 else 0;
            && x <= t <= x + Wakeups(k, e)
            && (p in Step(k, e).sleep ==> Remaining(Step(k, e), p) == Remaining(k, p) - x)
            && (p !in Step(k, e).sleep ==>
                  && x == 1 == Remaining(k, p) && Wakeups(k, e) >= 1
                  && (p in Step(k, e).run || Running(Step(k, e)) == p))
  {
    var i := IndexOf(k.sleep, p);
    assert NoDup(k.sleep);
    hide Inv, Step, Visited, Enabled, Wakeups, Running;
    SleeperStep(k, e, i);
    var q := k.sleep[..Visited(k, e)];
    if i < Visited(k, e) {
      assert q[i] == p;
    } else {
      assert forall j | 0 <= j < Visited(k, e) :: k.sleep[j] != k.sleep[i];
      assert p !in q;
    }
  }

  /** The account of a sleeper over a run, in examinations and in ticks. */
  lemma {:induction false} SleepAccount(k: Kernel, es: seq<Event>, p: int)
    requires Inv(k) && Legal(k, es) && SleepsThrough(k, es, p)
    ensures p in Run(k, es).sleep
    ensures Examinations(k, es, p) + Remaining(Run(k, es), p) == Remaining(k, p)
    ensures Examinations(k, es, p) <= Ticks(es) <= Examinations(k, es, p) + AllWakeups(k, es)
    decreases |es|
  {
    hide Inv, Step, Enabled, Wakeups, Running, Visited;
    if es != [] {
      StepKeeps(k, es[0]);
      SleepStep(k, es[0], p);
      SleepAccount(Step(k, es[0]), es[1..], p);
    }
  }

  /**
   Sleep duration: if p sleeps through es and e ends its sleep, then e is a tick, it is
   the Remaining(k, p)-th examination of p, and the number of ticks since k exceeds that
   number by no more than the wake-ups meanwhile. p is then ready, or already running.
   */
  lemma SleepDuration(k: Kernel, es: seq<Event>, e: Event, p: int)
    requires Inv(k) && Legal(k, es) && Enabled(Run(k, es), e)
    requires SleepsThrough(k, es, p) && p !in Step(Run(k, es), e).sleep
    ensures e.Timer? && p in Run(k, es).sleep[..Visited(Run(k, es), e)]
    ensures Examinations(k, es, p) + 1 == Remaining(k, p)
    ensures Remaining(k, p) <= Ticks(es) + 1 <= Remaining(k, p) + AllWakeups(k, es)
    ensures p in Step(Run(k, es), e).run || Running(Step(Run(k, es), e)) == p
  {
    RunKeeps(k, es);
    SleepAccount(k, es, p);
    SleepStep(Run(k, es), e, p);
  }

  // ----- Deadlines -----

  function Log2(n: nat): nat
    requires n >= 1
  {
    if n == 1 then 0 else 1 + Log2(n / 2)
  }

  lemma {:induction false} Log2Monotone(a: nat, b: nat)
    requires 1 <= a <= b
    ensures Log2(a) <= Log2(b)
  {
    if a > 1 {
      Log2Monotone(a / 2, b / 2);
    }
  }

  lemma Log2Small(n: nat)
    requires 1 <= n < 32
    ensures Log2(n) <= 4
  {
    Log2Monotone(n, 31);
    assert Log2(31) == 1 + Log2(15) == 2 + Log2(7) == 3 + Log2(3) == 4 + Log2(1);
  }

  /** A bound on the ticks through which the sleeper at position i goes on sleeping. */
  function Patience(k: Kernel, i: nat): nat
    requires i < |k.sleep|
  {
    5 * (Remaining(k, k.sleep[i]) - 1) + Log2(i + 1)
  }

  lemma PositionOf(k: Kernel, i: nat)
    requires Inv(k) && i < |k.sleep|
    ensures IndexOf(k.sleep, k.sleep[i]) == i
  {
  }

  /** The bound drops on every tick that does not end the sleep, and never rises. */
  lemma PatienceStep(k: Kernel, e: Event, i: nat)
    requires Inv(k) && Enabled(k, e) && i < |k.sleep| && k.sleep[i] in Step(k, e).sleep
    ensures Patience(Step(k, e), IndexOf(Step(k, e).sleep, k.sleep[i])) + Tick(e) <= Patience(k, i)
  {
    hide Inv, Enabled, Step, Wakeups, Running, Remaining, Visited, Patience, IndexOf;
    StepKeeps(k, e);
    SleeperStep(k, e, i);
    if i >= Visited(k, e) {
      PassedPatience(k, Step(k, e), i, i - Visited(k, e), Tick(e));
    } else {
      ExaminedPatience(k, Step(k, e), i);
    }
  }

  lemma PassedPatience(k: Kernel, k': Kernel, i: nat, j: nat, t: nat)
    requires Inv(k') && i < |k.sleep| && j < |k'.sleep| && k'.sleep[j] == k.sleep[i]
    requires Remaining(k', k.sleep[i]) == Remaining(k, k.sleep[i])
    requires t <= 1 && j <= i && (t == 1 ==> 2 * (j + 1) <= i + 1)
    ensures Patience(k', IndexOf(k'.sleep, k.sleep[i])) + t <= Patience(k, i)
  {
    PositionOf(k', j);
    hide Inv, Remaining;
    Log2Monotone(j + 1, if t == 1 then (i + 1) / 2 else i + 1);
  }

  lemma ExaminedPatience(k: Kernel, k': Kernel, i: nat)
    requires Inv(k') && i < |k.sleep| && k.sleep[i] in k'.sleep
    requires Remaining(k', k.sleep[i]) == Remaining(k, k.sleep[i]) - 1
    ensures Patience(k', IndexOf(k'.sleep, k.sleep[i])) + 1 <= Patience(k, i)
  {
    SleepBound(k');
    hide Inv, Remaining;
    Log2Small(IndexOf(k'.sleep, k.sleep[i]) + 1);
  }

  lemma {:induction false} SleepsAtMost(k: Kernel, es: seq<Event>, p: int)
    requires Inv(k) && Legal(k, es) && SleepsThrough(k, es, p)
    ensures Ticks(es) <= Patience(k, IndexOf(k.sleep, p))
    decreases |es|
  {
    if es != [] {
      hide Inv, Enabled, Step, Patience;
      StepKeeps(k, es[0]);
      PatienceStep(k, es[0], IndexOf(k.sleep, p));
      SleepsAtMost(Step(k, es[0]), es[1..], p);
    }
  }

  lemma PatienceBound(k: Kernel, p: int)
    requires Inv(k) && p in k.sleep
    ensures Patience(k, IndexOf(k.sleep, p)) < 5 * Remaining(k, p)
  {
    SleepBound(k);
    Log2Small(IndexOf(k.sleep, p) + 1);
  }

  /** A sleep of t ticks ends within 5 * (t + 2) ticks, whatever else happens. */
  lemma WakesWithin(k: Kernel, es: seq<Event>, p: int)
    requires Inv(k) && Legal(k, es) && p in k.sleep
    requires 5 * Remaining(k, p) <= Ticks(es)
    ensures !SleepsThrough(k, es, p)
  {
    PatienceBound(k, p);
    if SleepsThrough(k, es, p) {
      SleepsAtMost(k, es, p);
    }
  }

  /** The longest wait of a ready process. */
  const QUEUE_WAIT := 200

  ghost predicate RunsWithinTicks(k: Kernel, es: seq<Event>, p: int, t: int) {
    exists n :: RunsAfter(k, es, n, p) && Ticks(es[..n]) <= t
  }

  /** One event before a run in which p runs in time. */
  lemma LaterByOne(k: Kernel, es: seq<Event>, p: int, t: int, u: int)
    requires es != [] && RunsWithinTicks(Step(k, es[0]), es[1..], p, t) && t + Tick(es[0]) <= u
    ensures RunsWithinTicks(k, es, p, u)
  {
    hide Step, Running;
    var n :| RunsAfter(Step(k, es[0]), es[1..], n, p) && Ticks(es[1..][..n]) <= t;
    Prepend(k, es, n, p);
    assert Ticks(es[..n + 1]) <= u;
  }

  lemma RunsNow(k: Kernel, es: seq<Event>, p: int)
    requires Running(k) == p
    ensures RunsWithinTicks(k, es, p, QUEUE_WAIT)
  {
    assert es[..0] == [];
    assert RunsAfter(k, es, 0, p) && Ticks(es[..0]) <= QUEUE_WAIT;
  }

  lemma ReadyRunsWithin(k: Kernel, es: seq<Event>, p: int)
    requires Inv(k) && Legal(k, es) && p in k.run && QUEUE_WAIT <= Ticks(es)
    ensures RunsWithinTicks(k, es, p, QUEUE_WAIT)
  {
    QueueBound(k.procs, k.run);
    BoundedWaiting.BoundedWaiting(k, es, IndexOf(k.run, p));
    var n :| RunsAfter(k, es, n, p) && Ticks(es[..n]) <= 10 * (IndexOf(k.run, p) + 1);
    assert Ticks(es[..n]) <= QUEUE_WAIT;
  }

  /** A bound on the ticks until a sleeper has run. */
  function Deadline(k: Kernel, p: int): nat
    requires p in k.sleep
  {
    Patience(k, IndexOf(k.sleep, p)) + 1 + QUEUE_WAIT
  }

  lemma {:induction false} SleeperRunsWithin(k: Kernel, es: seq<Event>, p: int)
    requires Inv(k) && Legal(k, es) && p in k.sleep && Deadline(k, p) <= Ticks(es)
    ensures RunsWithinTicks(k, es, p, Deadline(k, p))
    decreases |es|
  {
    hide Inv, Enabled, Step, RunsWithinTicks, Running, Patience, IndexOf;
    assert es != [];
    var k' := Step(k, es[0]);
    StepKeeps(k, es[0]);
    if p in k'.sleep {
      SleeperLater(k, es, p);
      SleeperRunsWithin(k', es[1..], p);
      LaterByOne(k, es, p, Deadline(k', p), Deadline(k, p));
    } else {
      AwakeRunsWithin(k, es, p);
      LaterByOne(k, es, p, QUEUE_WAIT, Deadline(k, p));
    }
  }

  lemma SleeperLater(k: Kernel, es: seq<Event>, p: int)
    requires es != [] && Inv(k) && Legal(k, es) && p in k.sleep && p in Step(k, es[0]).sleep
    requires Deadline(k, p) <= Ticks(es)
    ensures Deadline(Step(k, es[0]), p) + Tick(es[0]) <= Deadline(k, p)
    ensures Deadline(Step(k, es[0]), p) <= Ticks(es[1..])
  {
    hide Inv, Enabled, Step, Patience;
    PatienceStep(k, es[0], IndexOf(k.sleep, p));
  }

  /** The process that the first event wakes. */
  lemma AwakeRunsWithin(k: Kernel, es: seq<Event>, p: int)
    requires es != [] && Inv(k) && Legal(k, es) && p in k.sleep && p !in Step(k, es[0]).sleep
    requires Inv(Step(k, es[0])) && QUEUE_WAIT + 1 <= Ticks(es)
    ensures RunsWithinTicks(Step(k, es[0]), es[1..], p, QUEUE_WAIT)
  {
    hide Inv, Step, Enabled, RunsWithinTicks, Running, Wakeups, Visited;
    var k' := Step(k, es[0]);
    SleepStep(k, es[0], p);
    if p in k'.run {
      ReadyRunsWithin(k', es[1..], p);
    } else {
      RunsNow(k', es[1..], p);
    }
  }

  /**
   From the sleep queue back to the processor: a sleeper with r examinations to go runs
   within 5 * r + 200 ticks, whatever else happens.
   */
  lemma RunsAgain(k: Kernel, es: seq<Event>, p: int)
    requires Inv(k) && Legal(k, es) && p in k.sleep
    requires 5 * Remaining(k, p) + QUEUE_WAIT <= Ticks(es)
    ensures RunsWithinTicks(k, es, p, 5 * Remaining(k, p) + QUEUE_WAIT)
  {
    hide Inv, Legal, Remaining, Patience, RunsWithinTicks, IndexOf, Ticks;
    PatienceBound(k, p);
    SleeperRunsWithin(k, es, p);
    Longer(k, es, p, Deadline(k, p), 5 * Remaining(k, p) + QUEUE_WAIT);
  }

  lemma Longer(k: Kernel, es: seq<Event>, p: int, t: int, u: int)
    requires RunsWithinTicks(k, es, p, t) && t <= u
    ensures RunsWithinTicks(k, es, p, u)
  {
    hide Running;
    var n :| RunsAfter(k, es, n, p) && Ticks(es[..n]) <= t;
    assert Ticks(es[..n]) <= u;
  }

  // ----- Drain -----

  /** The examinations outstanding in a queue of sleepers. */
  function Load(t: ProcTable, q: seq<int>): nat {
    if q == [] then 0
    else Load(t, q[..|q| - 1]) + var s := SleepTime(t, q[|q| - 1]); if s >= 0 then s + 2 else 1
  }

  lemma {:induction false} LoadConcat(t: ProcTable, a: seq<int>, b: seq<int>)
    ensures Load(t, a + b) == Load(t, a) + Load(t, b)
  {
    if b == [] {
      assert a + b == a;
    } else {
      var n := |b| - 1;
      assert (a + b)[..|a + b| - 1] == a + b[..n];
      LoadConcat(t, a, b[..n]);
    }
  }

  lemma {:induction false} LoadSame(t: ProcTable, u: ProcTable, q: seq<int>)
    requires forall p | p in q :: SleepTime(t, p) == SleepTime(u, p)
    ensures Load(t, q) == Load(u, q)
  {
    if q != [] {
      assert q[|q| - 1] in q;
      LoadSame(t, u, q[..|q| - 1]);
    }
  }

  /** Every examination takes one off the load, the waking one too. */
  lemma {:induction false} LoadExamined(t: ProcTable, u: ProcTable, q: seq<int>)
    requires forall p | p in q :: PidToProc(t, p) != NULL && SleepTime(u, p) == SleepTime(t, p) - 1
    ensures Load(u, Kept(t, q)) == Load(t, q) - |q|
  {
    if q != [] {
      var r, x := q[..|q| - 1], q[|q| - 1];
      assert x in q;
      LoadExamined(t, u, r);
      var kept := Kept(t, r);
      if Due(t, x) {
        assert Kept(t, q) == kept;
      } else {
        assert Kept(t, q) == kept + [x];
        assert (kept + [x])[..|kept|] == kept;
      }
    }
  }

  function SleepLoad(k: Kernel): nat {
    Load(k.procs, k.sleep)
  }

  lemma {:induction false} LoadPositive(t: ProcTable, q: seq<int>)
    ensures Load(t, q) >= |q|
  {
    if q != [] {
      LoadPositive(t, q[..|q| - 1]);
    }
  }

  /** The load over one kernel entry: a tick takes off exactly the number it examines. */
  lemma LoadStep(k: Kernel, e: Event)
    requires Inv(k) && Enabled(k, e) && !(e.Syscall? && e.call.Sleep?)
    ensures SleepLoad(Step(k, e)) == SleepLoad(k) - Visited(k, e)
    ensures e.Timer? ==> Visited(k, e) >= (|k.sleep| + 1) / 2
  {
    if e.Timer? {
      TimerLoad(k, e);
      TimerStep(k, e);
    } else {
      QuietStep(k, e);
      StepKeepsCore(k, e);
      QuietLoad(k, Step(k, e));
    }
  }

  lemma QuietLoad(k: Kernel, k': Kernel)
    requires Core(k, NULL) && Core(k', NULL) && Undisturbed(k, k') && k'.sleep == k.sleep
    ensures SleepLoad(k') == SleepLoad(k)
  {
    forall p | p in k.sleep ensures SleepTime(k'.procs, p) == SleepTime(k.procs, p) {
      SleeperSame(k, k', p);
    }
    LoadSame(k.procs, k'.procs, k.sleep);
  }

  lemma TimerLoad(k: Kernel, e: Event)
    requires Inv(k) && Enabled(k, e) && e.Timer?
    ensures SleepLoad(Step(k, e)) == SleepLoad(k) - Visited(k, e)
  {
    var c := Charged(k, e);
    var v := Visited(k, e);
    ChargedSleep(k, e);
    QuietLoad(k, c);
    TimerStep(k, e);
    StepKeepsCore(k, e);
    QuietLoad(After(c, v), Step(k, e));
    AfterLoad(c, v);
  }

  lemma AfterTimes(c: Kernel, v: nat, p: int)
    requires Core(c, NULL) && v <= |c.sleep| && Core(After(c, v), NULL) && p in c.sleep
    ensures PidToProc(c.procs, p) != NULL
    ensures SleepTime(After(c, v).procs, p) == SleepTime(c.procs, p) - (if p in c.sleep[..v] then 1 else 0)
  {
    AfterSleeper(c, v, p);
  }

  lemma AfterLoad(c: Kernel, v: nat)
    requires Core(c, NULL) && v <= |c.sleep| && Core(After(c, v), NULL)
    ensures SleepLoad(After(c, v)) == SleepLoad(c) - v
  {
    hide *;
    AllAfterTimes(c, v);
    AfterParts(c, v);
    AddLoads(c.procs, After(c, v).procs, c.sleep[..v], c.sleep[v..]);
  }

  lemma AfterParts(c: Kernel, v: nat)
    requires v <= |c.sleep|
    ensures SleepLoad(c) == Load(c.procs, c.sleep[..v] + c.sleep[v..])
    ensures SleepLoad(After(c, v)) == Load(After(c, v).procs, c.sleep[v..] + Kept(c.procs, c.sleep[..v]))
  {
    hide Load, Kept;
    assert c.sleep[..v] + c.sleep[v..] == c.sleep;
  }

  lemma AllAfterTimes(c: Kernel, v: nat)
    requires Core(c, NULL) && v <= |c.sleep| && Core(After(c, v), NULL)
    ensures var t, u := c.procs, After(c, v).procs;
            && (forall p | p in c.sleep[..v] :: PidToProc(t, p) != NULL && SleepTime(u, p) == SleepTime(t, p) - 1)
            && (forall p | p in c.sleep[v..] :: SleepTime(u, p) == SleepTime(t, p))
  {
    assert NoDup(c.sleep);
    hide Core, SleepTime;
    forall p | p in c.sleep
      ensures PidToProc(c.procs, p) != NULL
      ensures SleepTime(After(c, v).procs, p) == SleepTime(c.procs, p) - (if p in c.sleep[..v] then 1 else 0)
    {
      AfterTimes(c, v, p);
    }
  }

  lemma AddLoads(t: ProcTable, u: ProcTable, q: seq<int>, r: seq<int>)
    requires forall p | p in q :: PidToProc(t, p) != NULL && SleepTime(u, p) == SleepTime(t, p) - 1
    requires forall p | p in r :: SleepTime(u, p) == SleepTime(t, p)
    ensures Load(u, r + Kept(t, q)) == Load(t, q + r) - |q|
  {
    LoadExamined(t, u, q);
    LoadSame(t, u, r);
    LoadConcat(t, q, r);
    LoadConcat(u, r, Kept(t, q));
  }

  ghost predicate NoSleepCalls(es: seq<Event>) {
    forall e | e in es :: !(e.Syscall? && e.call.Sleep?)
  }

  /** Without new sleepers the sleep queue is empty after as many ticks as its load. */
  lemma {:induction false} Drain(k: Kernel, es: seq<Event>)
    requires Inv(k) && Legal(k, es) && NoSleepCalls(es)
    requires SleepLoad(k) <= Ticks(es)
    ensures Run(k, es).sleep == []
    decreases |es|
  {
    LoadPositive(k.procs, k.sleep);
    if es != [] {
      hide Inv, Step, Enabled, Visited;
      StepKeeps(k, es[0]);
      LoadStep(k, es[0]);
      Drain(Step(k, es[0]), es[1..]);
    }
  }
}
