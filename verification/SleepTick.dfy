/** The exact effect of scheduler_timer: its loop bound shrinks while it runs. */
module SleepTick {
  import opened Seqs
  import opened KernelModel
  import opened Invariant
  import opened Preservation

  /** The sleeper wakes when it is examined. */
  predicate Due(t: ProcTable, pid: int) {
    var e := PidToProc(t, pid);
    e != NULL && t[e].sleepTime < 0
  }

  function Woken(t: ProcTable, q: seq<int>): seq<int> {
    if q == [] then []
    else Woken(t, q[..|q| - 1]) + if Due(t, q[|q| - 1]) then [q[|q| - 1]] else []
  }

  function Kept(t: ProcTable, q: seq<int>): seq<int> {
    if q == [] then []
    else Kept(t, q[..|q| - 1]) + if Due(t, q[|q| - 1]) then [] else [q[|q| - 1]]
  }

  /** How many sleepers the loop examines, the first i of them having been examined. */
  function Visits(t: ProcTable, q: seq<int>, i: nat): (v: nat)
    requires i <= |q|
    ensures i <= v <= |q|
    ensures |q| - |Woken(t, q[..v])| <= v
    ensures forall j | i <= j < v :: j < |q| - |Woken(t, q[..j])|
    decreases |q| - i
  {
    if i >= |q| - |Woken(t, q[..i])| then i else Visits(t, q, i + 1)
  }

  function Examine(p: Pcb): Pcb {
    var p1 := p.(sleepTime := p.sleepTime - 1);
    if p.sleepTime >= 0 then p1 else p1.(queue := RunQueue, state := Idle, cpuTime := 0)
  }

  function ExamineAll(t: ProcTable, q: seq<int>): ProcTable {
    seq(PROC_MAX, e requires 0 <= e < PROC_MAX =>
      if t[e].state == Sleeping && t[e].pid in q then Examine(t[e]) else t[e])
  }

  /** The kernel after the first v sleepers have been examined. */
  function After(k: Kernel, v: nat): Kernel
    requires v <= |k.sleep|
  {
    var q := k.sleep[..v];
    k.(sleep := k.sleep[v..] + Kept(k.procs, q), run := k.run + Woken(k.procs, q),
       procs := ExamineAll(k.procs, q))
  }

  // ----- Woken and Kept split a queue -----

  lemma {:induction false} Split(t: ProcTable, q: seq<int>)
    ensures |Kept(t, q)| + |Woken(t, q)| == |q|
    ensures forall p :: p in Woken(t, q) <==> p in q && Due(t, p)
    ensures forall p :: p in Kept(t, q) <==> p in q && !Due(t, p)
  {
    if q != [] {
      var r, x := q[..|q| - 1], q[|q| - 1];
      Split(t, r);
      assert q == r + [x];
    }
  }

  lemma SplitStep(t: ProcTable, q: seq<int>, i: nat)
    requires i < |q|
    ensures Woken(t, q[..i + 1]) == Woken(t, q[..i]) + if Due(t, q[i]) then [q[i]] else []
    ensures Kept(t, q[..i + 1]) == Kept(t, q[..i]) + if Due(t, q[i]) then [] else [q[i]]
  {
    var r := q[..i + 1];
    assert r[..|r| - 1] == q[..i];
  }

  // ----- The loop -----

  ghost predicate TickReady(k: Kernel) {
    && TableOk(k.procs, k.freeEntries, k.nextPid)
    && QueueOf(k.procs, k.run, Idle, NULL)
    && QueueOf(k.procs, k.sleep, Sleeping, NULL)
  }

  lemma RunAndSleepBound(k: Kernel)
    requires TickReady(k)
    ensures |k.run| + |k.sleep| <= PROC_MAX
  {
    NoDupConcat(k.run, k.sleep);
    QueueBound(k.procs, k.run + k.sleep);
  }

  /** Examining one more sleeper changes its entry only. */
  lemma ExamineOne(k: Kernel, i: nat)
    requires TickReady(k) && i < |k.sleep|
    ensures var e := PidToProc(k.procs, k.sleep[i]);
            && e != NULL && k.procs[e].state == Sleeping
            && ExamineAll(k.procs, k.sleep[..i])[e] == k.procs[e]
            && ExamineAll(k.procs, k.sleep[..i + 1]) == ExamineAll(k.procs, k.sleep[..i])[e := Examine(k.procs[e])]
            && PidToProc(ExamineAll(k.procs, k.sleep[..i]), k.sleep[i]) == e
  {
    var t := k.procs;
    var pid := k.sleep[i];
    assert pid in k.sleep;
    var e := PidToProc(t, pid);
    assert k.sleep[..i + 1] == k.sleep[..i] + [pid];
    assert pid !in k.sleep[..i];
    assert forall d | 0 <= d < PROC_MAX && t[d].state == Sleeping && t[d].pid == pid :: d == e;
    LookupSame(t, ExamineAll(t, k.sleep[..i]));
  }

  /** The queues before and after one more examination. */
  lemma QueuesOne(k: Kernel, i: nat)
    requires i < |k.sleep|
    ensures var pid := k.sleep[i]; var s := After(k, i); var r := After(k, i + 1);
            && s.sleep != [] && s.sleep[0] == pid
            && r.sleep == s.sleep[1..] + (if Due(k.procs, pid) then [] else [pid])
            && r.run == s.run + (if Due(k.procs, pid) then [pid] else [])
  {
    SplitStep(k.procs, k.sleep, i);
    assert After(k, i).sleep[1..] == k.sleep[i + 1..] + Kept(k.procs, k.sleep[..i]);
  }

  lemma VisitOne(k: Kernel, i: nat)
    requires TickReady(k) && i < |k.sleep|
    ensures TimerVisit(After(k, i)) == After(k, i + 1)
  {
    var s := After(k, i);
    var r := After(k, i + 1);
    var pid := k.sleep[i];
    var e := PidToProc(k.procs, pid);
    ExamineOne(k, i);
    QueuesOne(k, i);
    assert |s.run| < QUEUE_SIZE by {
      Split(k.procs, k.sleep[..i]);
      RunAndSleepBound(k);
    }
    VisitBody(s, r, e, pid);
  }

  /** One iteration, its effect on the queues and the table given separately. */
  lemma VisitBody(s: Kernel, r: Kernel, e: Entry, pid: int)
    requires s.sleep != [] && s.sleep[0] == pid && e != NULL && PidToProc(s.procs, pid) == e
    requires |s.run| < QUEUE_SIZE
    requires var due := s.procs[e].sleepTime < 0;
             && r.sleep == s.sleep[1..] + (if due then [] else [pid])
             && r.run == s.run + (if due then [pid] else [])
    requires r.procs == s.procs[e := Examine(s.procs[e])]
    requires r == s.(sleep := r.sleep, run := r.run, procs := r.procs)
    ensures TimerVisit(s) == r
  {
    var p := s.procs[e];
    if p.sleepTime < 0 {
      assert r.sleep == s.sleep[1..];
      var t := s.procs[e := p.(sleepTime := p.sleepTime - 1)];
      assert t[e := t[e].(queue := RunQueue, state := Idle, cpuTime := 0)] == r.procs;
    } else {
      assert r.run == s.run;
    }
  }

  lemma VisitsIs(t: ProcTable, q: seq<int>, i: nat)
    requires i <= |q|
    ensures i >= |q| - |Woken(t, q[..i])| ==> Visits(t, q, i) == i
    ensures i < |q| - |Woken(t, q[..i])| ==> i < |q| && Visits(t, q, i) == Visits(t, q, i + 1)
  {
  }

  lemma AfterSize(k: Kernel, i: nat)
    requires i <= |k.sleep|
    ensures |After(k, i).sleep| == |k.sleep| - |Woken(k.procs, k.sleep[..i])|
  {
    Split(k.procs, k.sleep[..i]);
  }

  lemma {:induction false} LoopFrom(k: Kernel, i: nat)
    requires TickReady(k) && i <= |k.sleep|
    ensures TimerLoop(After(k, i), i) == After(k, Visits(k.procs, k.sleep, i))
    decreases |k.sleep| - i
  {
    AfterSize(k, i);
    TimerLoopIs(After(k, i), i);
    VisitsIs(k.procs, k.sleep, i);
    hide After, Woken, Visits, TickReady, TimerLoop, TimerVisit;
    if i < |After(k, i).sleep| {
      VisitOne(k, i);
      LoopFrom(k, i + 1);
    }
  }

  lemma AfterNone(k: Kernel)
    ensures After(k, 0) == k
  {
    assert k.sleep[..0] == [];
    assert ExamineAll(k.procs, []) == k.procs;
    assert k.sleep[0..] + [] == k.sleep;
  }

  /** At least half the sleepers are examined, and all but at most as many as wake. */
  lemma VisitsHalf(t: ProcTable, q: seq<int>)
    ensures (|q| + 1) / 2 <= Visits(t, q, 0)
    ensures |q| - Visits(t, q, 0) <= |Woken(t, q[..Visits(t, q, 0)])|
  {
    Split(t, q[..Visits(t, q, 0)]);
  }

  function Examined(k: Kernel): nat {
    Visits(k.procs, k.sleep, 0)
  }

  /**
   The exact effect of the loop: the first v sleepers are examined once each, those due
   join the run queue in order, the rest are requeued in order behind the unexamined ones.
   */
  lemma LoopEffect(k: Kernel)
    requires TickReady(k)
    ensures Examined(k) <= |k.sleep|
    ensures TimerLoop(k, 0) == After(k, Examined(k))
    ensures (|k.sleep| + 1) / 2 <= Examined(k)
    ensures |k.sleep| - Examined(k) <= |Woken(k.procs, k.sleep[..Examined(k)])|
  {
    AfterNone(k);
    LoopFrom(k, 0);
    VisitsHalf(k.procs, k.sleep);
  }

  /** Nobody wakes among sleepers none of whom is due, and conversely. */
  lemma WokenNone(t: ProcTable, q: seq<int>)
    ensures Woken(t, q) == [] <==> forall i | 0 <= i < |q| :: !Due(t, q[i])
  {
    Split(t, q);
    assert forall i | 0 <= i < |q| :: q[i] in q;
    assert forall i | 0 <= i < |q| && Due(t, q[i]) :: q[i] in Woken(t, q);
    assert Woken(t, q) != [] ==> Woken(t, q)[0] in Woken(t, q);
  }

  /** A tick examines everybody exactly when nobody before the last sleeper is due. */
  lemma AllExaminedExact(t: ProcTable, q: seq<int>)
    ensures Visits(t, q, 0) == |q| <==> forall i | 0 <= i < |q| - 1 :: !Due(t, q[i])
  {
    hide Woken, Due;
    var v := Visits(t, q, 0);
    WokenNone(t, q[..v]);
    if v == |q| && q != [] {
      WokenNone(t, q[..|q| - 1]);
    }
  }

  /** With two sleepers of whom only the first is due, the second is passed over. */
  lemma SecondPassedOver(t: ProcTable, q: seq<int>)
    requires |q| == 2 && Due(t, q[0]) && !Due(t, q[1])
    ensures Visits(t, q, 0) == 1
  {
    AllExaminedExact(t, q);
    VisitsHalf(t, q);
  }

  /** A tick leaves the sleep queue as it is exactly when nobody is due. */
  lemma QuietExact(k: Kernel)
    requires TickReady(k)
    ensures TimerLoop(k, 0).sleep == k.sleep <==> forall i | 0 <= i < |k.sleep| :: !Due(k.procs, k.sleep[i])
    ensures TimerLoop(k, 0).run == k.run <==> forall i | 0 <= i < |k.sleep| :: !Due(k.procs, k.sleep[i])
  {
    LoopEffect(k);
    QuietQueues(k.procs, k.sleep, Examined(k));
    hide Woken, Kept, Visits, TimerLoop;
    var w := Woken(k.procs, k.sleep[..Examined(k)]);
    assert w == [] ==> k.run + w == k.run;
    assert w != [] ==> |k.run + w| > |k.run|;
  }

  lemma QuietQueues(t: ProcTable, q: seq<int>, v: nat)
    requires v == Visits(t, q, 0)
    ensures Woken(t, q[..v]) == [] <==> forall i | 0 <= i < |q| :: !Due(t, q[i])
    ensures q[v..] + Kept(t, q[..v]) == q <==> forall i | 0 <= i < |q| :: !Due(t, q[i])
  {
    WokenNone(t, q[..v]);
    Split(t, q[..v]);
    if Woken(t, q[..v]) == [] {
      assert q[..v] == q;
      WokenNone(t, q);
      KeptAll(t, q);
    }
  }

  lemma {:induction false} KeptAll(t: ProcTable, q: seq<int>)
    requires forall p | p in q :: !Due(t, p)
    ensures Kept(t, q) == q
  {
    if q != [] {
      KeptAll(t, q[..|q| - 1]);
    }
  }

  /** A sleeper that is no longer in the table leaves the sleep queue when it is examined. */
  lemma DeadSleeperDropped(k: Kernel)
    requires k.sleep != [] && PidToProc(k.procs, k.sleep[0]) == NULL
    ensures TimerVisit(k) == k.(sleep := k.sleep[1..])
  {
  }
}
