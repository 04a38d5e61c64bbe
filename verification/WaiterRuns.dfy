/** The way of a waiter: from its place in a wait queue to the mutex, and on to the processor. */
module WaiterRuns {
  import opened Seqs
  import opened KernelModel
  import opened Invariant
  import opened Preservation
  import opened Reachability
  import opened BoundedWaiting
  import opened SleepingRuns
  import opened MutexRuns
  import opened SyscallResults

  /** Who asks for mutex m, and who gets it, over a run. */
  function Requests(k: Kernel, es: seq<Event>, m: int): seq<int>
    decreases |es|
  {
    if es == [] then [] else Asks(k, es[0], m) + Requests(Step(k, es[0]), es[1..], m)
  }

  function Grants(k: Kernel, es: seq<Event>, m: int): seq<int>
    requires 0 <= m < MUTEX_MAX
    decreases |es|
  {
    if es == [] then [] else Gets(k, es[0], m) + Grants(Step(k, es[0]), es[1..], m)
  }

  lemma FirstEvent(k: Kernel, es: seq<Event>, m: int)
    requires es != [] && 0 <= m < MUTEX_MAX
    ensures Requests(k, es, m) == Asks(k, es[0], m) + Requests(Step(k, es[0]), es[1..], m)
    ensures Grants(k, es, m) == Gets(k, es[0], m) + Grants(Step(k, es[0]), es[1..], m)
    ensures Run(k, es) == Run(Step(k, es[0]), es[1..])
  {
  }

  lemma Assoc(a: seq<int>, b: seq<int>, c: seq<int>)
    ensures (a + b) + c == a + (b + c)
  {
  }

  /** The two, as a log has them. */
  lemma {:induction false} LogIs(l: Log, k: Kernel, es: seq<Event>, m: int)
    requires 0 <= m < MUTEX_MAX
    ensures LogRun(l, k, es, m).requests == l.requests + Requests(k, es, m)
    ensures LogRun(l, k, es, m).grants == l.grants + Grants(k, es, m)
    decreases |es|
  {
    if es == [] {
      assert LogRun(l, k, es, m) == l;
    } else {
      var k', rest := Step(k, es[0]), es[1..];
      var l' := LogStep(l, k, es[0], m);
      assert LogRun(l, k, es, m) == LogRun(l', k', rest, m);
      FirstEvent(k, es, m);
      LogIs(l', k', rest, m);
      hide Step, Asks, Gets, Releases, LogRun, Requests, Grants;
      Assoc(l.requests, Asks(k, es[0], m), Requests(k', rest, m));
      Assoc(l.grants, Gets(k, es[0], m), Grants(k', rest, m));
    }
  }

  /** From any state on, those already waiting and those who ask later are granted in that order. */
  lemma {:induction false} GrantsAhead(k: Kernel, es: seq<Event>, m: int)
    requires Inv(k) && Legal(k, es) && 0 <= m < MUTEX_MAX
    ensures Grants(k, es, m) + Run(k, es).mutexes[m].waiters == k.mutexes[m].waiters + Requests(k, es, m)
    decreases |es|
  {
    if es != [] {
      var k', rest := Step(k, es[0]), es[1..];
      FirstEvent(k, es, m);
      hide Inv, Step, Enabled, Gets, Asks, Requests, Grants, Run;
      StepKeeps(k, es[0]);
      Granted(k, es[0], m);
      GrantsAhead(k', rest, m);
      Chain(Gets(k, es[0], m), k'.mutexes[m].waiters, k.mutexes[m].waiters, Asks(k, es[0], m),
            Grants(k', rest, m), Run(k', rest).mutexes[m].waiters, Requests(k', rest, m));
    }
  }

  /** Two steps of w + asked == granted + w'. */
  lemma Chain(g: seq<int>, w: seq<int>, w0: seq<int>, a: seq<int>, g': seq<int>, w': seq<int>, a': seq<int>)
    requires g + w == w0 + a && g' + w' == w + a'
    ensures (g + g') + w' == w0 + (a + a')
  {
    Assoc(g, g', w');
    Assoc(g, w, a');
    Assoc(w0, a, a');
  }

  /**
   The process at position j of a wait queue is the (j + 1)-th to be granted the mutex from
   then on; as long as it is not, it waits behind those that are still before it.
   */
  lemma GrantedInTurn(k: Kernel, es: seq<Event>, m: int, j: nat)
    requires Inv(k) && Legal(k, es) && 0 <= m < MUTEX_MAX && j < |k.mutexes[m].waiters|
    ensures var g, w := Grants(k, es, m), Run(k, es).mutexes[m].waiters; var p := k.mutexes[m].waiters[j];
            if j < |g| then g[j] == p else j - |g| < |w| && w[j - |g|] == p
  {
    hide Inv, Legal, Run, Grants, Requests;
    GrantsAhead(k, es, m);
    At(Grants(k, es, m), Run(k, es).mutexes[m].waiters, k.mutexes[m].waiters, Requests(k, es, m), j);
  }

  /** The first waiter, when the mutex is granted, is ready. */
  lemma HeirReady(k: Kernel, e: Event, m: int)
    requires Inv(k) && Enabled(k, e) && 0 <= m < MUTEX_MAX
    requires k.mutexes[m].waiters != [] && Gets(k, e, m) != []
    ensures k.mutexes[m].waiters[0] in Step(k, e).run && Tick(e) == 0
  {
    hide Core, Gets;
    UnlockGives(k, e, m);
    var k1 := SetEax(k, EntryEax(e));
    SetEaxKeeps(k, EntryEax(e));
    UnlockHandsOver(k1, m);
    HandlerKeeps(k1, e);
    hide SchedulerRun;
    GoesOn(IrqHandler(k1, e));
  }

  /** A mutex with waiters is granted only by an unlock of its owner. */
  lemma UnlockGives(k: Kernel, e: Event, m: int)
    requires Inv(k) && Enabled(k, e) && 0 <= m < MUTEX_MAX
    requires k.mutexes[m].waiters != [] && Gets(k, e, m) != []
    ensures e == Syscall(MutexUnlock(m)) && k.mutexes[m].locks > 1 && k.mutexes[m].owner == k.active
  {
    assert LockOk(k.mutexes[m]);
    hide Inv, Enabled, Step;
    MutexStep(k, e, m);
  }

  lemma OneGets(k: Kernel, e: Event, m: int)
    requires 0 <= m < MUTEX_MAX
    ensures |Gets(k, e, m)| <= 1
  {
  }

  /** Where a waiter is after one kernel entry: granted the mutex and ready, or still waiting. */
  lemma WaiterStep(k: Kernel, e: Event, m: int, j: nat)
    requires Inv(k) && Enabled(k, e) && 0 <= m < MUTEX_MAX && j < |k.mutexes[m].waiters|
    ensures var k' := Step(k, e); var p, w' := k.mutexes[m].waiters[j], k'.mutexes[m].waiters; var g := Gets(k, e, m);
            && |g| <= 1
            && (j < |g| ==> p in k'.run && Tick(e) == 0)
            && (j >= |g| ==> j - |g| < |w'| && w'[j - |g|] == p)
  {
    hide Inv, Enabled, Step, Gets, Asks;
    Granted(k, e, m);
    OneGets(k, e, m);
    if Gets(k, e, m) != [] {
      HeirReady(k, e, m);
    }
    At(Gets(k, e, m), Step(k, e).mutexes[m].waiters, k.mutexes[m].waiters, Asks(k, e, m), j);
  }

  lemma At(g: seq<int>, w: seq<int>, w0: seq<int>, a: seq<int>, j: nat)
    requires g + w == w0 + a && j < |w0|
    ensures if j < |g| then g[j] == w0[j] else j - |g| < |w| && w[j - |g|] == w0[j]
  {
    assert (g + w)[j] == (w0 + a)[j];
  }

  /**
   A waiter runs within 200 ticks of the grant that is its turn: if the first n events make
   more than j grants, the process at position j runs within 200 ticks after them.
   */
  lemma {:induction false} WaiterRuns(k: Kernel, es: seq<Event>, m: int, j: nat, n: nat)
    requires Inv(k) && Legal(k, es) && 0 <= m < MUTEX_MAX && j < |k.mutexes[m].waiters|
    requires n <= |es| && j < |Grants(k, es[..n], m)| && QUEUE_WAIT <= Ticks(es[n..])
    ensures RunsWithinTicks(k, es, k.mutexes[m].waiters[j], Ticks(es[..n]) + QUEUE_WAIT)
    decreases |es|
  {
    hide Inv, Enabled, Step, Gets, RunsWithinTicks;
    var e, k', rest := es[0], Step(k, es[0]), es[1..];
    var p, g := k.mutexes[m].waiters[j], Gets(k, e, m);
    assert es[..n][0] == e && es[..n][1..] == rest[..n - 1] && es[n..] == rest[n - 1..];
    StepKeeps(k, e);
    WaiterStep(k, e, m, j);
    if j < |g| {
      TicksLeft(rest, n - 1);
      ReadyRunsWithin(k', rest, p);
      LaterByOne(k, es, p, QUEUE_WAIT, Ticks(es[..n]) + QUEUE_WAIT);
    } else {
      WaiterRuns(k', rest, m, j - |g|, n - 1);
      LaterByOne(k, es, p, Ticks(rest[..n - 1]) + QUEUE_WAIT, Ticks(es[..n]) + QUEUE_WAIT);
    }
  }

  lemma {:induction false} TicksLeft(es: seq<Event>, n: nat)
    requires n <= |es|
    ensures Ticks(es[n..]) <= Ticks(es)
    decreases n
  {
    if n == 0 {
      assert es[0..] == es;
    } else {
      TicksLeft(es[1..], n - 1);
      assert es[1..][n - 1..] == es[n..];
    }
  }
}
