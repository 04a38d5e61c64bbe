/** The timer callback table (timer.c): lifetimes, firing counts and the pool of timer ids. */
module CallbackTimers {
  import opened Seqs
  import opened Queues

  const TIMERS_MAX := 32

  /** A table entry; a callback of 0 is the NULL pointer. */
  datatype Timer = Timer(callback: int, interval: int, repeat: int)

  const NO_TIMER := Timer(0, 0, 0)

  type Table = t: seq<Timer> | |t| == TIMERS_MAX witness seq(TIMERS_MAX, i => NO_TIMER)

  /** `faulted` says that the processor has divided by an interval of 0. */
  datatype Timers = Timers(ticks: int, table: Table, free: seq<int>, faulted: bool)

  function Init(): Timers {
    Timers(0, seq(TIMERS_MAX, i => NO_TIMER), seq(TIMERS_MAX, i => i), false)
  }

  function Register(s: Timers, callback: int, interval: int, repeat: int): (Timers, int) {
    if callback == 0 || s.free == [] then (s, -1)
    else
      var id := s.free[0];
      if 0 <= id < TIMERS_MAX then
        (s.(free := s.free[1..], table := s.table[id := Timer(callback, interval, repeat)]), id)
      else (s.(free := s.free[1..], faulted := true), id)
  }

  function Unregister(s: Timers, id: int): (Timers, int) {
    if id < 0 || id >= TIMERS_MAX then (s, -1)
    else
      var s1 := s.(table := s.table[id := NO_TIMER]);
      if |s.free| >= QUEUE_SIZE then (s1, -1) else (s1.(free := s.free + [id]), 0)
  }

  /** The handler's visit of entry i; `fired` lists the entries whose callback has been called. */
  function Visit(s: Timers, i: nat, fired: seq<int>): (Timers, seq<int>)
    requires i < TIMERS_MAX
  {
    var t := s.table[i];
    if t.callback == 0 then (s, fired)
    else
      var s1 := if t.interval == 0 then s.(faulted := true) else s;
      var fired1 := if t.interval != 0 && s.ticks % t.interval == 0 then fired + [i] else fired;
      if t.repeat > 0 then (s1.(table := s.table[i := t.(repeat := t.repeat - 1)]), fired1)
      else if t.repeat == 0 then (Unregister(s1, i).0, fired1)
      else (s1, fired1)
  }

  function VisitFrom(s: Timers, i: nat, fired: seq<int>): (Timers, seq<int>)
    requires i <= TIMERS_MAX
    decreases TIMERS_MAX - i
  {
    if i == TIMERS_MAX then (s, fired)
    else
      var (s1, fired1) := Visit(s, i, fired);
      VisitFrom(s1, i + 1, fired1)
  }

  /** timer_irq_handler: the new state and the callbacks called, by id. */
  function Handle(s: Timers): (Timers, seq<int>) {
    VisitFrom(s.(ticks := s.ticks + 1), 0, [])
  }

  // ----- The table in place -----

  class TimerTable {
    var ticks: int
    const timers: array<Timer>
    const allocator: Queue
    var faulted: bool
    ghost var st: Timers

    ghost predicate Valid()
      reads this, timers, allocator, allocator.items
    {
      && timers.Length == TIMERS_MAX && timers[..] == st.table
      && allocator.Valid() && allocator.contents == st.free
      && ticks == st.ticks && faulted == st.faulted
    }

    /** timer_init on fresh memory. */
    constructor ()
      ensures Valid() && st == Init() && fresh(timers) && fresh(allocator) && fresh(allocator.items)
    {
      ticks, faulted := 0, false;
      timers := new Timer[TIMERS_MAX](i => NO_TIMER);
      allocator := new Queue();
      st := Init().(free := []);
      new;
      var i := 0;
      while i < TIMERS_MAX
        invariant 0 <= i <= TIMERS_MAX
        invariant Valid() && fresh(timers) && fresh(allocator) && fresh(allocator.items)
        invariant |st.free| == i && (forall j | 0 <= j < i :: st.free[j] == j)
        invariant st == Init().(free := st.free)
      {
        var rc := allocator.In(i);
        st := st.(free := st.free + [i]);
        i := i + 1;
      }
      assert st.free == Init().free;
    }

    method RegisterCallback(callback: int, interval: int, repeat: int) returns (id: int)
      requires Valid()
      modifies this, timers, allocator, allocator.items
      ensures Valid() && (st, id) == Register(old(st), callback, interval, repeat)
    {
      if callback == 0 {
        return -1;
      }
      var rc;
      rc, id := allocator.Out();
      if rc != 0 {
        return -1;
      }
      st := st.(free := st.free[1..]);
      if 0 <= id < TIMERS_MAX {
        timers[id] := Timer(callback, interval, repeat);
        st := st.(table := st.table[id := Timer(callback, interval, repeat)]);
      } else {
        faulted := true;
        st := st.(faulted := true);
      }
    }

    method UnregisterCallback(id: int) returns (rc: int)
      requires Valid()
      modifies this, timers, allocator, allocator.items
      ensures Valid() && (st, rc) == Unregister(old(st), id)
    {
      if id < 0 || id >= TIMERS_MAX {
        return -1;
      }
      allocator.SizeCounts();
      timers[id] := NO_TIMER;
      st := st.(table := st.table[id := NO_TIMER]);
      rc := allocator.In(id);
      if rc == 0 {
        st := st.(free := st.free + [id]);
      }
    }

    /** The body of the handler's loop; the callbacks themselves register and unregister nothing. */
    method VisitEntry(i: nat, fired: seq<int>) returns (fired': seq<int>)
      requires Valid() && i < TIMERS_MAX
      modifies this, timers, allocator, allocator.items
      ensures Valid() && (st, fired') == Visit(old(st), i, fired)
    {
      hide Queue.Valid;
      fired' := fired;
      var t := timers[i];
      if t.callback != 0 {
        if t.interval == 0 {
          faulted := true;
          st := st.(faulted := true);
        } else if ticks % t.interval == 0 {
          fired' := fired + [i];
        }
        if t.repeat > 0 {
          timers[i] := t.(repeat := t.repeat - 1);
          st := st.(table := st.table[i := t.(repeat := t.repeat - 1)]);
        } else if t.repeat == 0 {
          var rc := UnregisterCallback(i);
        }
      }
    }

    /** timer_irq_handler. */
    method IrqHandler() returns (fired: seq<int>)
      requires Valid()
      modifies this, timers, allocator, allocator.items
      ensures Valid() && (st, fired) == Handle(old(st))
    {
      hide Queue.Valid, Visit;
      ticks := ticks + 1;
      st := st.(ticks := st.ticks + 1);
      fired := [];
      var i := 0;
      while i < TIMERS_MAX
        invariant 0 <= i <= TIMERS_MAX
        invariant Valid()
        invariant VisitFrom(st, i, fired) == Handle(old(st))
      {
        fired := VisitEntry(i, fired);
        i := i + 1;
      }
    }
  }

  // ----- The pool of timer ids -----

  /** Free ids and registered ids partition the table. */
  ghost predicate PoolExact(s: Timers) {
    && NoDup(s.free)
    && (forall id | id in s.free :: 0 <= id < TIMERS_MAX)
    && (forall id | 0 <= id < TIMERS_MAX :: id in s.free <==> s.table[id].callback == 0)
  }

  lemma PoolBound(s: Timers)
    requires PoolExact(s)
    ensures |s.free| <= TIMERS_MAX
  {
    forall i | 0 <= i < |s.free| ensures 0 <= s.free[i] < TIMERS_MAX {
      assert s.free[i] in s.free;
    }
    Pigeonhole(s.free, 0, TIMERS_MAX);
  }

  /** With a registered timer the pool has room for its id. */
  lemma PoolRoom(s: Timers, id: int)
    requires PoolExact(s) && 0 <= id < TIMERS_MAX && s.table[id].callback != 0
    ensures |s.free| < TIMERS_MAX
  {
    var all := s.free + [id];
    assert NoDup(all);
    forall i | 0 <= i < |all| ensures 0 <= all[i] < TIMERS_MAX {
      assert i < |s.free| ==> s.free[i] in s.free;
    }
    Pigeonhole(all, 0, TIMERS_MAX);
  }

  lemma RegisterKeepsPool(s: Timers, callback: int, interval: int, repeat: int)
    requires PoolExact(s)
    ensures s.free != [] ==> 0 <= s.free[0] < TIMERS_MAX
    ensures PoolExact(Register(s, callback, interval, repeat).0)
    ensures Register(s, callback, interval, repeat).0.faulted == s.faulted
  {
    if s.free != [] {
      var id := s.free[0];
      assert id in s.free;
      assert s.free == [id] + s.free[1..];
      assert forall x :: x in s.free[1..] <==> x in s.free && x != id;
    }
  }

  /**
   timer_callback_unregister keeps the pool exact precisely when the id is registered,
   when it is no id at all, or when no timer is registered.
   */
  lemma UnregisterExact(s: Timers, id: int)
    requires PoolExact(s)
    ensures PoolExact(Unregister(s, id).0)
       <==> (0 <= id < TIMERS_MAX ==> s.table[id].callback != 0 || |s.free| == TIMERS_MAX)
  {
    PoolBound(s);
    if 0 <= id < TIMERS_MAX {
      var s' := Unregister(s, id).0;
      if s.table[id].callback != 0 {
        PoolRoom(s, id);
        assert s'.free == s.free + [id];
      } else if |s.free| == TIMERS_MAX {
        assert s'.free == s.free;
      } else {
        var i := IndexOf(s.free, id);
        assert s'.free == s.free + [id];
        assert s'.free[i] == s'.free[|s.free|];
      }
    }
  }

  lemma VisitKeepsPool(s: Timers, i: nat, fired: seq<int>)
    requires i < TIMERS_MAX && PoolExact(s)
    ensures PoolExact(Visit(s, i, fired).0)
  {
    var t := s.table[i];
    if t.callback != 0 && t.repeat == 0 {
      var s1 := if t.interval == 0 then s.(faulted := true) else s;
      UnregisterExact(s1, i);
    }
  }

  lemma {:induction false} VisitFromKeepsPool(s: Timers, i: nat, fired: seq<int>)
    requires i <= TIMERS_MAX && PoolExact(s)
    ensures PoolExact(VisitFrom(s, i, fired).0)
    decreases TIMERS_MAX - i
  {
    if i < TIMERS_MAX {
      var (s1, fired1) := Visit(s, i, fired);
      VisitKeepsPool(s, i, fired);
      VisitFromKeepsPool(s1, i + 1, fired1);
    }
  }

  // ----- One timer over one tick -----

  function Calls(fired: seq<int>, id: int): nat {
    multiset(fired)[id]
  }

  predicate Fires(t: Timer, ticks: int) {
    t.callback != 0 && t.interval != 0 && ticks % t.interval == 0
  }

  /** What a tick makes of a table entry. */
  function Aged(t: Timer): Timer {
    if t.callback == 0 || t.repeat < 0 then t
    else if t.repeat == 0 then NO_TIMER
    else t.(repeat := t.repeat - 1)
  }

  lemma {:induction false} VisitFromOne(s: Timers, i: nat, fired: seq<int>, id: nat)
    requires i <= TIMERS_MAX && id < TIMERS_MAX
    ensures var (s', fired') := VisitFrom(s, i, fired);
            && s'.ticks == s.ticks
            && s'.table[id] == (if id >= i then Aged(s.table[id]) else s.table[id])
            && Calls(fired', id) == Calls(fired, id) + (if id >= i && Fires(s.table[id], s.ticks) then 1 else 0)
    decreases TIMERS_MAX - i
  {
    if i < TIMERS_MAX {
      var (s1, fired1) := Visit(s, i, fired);
      VisitFromOne(s1, i + 1, fired1, id);
    }
  }

  predicate Divides(t: Timer) {
    t.callback == 0 || t.interval != 0
  }

  lemma {:induction false} VisitFromFaults(s: Timers, i: nat, fired: seq<int>)
    requires i <= TIMERS_MAX
    ensures VisitFrom(s, i, fired).0.faulted
       <==> s.faulted || exists j | i <= j < TIMERS_MAX :: !Divides(s.table[j])
    decreases TIMERS_MAX - i
  {
    if i < TIMERS_MAX {
      var (s1, fired1) := Visit(s, i, fired);
      VisitFromFaults(s1, i + 1, fired1);
      assert forall j | i < j < TIMERS_MAX :: s1.table[j] == s.table[j];
      assert s1.faulted <==> s.faulted || !Divides(s.table[i]);
    }
  }

  /** A tick divides by zero exactly when some registered timer has an interval of 0. */
  lemma HandlerFaults(s: Timers)
    requires !s.faulted
    ensures Handle(s).0.faulted <==> exists j | 0 <= j < TIMERS_MAX :: !Divides(s.table[j])
  {
    VisitFromFaults(s.(ticks := s.ticks + 1), 0, []);
  }

  // ----- The order of the calls -----

  /** The entries from i on whose callback is due, in the order of the table. */
  function Firing(t: Table, ticks: int, i: nat): seq<int>
    requires i <= TIMERS_MAX
    decreases TIMERS_MAX - i
  {
    if i == TIMERS_MAX then [] else (if Fires(t[i], ticks) then [i] else []) + Firing(t, ticks, i + 1)
  }

  /** The entries from i on that are called for the last time, in the order of the table. */
  function Expiring(t: Table, i: nat): seq<int>
    requires i <= TIMERS_MAX
    decreases TIMERS_MAX - i
  {
    if i == TIMERS_MAX then []
    else (if t[i].callback != 0 && t[i].repeat == 0 then [i] else []) + Expiring(t, i + 1)
  }

  lemma {:induction false} SameLater(t: Table, u: Table, ticks: int, i: nat)
    requires i <= TIMERS_MAX && forall j | i <= j < TIMERS_MAX :: t[j] == u[j]
    ensures Firing(t, ticks, i) == Firing(u, ticks, i) && Expiring(t, i) == Expiring(u, i)
    decreases TIMERS_MAX - i
  {
    if i < TIMERS_MAX {
      SameLater(t, u, ticks, i + 1);
    }
  }

  lemma {:induction false} VisitFromFires(s: Timers, i: nat, fired: seq<int>)
    requires i <= TIMERS_MAX
    ensures VisitFrom(s, i, fired).1 == fired + Firing(s.table, s.ticks, i)
    decreases TIMERS_MAX - i
  {
    if i < TIMERS_MAX {
      var (s1, fired1) := Visit(s, i, fired);
      SameLater(s1.table, s.table, s.ticks, i + 1);
      VisitFromFires(s1, i + 1, fired1);
    }
  }

  lemma ExpiringFirst(t: Table, i: nat)
    requires i < TIMERS_MAX
    ensures Expiring(t, i) == (if t[i].callback != 0 && t[i].repeat == 0 then [i] else []) + Expiring(t, i + 1)
  {
  }

  lemma FiringFirst(t: Table, ticks: int, i: nat)
    requires i < TIMERS_MAX
    ensures Firing(t, ticks, i) == (if Fires(t[i], ticks) then [i] else []) + Firing(t, ticks, i + 1)
  {
  }

  lemma VisitFrees(s: Timers, i: nat, fired: seq<int>)
    requires i < TIMERS_MAX && PoolExact(s)
    ensures var t := s.table[i];
            && Visit(s, i, fired).0.free == s.free + (if t.callback != 0 && t.repeat == 0 then [i] else [])
            && forall j | 0 <= j < TIMERS_MAX && j != i :: Visit(s, i, fired).0.table[j] == s.table[j]
  {
    if s.table[i].callback != 0 {
      PoolRoom(s, i);
    }
  }

  lemma {:induction false} VisitFromFrees(s: Timers, i: nat, fired: seq<int>)
    requires i <= TIMERS_MAX && PoolExact(s)
    ensures VisitFrom(s, i, fired).0.free == s.free + Expiring(s.table, i)
    decreases TIMERS_MAX - i
  {
    hide Visit, PoolExact;
    if i < TIMERS_MAX {
      var (s1, fired1) := Visit(s, i, fired);
      VisitFromFirst(s, i, fired);
      ExpiringFirst(s.table, i);
      hide VisitFrom, Expiring;
      VisitFrees(s, i, fired);
      VisitKeepsPool(s, i, fired);
      SameLater(s1.table, s.table, s.ticks, i + 1);
      VisitFromFrees(s1, i + 1, fired1);
      assert (s.free + [i]) + Expiring(s.table, i + 1) == s.free + ([i] + Expiring(s.table, i + 1));
    }
  }

  lemma VisitFromFirst(s: Timers, i: nat, fired: seq<int>)
    requires i < TIMERS_MAX
    ensures VisitFrom(s, i, fired) == VisitFrom(Visit(s, i, fired).0, i + 1, Visit(s, i, fired).1)
  {
  }

  predicate Increasing(q: seq<int>) {
    forall a, b | 0 <= a < b < |q| :: q[a] < q[b]
  }

  lemma Smallest(x: int, q: seq<int>)
    requires Increasing(q) && forall y | y in q :: x < y
    ensures Increasing([x] + q)
  {
    var r := [x] + q;
    forall a, b | 0 <= a < b < |r| ensures r[a] < r[b] {
      assert r[b] == q[b - 1] && q[b - 1] in q;
      if a > 0 {
        assert r[a] == q[a - 1];
      }
    }
  }

  lemma {:induction false} FiringIs(t: Table, ticks: int, i: nat)
    requires i <= TIMERS_MAX
    ensures Increasing(Firing(t, ticks, i))
    ensures forall id :: id in Firing(t, ticks, i) <==> i <= id < TIMERS_MAX && Fires(t[id], ticks)
    decreases TIMERS_MAX - i
  {
    if i == TIMERS_MAX {
      hide Fires;
      assert Firing(t, ticks, i) == [];
    } else {
      FiringFirst(t, ticks, i);
      hide Firing, Fires, Increasing;
      FiringIs(t, ticks, i + 1);
      if Fires(t[i], ticks) {
        Smallest(i, Firing(t, ticks, i + 1));
      } else {
        assert [] + Firing(t, ticks, i + 1) == Firing(t, ticks, i + 1);
      }
    }
  }

  /** A tick calls exactly the callbacks that are due, each once, in the order of their ids. */
  lemma CallsInOrder(s: Timers)
    ensures var fired := Handle(s).1;
            && Increasing(fired)
            && (forall id :: id in fired <==> 0 <= id < 32 && Fires(s.table[id], s.ticks + 1))
  {
    hide VisitFrom, Firing;
    VisitFromFires(s.(ticks := s.ticks + 1), 0, []);
    FiringIs(s.table, s.ticks + 1, 0);
  }

  /** The whole table after a tick; the ids of the timers that end are queued in the order of the table. */
  lemma HandleExact(s: Timers)
    requires PoolExact(s)
    ensures var s' := Handle(s).0;
            && s'.ticks == s.ticks + 1 && s'.free == s.free + Expiring(s.table, 0)
            && (forall id | 0 <= id < TIMERS_MAX :: s'.table[id] == Aged(s.table[id]))
            && (s'.faulted <==> s.faulted || exists j | 0 <= j < TIMERS_MAX :: !Divides(s.table[j]))
  {
    hide VisitFrom, Expiring;
    var s1 := s.(ticks := s.ticks + 1);
    VisitFromFrees(s1, 0, []);
    VisitFromFaults(s1, 0, []);
    VisitFromOne(s1, 0, [], 0);
    forall id | 0 <= id < TIMERS_MAX ensures Handle(s).0.table[id] == Aged(s.table[id]) {
      VisitFromOne(s1, 0, [], id);
    }
  }

  // ----- Registration -----

  /** timer_callback_register: -1 and no effect without a callback or a free id, else the first free id. */
  lemma RegisterExact(s: Timers, callback: int, interval: int, repeat: int)
    requires PoolExact(s)
    ensures callback == 0 || s.free == [] ==> Register(s, callback, interval, repeat) == (s, -1)
    ensures callback != 0 && s.free != [] ==>
              && 0 <= s.free[0] < TIMERS_MAX
              && Register(s, callback, interval, repeat) ==
                   (Timers(s.ticks, s.table[s.free[0] := Timer(callback, interval, repeat)], s.free[1..], s.faulted),
                    s.free[0])
  {
    RegisterKeepsPool(s, callback, interval, repeat);
  }

  /** timer_callback_unregister: the entry is cleared and the id queued, except in a full pool. */
  lemma UnregisterResult(s: Timers, id: int)
    requires PoolExact(s)
    ensures !(0 <= id < 32) ==> Unregister(s, id) == (s, -1)
    ensures 0 <= id < 32 ==>
              Unregister(s, id) ==
                if |s.free| == 32 then (s.(table := s.table[id := NO_TIMER]), -1)
                else (s.(table := s.table[id := NO_TIMER], free := s.free + [id]), 0)
  {
    PoolBound(s);
  }

  // ----- Runs -----

  datatype TimerEvent = Tick | Add(callback: int, interval: int, repeat: int) | Remove(id: int)

  function StepTimers(s: Timers, e: TimerEvent): (Timers, seq<int>) {
    match e
    case Tick => Handle(s)
    case Add(c, m, r) => (Register(s, c, m, r).0, [])
    case Remove(id) => (Unregister(s, id).0, [])
  }

  function RunTimers(s: Timers, es: seq<TimerEvent>): Timers
    decreases |es|
  {
    if es == [] then s else RunTimers(StepTimers(s, es[0]).0, es[1..])
  }

  function TotalCalls(s: Timers, es: seq<TimerEvent>, id: int): nat
    decreases |es|
  {
    if es == [] then 0
    else
      var (s', fired) := StepTimers(s, es[0]);
      Calls(fired, id) + TotalCalls(s', es[1..], id)
  }

  function TickCount(es: seq<TimerEvent>): nat {
    if es == [] then 0 else (if es[0].Tick? then 1 else 0) + TickCount(es[1..])
  }

  /** Only registered ids are unregistered by hand. */
  predicate Proper(s: Timers, es: seq<TimerEvent>)
    decreases |es|
  {
    es == [] ||
    ((es[0].Remove? && 0 <= es[0].id < TIMERS_MAX ==> s.table[es[0].id].callback != 0) &&
     Proper(StepTimers(s, es[0]).0, es[1..]))
  }

  lemma StepKeepsPool(s: Timers, e: TimerEvent)
    requires PoolExact(s)
    requires e.Remove? && 0 <= e.id < TIMERS_MAX ==> s.table[e.id].callback != 0
    ensures PoolExact(StepTimers(s, e).0)
  {
    match e
    case Tick => VisitFromKeepsPool(s.(ticks := s.ticks + 1), 0, []);
    case Add(c, m, r) => RegisterKeepsPool(s, c, m, r);
    case Remove(id) => UnregisterExact(s, id);
  }

  lemma {:induction false} RunKeepsPool(s: Timers, es: seq<TimerEvent>)
    requires PoolExact(s) && Proper(s, es)
    ensures PoolExact(RunTimers(s, es))
    decreases |es|
  {
    if es != [] {
      StepKeepsPool(s, es[0]);
      RunKeepsPool(StepTimers(s, es[0]).0, es[1..]);
    }
  }

  lemma HandleTicks(s: Timers)
    ensures Handle(s).0.ticks == s.ticks + 1
  {
    hide VisitFrom;
    VisitFromOne(s.(ticks := s.ticks + 1), 0, [], 0);
  }

  lemma {:induction false} TicksAdvance(s: Timers, es: seq<TimerEvent>)
    ensures RunTimers(s, es).ticks == s.ticks + TickCount(es)
    decreases |es|
  {
    if es != [] {
      hide Handle;
      HandleTicks(s);
      TicksAdvance(StepTimers(s, es[0]).0, es[1..]);
    }
  }

  /** The system time is the number of timer interrupts since timer_init, whatever is registered. */
  lemma TicksCounted(es: seq<TimerEvent>)
    ensures RunTimers(Init(), es).ticks == TickCount(es)
  {
    TicksAdvance(Init(), es);
  }

  lemma InitPool()
    ensures PoolExact(Init())
  {
    forall id | 0 <= id < TIMERS_MAX ensures id in Init().free {
      assert Init().free[id] == id;
    }
  }

  /** The pool of timer ids stays exact over every proper run from timer_init. */
  lemma PoolAlwaysExact(es: seq<TimerEvent>)
    requires Proper(Init(), es)
    ensures PoolExact(RunTimers(Init(), es))
  {
    InitPool();
    RunKeepsPool(Init(), es);
  }

  /** After one registration, unregistering the next id, which is free, puts it in the pool twice. */
  lemma UnregisterFreeId(callback: int, interval: int, repeat: int)
    requires callback != 0
    ensures var (s, id) := Register(Init(), callback, interval, repeat);
            id == 0 && PoolExact(s) && !PoolExact(Unregister(s, 1).0)
  {
    InitPool();
    RegisterKeepsPool(Init(), callback, interval, repeat);
    UnregisterExact(Register(Init(), callback, interval, repeat).0, 1);
  }

  // ----- Firing counts -----

  lemma DivUnique(a: int, m: int, q: int, r: int)
    requires m >= 1 && a == m * q + r && 0 <= r < m
    ensures a / m == q && a % m == r
  {
    SameQuotient(m, a / m, a % m, q, r);
  }

  lemma SameQuotient(m: int, q: int, r: int, q': int, r': int)
    requires m >= 1 && m * q + r == m * q' + r' && 0 <= r < m && 0 <= r' < m
    ensures q == q' && r == r'
  {
    assert m * (q - q') == r' - r && m * (q' - q) == r - r';
    AtLeast(m, if q > q' then q - q' else 1);
    AtLeast(m, if q' > q then q' - q else 1);
  }

  lemma AtLeast(m: int, d: int)
    requires m >= 1 && d >= 1
    ensures m * d >= m
  {
  }

  /** The number of multiples of m after t, up to u: floor(u / m) - floor(t / m). */
  function Multiples(t: int, u: int, m: int): int
    requires m >= 1
  {
    u / m - t / m
  }

  /** The quotient moves on exactly at the multiples of m. */
  lemma MultiplesFirst(t: int, u: int, m: int)
    requires m >= 1
    ensures Multiples(t, u, m) == (if (t + 1) % m == 0 then 1 else 0) + Multiples(t + 1, u, m)
  {
    var q, r := t / m, t % m;
    assert t == m * q + r;
    if r + 1 == m {
      assert t + 1 == m * (q + 1);
      DivUnique(t + 1, m, q + 1, 0);
    } else {
      DivUnique(t + 1, m, q, r + 1);
    }
  }

  lemma NextCall(timer: Timer, t: int, u: int)
    requires timer.callback != 0 && timer.interval >= 1
    ensures Multiples(t, u, timer.interval)
         == (if Fires(timer, t + 1) then 1 else 0) + Multiples(t + 1, u, timer.interval)
    ensures Multiples(t, t, timer.interval) == 0
  {
    MultiplesFirst(t, u, timer.interval);
  }

  predicate NotRemoved(es: seq<TimerEvent>, id: int) {
    forall e | e in es :: e != Remove(id)
  }

  /** One event and one registered timer. */
  lemma TimerStep(s: Timers, e: TimerEvent, id: nat)
    requires PoolExact(s) && id < TIMERS_MAX && s.table[id].callback != 0 && e != Remove(id)
    ensures var (s', fired) := StepTimers(s, e); var t := s.table[id];
            if e.Tick? then
              && s'.ticks == s.ticks + 1 && s'.table[id] == Aged(t)
              && Calls(fired, id) == (if Fires(t, s.ticks + 1) then 1 else 0)
            else
              s'.ticks == s.ticks && s'.table[id] == t && Calls(fired, id) == 0
  {
    match e
    case Tick => VisitFromOne(s.(ticks := s.ticks + 1), 0, [], id);
    case Add(c, m, r) =>
      assert s.free != [] ==> s.free[0] in s.free;
    case Remove(_) =>
  }

  /**
   While a timer lives it is called at every multiple of its interval, and its repeat
   count goes down by one on every tick, called or not; a negative one never does.
   */
  lemma {:induction false} WhileRegistered(s: Timers, es: seq<TimerEvent>, id: nat)
    requires PoolExact(s) && Proper(s, es) && NotRemoved(es, id)
    requires id < TIMERS_MAX && s.table[id].callback != 0 && s.table[id].interval >= 1
    requires s.table[id].repeat >= 0 ==> TickCount(es) <= s.table[id].repeat
    ensures var k := TickCount(es); var t := s.table[id]; var s' := RunTimers(s, es);
            && PoolExact(s') && s'.ticks == s.ticks + k
            && s'.table[id] == t.(repeat := if t.repeat < 0 then t.repeat else t.repeat - k)
            && TotalCalls(s, es, id) == Multiples(s.ticks, s.ticks + k, t.interval)
    decreases |es|
  {
    hide Multiples, Fires, StepTimers, PoolExact;
    NextCall(s.table[id], s.ticks, s.ticks + TickCount(es));
    if es != [] {
      assert es[0] in es && forall e | e in es[1..] :: e in es;
      TimerStep(s, es[0], id);
      StepKeepsPool(s, es[0]);
      WhileRegistered(StepTimers(s, es[0]).0, es[1..], id);
    }
  }

  /**
   The life of a callback registered at tick T with interval m >= 1 and repeat r >= 0: over
   its r + 1 ticks it is called floor((T + r + 1) / m) - floor(T / m) times, and the last of
   these ticks returns its id to the pool.
   */
  lemma CallbackLife(s: Timers, callback: int, m: int, r: int, es: seq<TimerEvent>)
    requires PoolExact(s) && callback != 0 && m >= 1 && r >= 0 && s.free != []
    requires Proper(Register(s, callback, m, r).0, es) && NotRemoved(es, s.free[0]) && TickCount(es) == r
    ensures var (s1, id) := Register(s, callback, m, r);
            var s2 := RunTimers(s1, es);
            var (s3, fired) := Handle(s2);
            && 0 <= id < TIMERS_MAX
            && s2.table[id].callback == callback
            && TotalCalls(s1, es, id) + Calls(fired, id) == Multiples(s.ticks, s.ticks + r + 1, m)
            && s3.table[id] == NO_TIMER && id in s3.free
  {
    hide *;
    var (s1, id) := Register(s, callback, m, r);
    Registered(s, callback, m, r);
    WhileRegistered(s1, es, id);
    Expires(RunTimers(s1, es), id);
    LastCall(s.ticks, s.ticks + r, m, Timer(callback, m, 0));
  }

  lemma Registered(s: Timers, callback: int, m: int, r: int)
    requires PoolExact(s) && callback != 0 && s.free != []
    ensures var (s1, id) := Register(s, callback, m, r);
            && id == s.free[0] && 0 <= id < TIMERS_MAX
            && PoolExact(s1) && s1.table[id] == Timer(callback, m, r) && s1.ticks == s.ticks
  {
    RegisterKeepsPool(s, callback, m, r);
  }

  /** The tick that finds a repeat count of 0. */
  lemma Expires(s: Timers, id: nat)
    requires PoolExact(s) && id < TIMERS_MAX && s.table[id].callback != 0 && s.table[id].repeat == 0
    ensures Handle(s).0.table[id] == NO_TIMER && id in Handle(s).0.free
    ensures Calls(Handle(s).1, id) == (if Fires(s.table[id], s.ticks + 1) then 1 else 0)
  {
    TimerStep(s, Tick, id);
    StepKeepsPool(s, Tick);
  }

  lemma LastCall(t: int, u: int, m: int, timer: Timer)
    requires timer.callback != 0 && timer.interval == m >= 1
    ensures Multiples(t, u + 1, m) == Multiples(t, u, m) + (if Fires(timer, u + 1) then 1 else 0)
  {
    NextCall(timer, u, u + 1);
  }

  /** A callback registered like scheduler_timer is called exactly once on every tick, for ever. */
  lemma EveryTick(s: Timers, callback: int, es: seq<TimerEvent>)
    requires PoolExact(s) && callback != 0 && s.free != []
    requires Proper(Register(s, callback, 1, -1).0, es) && NotRemoved(es, s.free[0])
    ensures var (s1, id) := Register(s, callback, 1, -1);
            && 0 <= id < TIMERS_MAX
            && TotalCalls(s1, es, id) == TickCount(es) && RunTimers(s1, es).table[id] == Timer(callback, 1, -1)
  {
    var (s1, id) := Register(s, callback, 1, -1);
    assert id in s.free;
    RegisterKeepsPool(s, callback, 1, -1);
    WhileRegistered(s1, es, id);
  }

  // ----- A repeat is not a number of intervals -----

  /** The calls of a callback over the r + 1 ticks of its life. */
  function LifeCalls(s: Timers, callback: int, m: int, r: int, es: seq<TimerEvent>): nat {
    var (s1, id) := Register(s, callback, m, r);
    TotalCalls(s1, es, id) + Calls(Handle(RunTimers(s1, es)).1, id)
  }

  lemma QuotientExact(x: int, m: int, c: int)
    requires m >= 1
    ensures x / m == c <==> m * c <= x < m * c + m
  {
    if m * c <= x < m * c + m {
      DivUnique(x, m, c, x - m * c);
    }
    assert x == m * (x / m) + x % m;
  }

  /** The calls in n ticks from tick t on: they depend on the phase t % m alone. */
  function CallsIn(t: int, n: nat, m: int): int
    requires m >= 1
  {
    (t % m + n) / m
  }

  lemma CallCount(t: int, n: nat, m: int)
    requires m >= 1
    ensures Multiples(t, t + n, m) == CallsIn(t, n, m)
  {
    var q, a := t / m, t % m;
    var c := (a + n) / m;
    QuotientExact(a + n, m, c);
    assert m * (q + c) == m * q + m * c;
    QuotientExact(t + n, m, q + c);
  }

  lemma LifeCount(s: Timers, callback: int, m: int, r: int, es: seq<TimerEvent>)
    requires PoolExact(s) && callback != 0 && m >= 1 && r >= 0 && s.free != []
    requires Proper(Register(s, callback, m, r).0, es) && NotRemoved(es, s.free[0]) && TickCount(es) == r
    ensures LifeCalls(s, callback, m, r, es) == CallsIn(s.ticks, r + 1, m)
  {
    hide Multiples, CallsIn, Register, Handle, RunTimers, TotalCalls, Calls;
    CallbackLife(s, callback, m, r, es);
    CallCount(s.ticks, r + 1, m);
  }

  lemma NoCall(t: int, n: nat, m: int)
    requires m >= 1
    ensures CallsIn(t, n, m) == 0 <==> t % m + n < m
  {
    QuotientExact(t % m + n, m, 0);
  }

  /** It is never called exactly when its life ends before the next multiple of its interval. */
  lemma NeverCalledExact(s: Timers, callback: int, m: int, r: int, es: seq<TimerEvent>)
    requires PoolExact(s) && callback != 0 && m >= 1 && r >= 0 && s.free != []
    requires Proper(Register(s, callback, m, r).0, es) && NotRemoved(es, s.free[0]) && TickCount(es) == r
    ensures LifeCalls(s, callback, m, r, es) == 0 <==> s.ticks % m + r + 1 < m
  {
    hide LifeCalls, CallsIn;
    LifeCount(s, callback, m, r, es);
    NoCall(s.ticks, r + 1, m);
  }

  lemma CallsOnAll(t: int, n: nat, m: int)
    requires m >= 1 && n >= 1
    ensures CallsIn(t, n, m) == n <==> m == 1 || (n == 1 && t % m == m - 1)
  {
    var a := t % m;
    QuotientExact(a + n, m, n);
    assert m * n == (m - 1) * n + n;
    if m >= 2 && n >= 2 {
      Product(m - 1, n, 1, 2);
    }
  }

  lemma Product(x: int, y: int, a: int, b: int)
    requires x >= a >= 0 && y >= b >= 0
    ensures x * y >= x * b && x * y >= a * y
  {
    assert x * (y - b) >= 0 && (x - a) * y >= 0;
  }

  /** It is called on all r + 1 ticks of its life exactly for interval 1, or for a single tick that hits. */
  lemma EveryTickExact(s: Timers, callback: int, m: int, r: int, es: seq<TimerEvent>)
    requires PoolExact(s) && callback != 0 && m >= 1 && r >= 0 && s.free != []
    requires Proper(Register(s, callback, m, r).0, es) && NotRemoved(es, s.free[0]) && TickCount(es) == r
    ensures LifeCalls(s, callback, m, r, es) == r + 1 <==> m == 1 || (r == 0 && s.ticks % m == m - 1)
  {
    hide LifeCalls, CallsIn;
    LifeCount(s, callback, m, r, es);
    CallsOnAll(s.ticks, r + 1, m);
  }

  /** The phases a, repeat counts and intervals for which r repeats make r calls. */
  predicate RepeatFits(a: int, r: int, m: int) {
    m >= 2 && ((r == 0 && a + 1 < m) || (r == 1 && m <= a + 2) || (r == 2 && m == 2 && a == 1))
  }

  lemma RepeatCount(t: int, r: nat, m: int)
    requires m >= 1
    ensures CallsIn(t, r + 1, m) == r <==> RepeatFits(t % m, r, m)
  {
    var a := t % m;
    QuotientExact(a + r + 1, m, r);
    if m >= 2 && r >= 3 {
      assert m * r == m * (r - 1) + m;
      Product(m, r - 1, 2, 2);
    }
  }

  /** The calls are as many as the repeat count exactly in these cases. */
  lemma RepeatExact(s: Timers, callback: int, m: int, r: int, es: seq<TimerEvent>)
    requires PoolExact(s) && callback != 0 && m >= 1 && r >= 0 && s.free != []
    requires Proper(Register(s, callback, m, r).0, es) && NotRemoved(es, s.free[0]) && TickCount(es) == r
    ensures LifeCalls(s, callback, m, r, es) == r <==> RepeatFits(s.ticks % m, r, m)
  {
    hide LifeCalls, CallsIn, RepeatFits;
    LifeCount(s, callback, m, r, es);
    RepeatCount(s.ticks, r, m);
  }
}
