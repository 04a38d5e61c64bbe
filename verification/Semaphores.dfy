/** The semaphore table (ksem.c): allocation and the pool of ids. */
module Semaphores {
  import opened Seqs
  import opened Queues

  const SEM_MAX := 16

  datatype Semaphore = Semaphore(inUse: bool, count: int, waiters: seq<int>)

  type Table = t: seq<Semaphore> | |t| == SEM_MAX witness seq(SEM_MAX, i => Semaphore(false, 0, []))

  datatype Sems = Sems(table: Table, free: seq<int>)

  function Init(): Sems {
    Sems(seq(SEM_MAX, i => Semaphore(false, 0, [])), seq(SEM_MAX, i => i))
  }

  function SemInit(s: Sems, value: int): (Sems, int) {
    if s.free == [] then (s, -1)
    else
      var id := s.free[0];
      var s1 := s.(free := s.free[1..]);
      if id < 0 || id >= SEM_MAX then (s1, -1)
      else (s1.(table := s.table[id := Semaphore(true, value, [])]), id)
  }

  function SemDestroy(s: Sems, id: int): (Sems, int) {
    if id < 0 || id >= SEM_MAX || !s.table[id].inUse then (s, -1)
    else if s.table[id].waiters != [] then (s, -1)
    else
      (Sems(s.table[id := s.table[id].(inUse := false)],
            if |s.free| < QUEUE_SIZE then s.free + [id] else s.free), 0)
  }

  // ----- The table in place -----

  class SemTable {
    const semaphores: array<Semaphore>
    const pool: Queue
    ghost var st: Sems

    ghost predicate Valid()
      reads this, semaphores, pool, pool.items
    {
      semaphores.Length == SEM_MAX && semaphores[..] == st.table && pool.Valid() && pool.contents == st.free
    }

    /** ksemaphores_init. */
    constructor ()
      ensures Valid() && st == Init() && fresh(semaphores) && fresh(pool) && fresh(pool.items)
    {
      semaphores := new Semaphore[SEM_MAX](i => Semaphore(false, 0, []));
      pool := new Queue();
      st := Init().(free := []);
      new;
      var i := 0;
      while i < SEM_MAX
        invariant 0 <= i <= SEM_MAX
        invariant Valid() && fresh(semaphores) && fresh(pool) && fresh(pool.items)
        invariant |st.free| == i && (forall j | 0 <= j < i :: st.free[j] == j)
        invariant st == Init().(free := st.free)
      {
        semaphores[i] := Semaphore(false, 0, []);
        var rc := pool.In(i);
        st := st.(free := st.free + [i]);
        i := i + 1;
      }
      assert st.free == Init().free;
    }

    method KsemInit(value: int) returns (id: int)
      requires Valid()
      modifies this, semaphores, pool, pool.items
      ensures Valid() && (st, id) == SemInit(old(st), value)
    {
      var rc;
      rc, id := pool.Out();
      if rc == -1 {
        return -1;
      }
      st := st.(free := st.free[1..]);
      if id < 0 || id >= SEM_MAX {
        return -1;
      }
      semaphores[id] := Semaphore(true, value, []);
      st := st.(table := st.table[id := Semaphore(true, value, [])]);
    }

    method KsemDestroy(id: int) returns (rc: int)
      requires Valid()
      modifies this, semaphores, pool, pool.items
      ensures Valid() && (st, rc) == SemDestroy(old(st), id)
    {
      if id < 0 || id >= SEM_MAX || !semaphores[id].inUse {
        return -1;
      }
      if semaphores[id].waiters != [] {
        return -1;
      }
      semaphores[id] := semaphores[id].(inUse := false);
      st := st.(table := st.table[id := st.table[id].(inUse := false)]);
      pool.SizeCounts();
      rc := pool.In(id);
      if rc == 0 {
        st := st.(free := st.free + [id]);
      }
      return 0;
    }
  }

  // ----- The pool of semaphore ids -----

  /** Free ids and allocated ids partition the table. */
  ghost predicate PoolExact(s: Sems) {
    && NoDup(s.free)
    && (forall id | id in s.free :: 0 <= id < SEM_MAX)
    && (forall id | 0 <= id < SEM_MAX :: id in s.free <==> !s.table[id].inUse)
  }

  /** Use is anything that waiting and posting may do to the count and the wait queue. */
  datatype SemEvent = Allocate(value: int) | Destroy(id: int) | Use(id: int, count: int, waiters: seq<int>)

  function StepSems(s: Sems, e: SemEvent): Sems {
    match e
    case Allocate(value) => SemInit(s, value).0
    case Destroy(id) => SemDestroy(s, id).0
    case Use(id, count, waiters) =>
      if 0 <= id < SEM_MAX then s.(table := s.table[id := s.table[id].(count := count, waiters := waiters)]) else s
  }

  function RunSems(s: Sems, es: seq<SemEvent>): Sems
    decreases |es|
  {
    if es == [] then s else RunSems(StepSems(s, es[0]), es[1..])
  }

  lemma StepKeepsPool(s: Sems, e: SemEvent)
    requires PoolExact(s)
    ensures PoolExact(StepSems(s, e))
  {
    match e
    case Allocate(value) =>
      if s.free != [] {
        assert s.free[0] in s.free;
        assert s.free == [s.free[0]] + s.free[1..];
        assert forall x :: x in s.free[1..] <==> x in s.free && x != s.free[0];
      }
    case Destroy(id) =>
      if 0 <= id < SEM_MAX && s.table[id].inUse {
        PoolRoom(s, id);
      }
    case Use(_, _, _) =>
  }

  lemma PoolRoom(s: Sems, id: int)
    requires PoolExact(s) && 0 <= id < SEM_MAX && s.table[id].inUse
    ensures |s.free| < SEM_MAX
  {
    var all := s.free + [id];
    assert NoDup(all);
    forall i | 0 <= i < |all| ensures 0 <= all[i] < SEM_MAX {
      assert i < |s.free| ==> s.free[i] in s.free;
    }
    Pigeonhole(all, 0, SEM_MAX);
  }

  /** Whatever the clients call, with whatever ids, no semaphore id is lost or handed out twice. */
  lemma {:induction false} RunKeepsPool(s: Sems, es: seq<SemEvent>)
    requires PoolExact(s)
    ensures PoolExact(RunSems(s, es))
    decreases |es|
  {
    if es != [] {
      StepKeepsPool(s, es[0]);
      RunKeepsPool(StepSems(s, es[0]), es[1..]);
    }
  }

  lemma PoolAlwaysExact(es: seq<SemEvent>)
    ensures PoolExact(RunSems(Init(), es))
  {
    forall id | 0 <= id < SEM_MAX ensures id in Init().free {
      assert Init().free[id] == id;
    }
    RunKeepsPool(Init(), es);
  }

  /** An allocation fails without effect when all 16 exist, and else takes the first free id. */
  lemma AllocationSucceeds(s: Sems, value: int)
    requires PoolExact(s)
    ensures SemInit(s, value).1 == -1 <==> forall id | 0 <= id < 16 :: s.table[id].inUse
    ensures var (s', id) := SemInit(s, value);
            if id == -1 then s' == s
            else
              && 0 <= id < SEM_MAX && !s.table[id].inUse
              && s.free == [id] + s'.free && s'.table == s.table[id := Semaphore(true, value, [])]
  {
    if s.free != [] {
      assert s.free[0] in s.free;
      assert s.free == [s.free[0]] + s.free[1..];
    }
  }

  /** The id can be given back: it is allocated and nobody waits for it. */
  predicate Destroyable(s: Sems, id: int) {
    0 <= id < SEM_MAX && s.table[id].inUse && s.table[id].waiters == []
  }

  /** A destroy returns 0 exactly for such an id, which is then free; otherwise it has no effect. */
  lemma DestroyExact(s: Sems, id: int)
    requires PoolExact(s)
    ensures var (s', rc) := SemDestroy(s, id);
            && rc == (if Destroyable(s, id) then 0 else -1)
            && (rc == -1 ==> s' == s)
            && (rc == 0 ==>
                  && !s'.table[id].inUse && s'.free == s.free + [id]
                  && forall i | 0 <= i < SEM_MAX && i != id :: s'.table[i] == s.table[i])
  {
    if Destroyable(s, id) {
      PoolRoom(s, id);
    }
  }

  /** What is destroyed can be allocated again: the id comes back once those before it are taken. */
  lemma {:induction false} DestroyedComesBack(s: Sems, id: int, values: seq<int>)
    requires PoolExact(s) && Destroyable(s, id) && |values| == |s.free|
    ensures SemInit(AllocateAll(SemDestroy(s, id).0, values), 0).1 == id
  {
    DestroyExact(s, id);
    StepKeepsPool(s, Destroy(id));
    var s' := SemDestroy(s, id).0;
    AllocateTakes(s', values);
    assert s'.free[|values|..] == [id];
    assert AllocateAll(s', values).free[0] == id;
  }

  function AllocateAll(s: Sems, values: seq<int>): Sems
    decreases |values|
  {
    if values == [] then s else AllocateAll(SemInit(s, values[0]).0, values[1..])
  }

  lemma {:induction false} AllocateTakes(s: Sems, values: seq<int>)
    requires PoolExact(s) && |values| <= |s.free|
    ensures AllocateAll(s, values).free == s.free[|values|..] && PoolExact(AllocateAll(s, values))
    decreases |values|
  {
    if values != [] {
      AllocationSucceeds(s, values[0]);
      StepKeepsPool(s, Allocate(values[0]));
      AllocateTakes(SemInit(s, values[0]).0, values[1..]);
    }
  }

  /** From the start the ids 0 to 15 are handed out in turn, and then no more. */
  lemma FirstIds(values: seq<int>, value: int)
    requires |values| <= 16
    ensures SemInit(AllocateAll(Init(), values), value).1 == if |values| < 16 then |values| else -1
  {
    PoolAlwaysExact([]);
    assert RunSems(Init(), []) == Init();
    AllocateTakes(Init(), values);
    AllocationSucceeds(AllocateAll(Init(), values), value);
  }
}
