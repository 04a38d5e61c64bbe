/** The fixed-size circular queue (queue.c) and the FIFO law that its users rely on. */
module Queues {

  const QUEUE_SIZE := 32

  /**
   Queue.items is a circular buffer; `contents` is the sequence that it represents.
   */
  class Queue {
    var head: int
    var tail: int
    var size: int
    const items: array<int>
    ghost var contents: seq<int>

    ghost predicate Valid()
      reads this, items
    {
      && items.Length == QUEUE_SIZE
      && 0 <= head < QUEUE_SIZE && 0 <= size <= QUEUE_SIZE
      && tail == (if head + size < QUEUE_SIZE then head + size else head + size - QUEUE_SIZE)
      && contents == Window(items[..], head, size)
    }

    /** The size field counts the contents. */
    lemma SizeCounts()
      requires Valid()
      ensures size == |contents| <= QUEUE_SIZE == items.Length
    {
    }

    constructor ()
      ensures Valid() && contents == []
      ensures fresh(items)
    {
      items := new int[QUEUE_SIZE](i => 0);
      head, tail, size := 0, 0, 0;
      contents := [];
    }

    /** queue_init: the queue is empty whatever it held, valid or not. */
    method Init()
      requires items.Length == QUEUE_SIZE
      modifies this, items
      ensures Valid() && contents == []
    {
      var i := 0;
      while i < QUEUE_SIZE
      {
        items[i] := 0;
        i := i + 1;
      }
      head, tail, size := 0, 0, 0;
      contents := [];
    }

    /** queue_in: fails exactly on a full queue, and otherwise adds at the end. */
    method In(item: int) returns (rc: int)
      requires Valid()
      modifies this, items
      ensures Valid() && |old(contents)| <= QUEUE_SIZE
      ensures rc == if |old(contents)| == QUEUE_SIZE then -1 else 0
      ensures contents == if |old(contents)| == QUEUE_SIZE then old(contents) else old(contents) + [item]
    {
      if size == QUEUE_SIZE {
        return -1;
      }
      items[tail] := item;
      tail := tail + 1;
      if tail == QUEUE_SIZE {
        tail := 0;
      }
      size := size + 1;
      contents := contents + [item];
      return 0;
    }

    /** queue_out: fails exactly on an empty queue, and otherwise takes the oldest item. */
    method Out() returns (rc: int, item: int)
      requires Valid()
      modifies this, items
      ensures Valid()
      ensures rc == if old(contents) == [] then -1 else 0
      ensures old(contents) == [] ==> contents == []
      ensures old(contents) != [] ==> item == old(contents)[0] && contents == old(contents)[1..]
    {
      if size == 0 {
        return -1, 0;
      }
      item := items[head];
      items[head] := 0;
      head := head + 1;
      if head == QUEUE_SIZE {
        head := 0;
      }
      size := size - 1;
      contents := contents[1..];
      rc := 0;
    }

    method IsEmpty() returns (r: bool)
      requires Valid()
      ensures r <==> contents == []
    {
      return size == 0;
    }
  }

  /** The n items from position h on, going round the end of the buffer. */
  function Window(a: seq<int>, h: int, n: int): (w: seq<int>)
    requires |a| == QUEUE_SIZE && 0 <= h < QUEUE_SIZE && 0 <= n <= QUEUE_SIZE
    ensures |w| == n
  {
    seq(n, i requires 0 <= i < n => a[if h + i < QUEUE_SIZE then h + i else h + i - QUEUE_SIZE])
  }

  // ----- The FIFO law -----

  datatype QueueOp = In(item: int) | Out

  /** What a user of the queue sees: the items accepted, the items delivered, the items held. */
  datatype Trace = Trace(accepted: seq<int>, delivered: seq<int>, held: seq<int>)

  function Apply(t: Trace, op: QueueOp): Trace {
    match op
    case In(x) => if |t.held| == QUEUE_SIZE then t else t.(accepted := t.accepted + [x], held := t.held + [x])
    case Out => if t.held == [] then t else t.(delivered := t.delivered + [t.held[0]], held := t.held[1..])
  }

  function ApplyAll(t: Trace, ops: seq<QueueOp>): Trace
    decreases |ops|
  {
    if ops == [] then t else ApplyAll(Apply(t, ops[0]), ops[1..])
  }

  /** Items come out in the order they went in; at most QUEUE_SIZE are held. */
  lemma {:induction false} Fifo(t: Trace, ops: seq<QueueOp>)
    requires t.accepted == t.delivered + t.held && |t.held| <= QUEUE_SIZE
    ensures var r := ApplyAll(t, ops); r.accepted == r.delivered + r.held && |r.held| <= QUEUE_SIZE
    decreases |ops|
  {
    if ops != [] {
      var r := Apply(t, ops[0]);
      assert r.accepted == r.delivered + r.held;
      Fifo(r, ops[1..]);
    }
  }

  function AllIn(xs: seq<int>): (ops: seq<QueueOp>)
    ensures |ops| == |xs| && forall i | 0 <= i < |xs| :: ops[i] == In(xs[i])
  {
    seq(|xs|, i requires 0 <= i < |xs| => In(xs[i]))
  }

  function Least(a: int, b: int): int {
    if a <= b then a else b
  }

  /** A queue takes the first items up to 32, and refuses the rest. */
  lemma {:induction false} Capacity(t: Trace, xs: seq<int>)
    requires |t.held| <= 32
    ensures var ys := xs[..Least(|xs|, 32 - |t.held|)];
            ApplyAll(t, AllIn(xs)) == t.(accepted := t.accepted + ys, held := t.held + ys)
    decreases |xs|
  {
    if xs == [] {
      assert t.held + [] == t.held && t.accepted + [] == t.accepted;
    } else {
      var t' := Apply(t, In(xs[0]));
      assert AllIn(xs)[1..] == AllIn(xs[1..]);
      assert ApplyAll(t, AllIn(xs)) == ApplyAll(t', AllIn(xs[1..]));
      hide ApplyAll;
      Capacity(t', xs[1..]);
      var n, m := Least(|xs|, 32 - |t.held|), Least(|xs| - 1, 32 - |t'.held|);
      if |t.held| < 32 {
        FirstOf(t.held, xs, m);
        FirstOf(t.accepted, xs, m);
      } else {
        assert n == m == 0;
      }
    }
  }

  lemma FirstOf(held: seq<int>, xs: seq<int>, m: nat)
    requires m < |xs|
    ensures (held + [xs[0]]) + xs[1..][..m] == held + xs[..m + 1]
  {
  }

  /**
   Any sequence of queue_in and queue_out on a real queue, judged by its return codes:
   what was accepted comes out in order and the rest is still held.
   */
  method Drive(q: Queue, ops: seq<QueueOp>) returns (accepted: seq<int>, delivered: seq<int>)
    requires q.Valid()
    modifies q, q.items
    ensures q.Valid()
    ensures ApplyAll(Trace(old(q.contents), [], old(q.contents)), ops)
         == Trace(old(q.contents) + accepted, delivered, q.contents)
    ensures old(q.contents) + accepted == delivered + q.contents
  {
    ghost var held := q.contents;
    accepted, delivered := [], [];
    q.SizeCounts();
    Fifo(Trace(held, [], held), ops);
    assert held + [] == held;
    var i := 0;
    while i < |ops|
      invariant 0 <= i <= |ops| && q.Valid()
      invariant ApplyAll(Trace(held, [], held), ops)
             == ApplyAll(Trace(held + accepted, delivered, q.contents), ops[i..])
    {
      assert ops[i..][1..] == ops[i + 1..];
      match ops[i] {
        case In(x) =>
          var rc := q.In(x);
          if rc == 0 {
            assert (held + accepted) + [x] == held + (accepted + [x]);
            accepted := accepted + [x];
          }
        case Out =>
          var rc, x := q.Out();
          if rc == 0 {
            delivered := delivered + [x];
          }
      }
      i := i + 1;
    }
  }
}
