/** The byte ring buffer (ringbuf.c): bulk copies through a circular buffer, and its stream law. */
module RingBuffers {

  const RINGBUF_SIZE := 2048
  /** One more than the largest size_t: the size check of ringbuf_write_mem is computed modulo this. */
  const SIZE_T := 0x1_0000_0000
  /** The bytes of data[] that a memset of RINGBUF_SIZE bytes reaches behind head, tail and size. */
  const CLEARED := RINGBUF_SIZE - 12

  class RingBuffer {
    var head: int
    var tail: int
    var size: int
    const data: array<char>
    ghost var contents: seq<char>

    ghost predicate Valid()
      reads this, data
    {
      && data.Length == RINGBUF_SIZE
      && 0 <= head < RINGBUF_SIZE && 0 <= size <= RINGBUF_SIZE
      && tail == (if head + size < RINGBUF_SIZE then head + size else head + size - RINGBUF_SIZE)
      && |contents| == size
      && forall i | 0 <= i < size ::
           contents[i] == data[if head + i < RINGBUF_SIZE then head + i else head + i - RINGBUF_SIZE]
    }

    constructor ()
      ensures Valid() && contents == [] && fresh(data)
    {
      data := new char[RINGBUF_SIZE](i => '\0');
      head, tail, size := 0, 0, 0;
      contents := [];
    }

    /** ringbuf_init and ringbuf_flush: the memset clears the indices and all but the last 12 bytes. */
    method Flush()
      requires data.Length == RINGBUF_SIZE
      modifies this, data
      ensures Valid() && contents == []
      ensures forall i | CLEARED <= i < RINGBUF_SIZE :: data[i] == old(data[i])
    {
      var i := 0;
      while i < CLEARED
        invariant 0 <= i <= CLEARED
        invariant forall j | CLEARED <= j < RINGBUF_SIZE :: data[j] == old(data[j])
      {
        data[i] := '\0';
        i := i + 1;
      }
      head, tail, size := 0, 0, 0;
      contents := [];
    }

    /** ringbuf_write: fails exactly on a full buffer. */
    method Write(byte: char) returns (rc: int)
      requires Valid()
      modifies this, data
      ensures Valid()
      ensures rc == if |old(contents)| == RINGBUF_SIZE then -1 else 0
      ensures contents == if rc == 0 then old(contents) + [byte] else old(contents)
    {
      if size == RINGBUF_SIZE {
        return -1;
      }
      data[tail] := byte;
      tail := tail + 1;
      if tail == RINGBUF_SIZE {
        tail := 0;
      }
      size := size + 1;
      contents := contents + [byte];
      return 0;
    }

    /** ringbuf_read: fails exactly on an empty buffer. */
    method Read() returns (rc: int, byte: char)
      requires Valid()
      modifies this
      ensures Valid()
      ensures rc == if old(contents) == [] then -1 else 0
      ensures rc != 0 ==> contents == old(contents)
      ensures rc == 0 ==> byte == old(contents)[0] && contents == old(contents)[1..]
    {
      if size == 0 {
        return -1, '\0';
      }
      byte := data[head];
      head := head + 1;
      if head == RINGBUF_SIZE {
        head := 0;
      }
      size := size - 1;
      contents := contents[1..];
      rc := 0;
    }

    /** ringbuf_is_empty. */
    method IsEmpty() returns (r: bool)
      requires Valid()
      ensures r <==> contents == []
    {
      return size == 0;
    }

    /** ringbuf_is_full. */
    method IsFull() returns (r: bool)
      requires Valid()
      ensures r <==> |contents| == RINGBUF_SIZE
    {
      return size == RINGBUF_SIZE;
    }

    /** ringbuf_write_mem, with the sum of the check as wide as size_t. */
    method WriteMem(mem: seq<char>) returns (rc: int)
      requires Valid() && |mem| < SIZE_T
      modifies this, data
      ensures Valid()
      ensures (contents, rc) == WriteMemEffect(old(contents), mem)
    {
      if (size + |mem|) % SIZE_T > RINGBUF_SIZE {
        assert contents + [] == contents;
        return -1;
      }
      var left := |mem|;
      var full := IsFull();
      while left > 0 && !full
        invariant Valid() && 0 <= left <= |mem|
        invariant full <==> |contents| == RINGBUF_SIZE
        invariant contents == old(contents) + mem[..|mem| - left]
      {
        rc := Write(mem[|mem| - left]);
        assert mem[..|mem| - left + 1] == mem[..|mem| - left] + [mem[|mem| - left]];
        left := left - 1;
        full := IsFull();
      }
      assert mem[..|mem|] == mem && |contents| <= RINGBUF_SIZE;
      return 0;
    }

    /** ringbuf_read_mem: the bytes copied, whose number is what the function returns. */
    method ReadMem(n: int) returns (mem: seq<char>)
      requires Valid() && 0 <= n < SIZE_T
      modifies this
      ensures Valid()
      ensures mem == Taken(old(contents), n) && contents == old(contents)[|mem|..]
    {
      mem := [];
      ghost var c := contents;
      var left := n;
      var empty := IsEmpty();
      hide Valid;
      while left > 0 && !empty
        invariant Valid() && 0 <= left <= n
        invariant empty <==> contents == []
        invariant |mem| == n - left <= |c|
        invariant mem == c[..|mem|] && contents == c[|mem|..]
      {
        var rc, byte := Read();
        assert c[..|mem| + 1] == c[..|mem|] + [byte];
        mem := mem + [byte];
        left := left - 1;
        empty := IsEmpty();
      }
    }
  }

  /** What ringbuf_write_mem accepts: as much as fits, once the check has let the call through. */
  function Accepted(contents: seq<char>, mem: seq<char>): seq<char>
    requires |contents| <= RINGBUF_SIZE
  {
    if (|contents| + |mem|) % SIZE_T > RINGBUF_SIZE then []
    else if |contents| + |mem| <= RINGBUF_SIZE then mem
    else mem[..RINGBUF_SIZE - |contents|]
  }

  function WriteMemEffect(contents: seq<char>, mem: seq<char>): (seq<char>, int)
    requires |contents| <= RINGBUF_SIZE
  {
    (contents + Accepted(contents, mem), if (|contents| + |mem|) % SIZE_T > RINGBUF_SIZE then -1 else 0)
  }

  function Taken(contents: seq<char>, n: int): seq<char>
    requires 0 <= n
  {
    if n <= |contents| then contents[..n] else contents
  }

  /** All bytes and success, or none and failure for want of room. */
  predicate AllOrNothing(contents: seq<char>, mem: seq<char>, effect: (seq<char>, int)) {
    || effect == (contents + mem, 0)
    || (effect == (contents, -1) && |contents| + |mem| > RINGBUF_SIZE)
  }

  /**
   A bulk write is all or nothing exactly when the sum in its size check does not wrap
   around; if it does, the call reports success for the bytes that happen to fit.
   */
  lemma WriteMemAllOrNothing(contents: seq<char>, mem: seq<char>)
    requires |contents| <= RINGBUF_SIZE && |mem| < SIZE_T
    ensures AllOrNothing(contents, mem, WriteMemEffect(contents, mem)) <==> |contents| + |mem| < SIZE_T
  {
    var total := |contents| + |mem|;
    assert contents + [] == contents;
    if total >= SIZE_T {
      assert total % SIZE_T == total - SIZE_T <= RINGBUF_SIZE;
      assert |WriteMemEffect(contents, mem).0| == RINGBUF_SIZE < |contents + mem|;
    }
  }

  /** Short of that, a bulk write fails exactly if there is no room for all of it in 2048 bytes. */
  lemma WriteMemExact(contents: seq<char>, mem: seq<char>)
    requires |contents| <= RINGBUF_SIZE && |contents| + |mem| < SIZE_T
    ensures WriteMemEffect(contents, mem) ==
              if |contents| + |mem| <= 2048 then (contents + mem, 0) else (contents, -1)
  {
    WriteMemAllOrNothing(contents, mem);
  }

  /** A size of -1 on a buffer that is not empty: the rest is filled, and the call reports success. */
  lemma NegativeSizeTruncates(contents: seq<char>, mem: seq<char>)
    requires 1 <= |contents| <= RINGBUF_SIZE && |mem| == SIZE_T - 1
    ensures WriteMemEffect(contents, mem) == (contents + mem[..RINGBUF_SIZE - |contents|], 0)
    ensures !AllOrNothing(contents, mem, WriteMemEffect(contents, mem))
  {
    WriteMemAllOrNothing(contents, mem);
    assert (|contents| + |mem|) % SIZE_T == |contents| - 1;
  }

  // ----- The stream law -----

  datatype BufferOp = Put(byte: char) | Get | PutMany(mem: seq<char>) | GetMany(n: nat)

  /** The bytes accepted, the bytes delivered and the bytes held. */
  datatype Stream = Stream(accepted: seq<char>, delivered: seq<char>, held: seq<char>)

  function Apply(s: Stream, op: BufferOp): Stream
    requires |s.held| <= RINGBUF_SIZE
  {
    match op
    case Put(b) =>
      if |s.held| == RINGBUF_SIZE then s else s.(accepted := s.accepted + [b], held := s.held + [b])
    case Get =>
      if s.held == [] then s else s.(delivered := s.delivered + [s.held[0]], held := s.held[1..])
    case PutMany(mem) =>
      s.(accepted := s.accepted + Accepted(s.held, mem), held := WriteMemEffect(s.held, mem).0)
    case GetMany(n) =>
      var t := Taken(s.held, n);
      s.(delivered := s.delivered + t, held := s.held[|t|..])
  }

  ghost predicate Conserved(s: Stream) {
    s.accepted == s.delivered + s.held && |s.held| <= RINGBUF_SIZE
  }

  lemma ApplyConserves(s: Stream, op: BufferOp)
    requires Conserved(s)
    ensures Conserved(Apply(s, op))
  {
    match op
    case Put(b) =>
      assert s.delivered + (s.held + [b]) == (s.delivered + s.held) + [b];
    case Get =>
      if s.held != [] {
        assert s.delivered + s.held == (s.delivered + [s.held[0]]) + s.held[1..];
      }
    case PutMany(mem) =>
      var a := Accepted(s.held, mem);
      assert s.delivered + (s.held + a) == (s.delivered + s.held) + a;
    case GetMany(n) =>
      var t := Taken(s.held, n);
      assert s.held == t + s.held[|t|..];
      assert s.delivered + (t + s.held[|t|..]) == (s.delivered + t) + s.held[|t|..];
  }

  function ApplyAll(s: Stream, ops: seq<BufferOp>): (r: Stream)
    requires Conserved(s)
    ensures Conserved(r)
    decreases |ops|
  {
    if ops == [] then s
    else
      ApplyConserves(s, ops[0]);
      ApplyAll(Apply(s, ops[0]), ops[1..])
  }

  /** Over any interleaving of reads and writes no byte is lost, invented or reordered. */
  lemma StreamLaw(ops: seq<BufferOp>)
    ensures var s := ApplyAll(Stream([], [], []), ops);
            s.accepted == s.delivered + s.held && |s.held| <= RINGBUF_SIZE
  {
    var s := ApplyAll(Stream([], [], []), ops);
    assert Conserved(s);
  }

  /** A bulk read delivers exactly what as many single reads deliver. */
  lemma {:induction false} BulkIsRepeated(s: Stream, n: nat)
    requires Conserved(s)
    ensures ApplyAll(s, [GetMany(n)]) == ApplyAll(s, seq(n, i => Get))
    decreases n
  {
    var one := Apply(s, GetMany(n));
    assert [GetMany(n)][1..] == [];
    assert ApplyAll(s, [GetMany(n)]) == ApplyAll(one, []) by { ApplyConserves(s, GetMany(n)); }
    GetsAre(s, n);
  }

  lemma {:induction false} GetsAre(s: Stream, n: nat)
    requires Conserved(s)
    ensures ApplyAll(s, seq(n, i => Get)) == Apply(s, GetMany(n))
    decreases n
  {
    var gets := seq(n, i => Get);
    if n > 0 {
      ApplyConserves(s, Get);
      assert gets[1..] == seq(n - 1, i => Get);
      GetsAre(Apply(s, Get), n - 1);
      if s.held != [] {
        var t := Taken(s.held, n);
        assert t == [s.held[0]] + Taken(s.held[1..], n - 1);
        assert s.delivered + t == (s.delivered + [s.held[0]]) + Taken(s.held[1..], n - 1);
      }
    } else {
      assert s.delivered + [] == s.delivered;
    }
  }

  /** The sizes that a size_t can hold. */
  predicate Sized(op: BufferOp) {
    match op
    case PutMany(mem) => |mem| < SIZE_T
    case GetMany(n) => n < SIZE_T
    case _ => true
  }

  /** One operation on a real buffer, and the bytes that it delivers. */
  method Do(b: RingBuffer, op: BufferOp) returns (out: seq<char>)
    requires b.Valid() && Sized(op)
    modifies b, b.data
    ensures b.Valid() && |old(b.contents)| <= RINGBUF_SIZE
    ensures forall a, d :: Apply(Stream(a, d, old(b.contents)), op).held == b.contents
    ensures forall a, d :: Apply(Stream(a, d, old(b.contents)), op).delivered == d + out
  {
    out := [];
    match op {
      case Put(x) =>
        var rc := b.Write(x);
      case Get =>
        var rc, x := b.Read();
        if rc == 0 {
          out := [x];
        }
      case PutMany(mem) =>
        var rc := b.WriteMem(mem);
      case GetMany(n) =>
        out := b.ReadMem(n);
    }
  }

  /** Any sequence of operations on a real buffer delivers and holds what the stream says. */
  method Drive(b: RingBuffer, ops: seq<BufferOp>) returns (delivered: seq<char>)
    requires b.Valid() && forall i | 0 <= i < |ops| :: Sized(ops[i])
    modifies b, b.data
    ensures b.Valid() && |old(b.contents)| <= RINGBUF_SIZE
    ensures var s := ApplyAll(Stream(old(b.contents), [], old(b.contents)), ops);
            s.delivered == delivered && s.held == b.contents && s.accepted == delivered + b.contents
  {
    ghost var start := Stream(b.contents, [], b.contents);
    ghost var s := start;
    assert Conserved(s);
    delivered := [];
    var i := 0;
    while i < |ops|
      invariant 0 <= i <= |ops| && b.Valid()
      invariant Conserved(s) && s.delivered == delivered && s.held == b.contents
      invariant ApplyAll(start, ops) == ApplyAll(s, ops[i..])
    {
      assert ops[i..][1..] == ops[i + 1..];
      ApplyConserves(s, ops[i]);
      var out := Do(b, ops[i]);
      s := Apply(s, ops[i]);
      delivered := delivered + out;
      i := i + 1;
    }
  }
}
