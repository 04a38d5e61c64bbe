/** Facts about duplicate-free integer sequences, shared by the queue proofs. */
module Seqs {

  predicate NoDup(q: seq<int>) {
    forall i, j | 0 <= i < j < |q| :: q[i] != q[j]
  }

  /** The position of x in q. */
  function IndexOf(q: seq<int>, x: int): (i: nat)
    requires x in q
    ensures i < |q| && q[i] == x
    ensures x !in q[..i]
  {
    if q[0] == x then 0 else 1 + IndexOf(q[1..], x)
  }

  function Range(lo: int, hi: int): (s: set<int>)
    requires lo <= hi
    ensures |s| == hi - lo
    ensures forall x :: x in s <==> lo <= x < hi
    decreases hi - lo
  {
    if lo == hi then {} else {lo} + Range(lo + 1, hi)
  }

  function Elements(q: seq<int>): (s: set<int>)
    ensures forall x :: x in s <==> x in q
  {
    set x | x in q
  }

  lemma {:induction false} NoDupSize(q: seq<int>)
    requires NoDup(q)
    ensures |Elements(q)| == |q|
  {
    if q == [] {
      assert Elements(q) == {};
    } else {
      NoDupSize(q[1..]);
      assert q == [q[0]] + q[1..];
      assert q[0] !in q[1..];
      assert Elements(q) == {q[0]} + Elements(q[1..]);
    }
  }

  lemma SubsetSize(a: set<int>, b: set<int>)
    requires a <= b
    ensures |a| <= |b|
  {
    assert b == a + (b - a);
  }

  /** A duplicate-free sequence drawn from [lo, hi) has at most hi - lo members. */
  lemma Pigeonhole(q: seq<int>, lo: int, hi: int)
    requires lo <= hi && NoDup(q)
    requires forall i | 0 <= i < |q| :: lo <= q[i] < hi
    ensures |q| <= hi - lo
  {
    NoDupSize(q);
    SubsetSize(Elements(q), Range(lo, hi));
  }

  lemma NoDupConcat(a: seq<int>, b: seq<int>)
    requires NoDup(a) && NoDup(b)
    requires forall x | x in a :: x !in b
    ensures NoDup(a + b)
  {
    forall i, j | 0 <= i < j < |a + b|
      ensures (a + b)[i] != (a + b)[j]
    {
      if i < |a| <= j {
        assert a[i] in a && b[j - |a|] in b;
      }
    }
  }
}
