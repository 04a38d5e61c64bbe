/** What the loop of scheduler_remove does to a queue, although its bound shrinks under it. */
module RemoveOrder {
  import opened Seqs
  import opened KernelModel

  /** The loop from iteration i on, no member being the one sought: a rotation. */
  lemma {:induction false} RotateRest(q: seq<int>, pid: int, i: nat)
    requires pid !in q && i <= |q|
    ensures RemoveLoop(q, pid, i) == q[|q| - i..] + q[..|q| - i]
    decreases |q| - i
  {
    if i < |q| {
      var q' := q[1..] + [q[0]];
      RotateRest(q', pid, i + 1);
      assert RemoveLoop(q, pid, i) == RemoveLoop(q', pid, i + 1);
      hide RemoveLoop;
      TurnedSlices(q, |q| - i - 1);
    } else {
      assert q[0..] + q[..0] == q;
    }
  }

  lemma TurnedSlices(q: seq<int>, n: nat)
    requires n < |q|
    ensures var q' := q[1..] + [q[0]]; q'[n..] + q'[..n] == q[n + 1..] + q[..n + 1]
  {
    var q' := q[1..] + [q[0]];
    assert q'[n..] == q[n + 1..] + [q[0]];
    assert q'[..n] == q[1..n + 1];
    assert [q[0]] + q[1..n + 1] == q[..n + 1];
  }

  /** Members before the one sought go round to the tail. */
  lemma {:induction false} RotateTo(a: seq<int>, pid: int, c: seq<int>, i: nat)
    requires pid !in a && i <= |c|
    ensures RemoveLoop(a + [pid] + c, pid, i) == RemoveLoop([pid] + c + a, pid, i + |a|)
    decreases |a|
  {
    if a == [] {
      assert a + [pid] + c == [pid] + c + a;
    } else {
      var q := a + [pid] + c;
      assert q[1..] + [q[0]] == a[1..] + [pid] + (c + [a[0]]);
      RotateTo(a[1..], pid, c + [a[0]], i + 1);
      assert [pid] + (c + [a[0]]) + a[1..] == [pid] + c + a;
    }
  }

  /** An absent pid leaves the queue as it is. */
  lemma RemoveAbsent(q: seq<int>, pid: int)
    requires pid !in q
    ensures RemoveLoop(q, pid, 0) == q
  {
    RotateRest(q, pid, 0);
    assert q[|q|..] + q[..|q|] == q;
  }

  /**
   A pid that occurs once is removed. If it was last the others keep their order,
   otherwise they come out rotated right by one.
   */
  lemma RemovePresent(a: seq<int>, pid: int, b: seq<int>)
    requires pid !in a && pid !in b
    ensures RemoveLoop(a + [pid] + b, pid, 0)
         == if b == [] then a else [b[|b| - 1]] + a + b[..|b| - 1]
  {
    RemoveOnce(a, pid, b);
    RotateLast(a, pid, b);
  }

  lemma RotateLast(a: seq<int>, pid: int, b: seq<int>)
    requires pid !in a && pid !in b
    ensures RemoveLoop(b + a, pid, |a| + 1)
         == if b == [] then a else [b[|b| - 1]] + a + b[..|b| - 1]
  {
    if b == [] {
      assert b + a == a;
    } else {
      SplitLast(a, b);
      RotateRest(b + a, pid, |a| + 1);
    }
  }

  lemma RemoveOnce(a: seq<int>, pid: int, b: seq<int>)
    requires pid !in a
    ensures RemoveLoop(a + [pid] + b, pid, 0) == RemoveLoop(b + a, pid, |a| + 1)
  {
    RotateTo(a, pid, b, 0);
    RemoveHead(pid, b + a, |a|);
    assert [pid] + (b + a) == [pid] + b + a;
  }

  lemma RemoveHead(pid: int, c: seq<int>, i: nat)
    requires i <= |c|
    ensures RemoveLoop([pid] + c, pid, i) == RemoveLoop(c, pid, i + 1)
  {
    assert ([pid] + c)[1..] == c;
  }

  lemma SplitLast(a: seq<int>, b: seq<int>)
    requires b != []
    ensures var n := |b| - 1;
            && |b + a| - (|a| + 1) == n
            && (b + a)[n..] + (b + a)[..n] == [b[n]] + a + b[..n]
  {
  }

  /** The other members of q, in their order. */
  function Others(q: seq<int>, pid: int): seq<int>
    requires pid in q
  {
    var j := IndexOf(q, pid);
    q[..j] + q[j + 1..]
  }

  function RotatedRight(s: seq<int>): seq<int> {
    if s == [] then [] else [s[|s| - 1]] + s[..|s| - 1]
  }

  /** RemovePresent, told from the queue alone: the cyclic order of the others stays. */
  lemma RemoveKeepsCycle(q: seq<int>, pid: int)
    requires NoDup(q)
    ensures pid !in q ==> RemoveLoop(q, pid, 0) == q
    ensures pid in q ==>
              RemoveLoop(q, pid, 0) ==
                if IndexOf(q, pid) == |q| - 1 then Others(q, pid) else RotatedRight(Others(q, pid))
  {
    hide RemoveLoop, NoDup, RotatedRight;
    if pid !in q {
      RemoveAbsent(q, pid);
    } else {
      var j := IndexOf(q, pid);
      SplitAt(q, pid);
      RemovePresent(q[..j], pid, q[j + 1..]);
      RotatedParts(q[..j], q[j + 1..]);
    }
  }

  lemma SplitAt(q: seq<int>, pid: int)
    requires NoDup(q) && pid in q
    ensures var j := IndexOf(q, pid);
            && q == q[..j] + [pid] + q[j + 1..]
            && pid !in q[..j] && pid !in q[j + 1..]
  {
  }

  lemma RotatedParts(a: seq<int>, b: seq<int>)
    ensures b == [] ==> a + b == a
    ensures b != [] ==> RotatedRight(a + b) == [b[|b| - 1]] + a + b[..|b| - 1]
  {
    if b != [] {
      assert (a + b)[..|a + b| - 1] == a + b[..|b| - 1];
    }
  }

  /** Exactly the pid goes. */
  lemma RemoveTakesOne(q: seq<int>, pid: int)
    requires NoDup(q)
    ensures multiset(RemoveLoop(q, pid, 0)) == multiset(q) - multiset{pid}
  {
    RemoveKeepsCycle(q, pid);
    hide RemoveLoop;
    if pid in q {
      SplitAt(q, pid);
      hide NoDup;
      var s := Others(q, pid);
      assert multiset(q) == multiset(s) + multiset{pid};
      RotationKeeps(s);
    }
  }

  lemma RotationKeeps(s: seq<int>)
    ensures multiset(RotatedRight(s)) == multiset(s)
  {
    if s != [] {
      assert s == s[..|s| - 1] + [s[|s| - 1]];
    }
  }

  /**
   The linear order of the others is kept exactly when the pid was last or there is only
   one other member.
   */
  lemma RemoveLinearExact(q: seq<int>, pid: int)
    requires NoDup(q) && pid in q
    ensures RemoveLoop(q, pid, 0) == Others(q, pid) <==> IndexOf(q, pid) == |q| - 1 || |q| == 2
  {
    RemoveKeepsCycle(q, pid);
    hide RemoveLoop;
    var j, s := IndexOf(q, pid), Others(q, pid);
    if j < |q| - 1 && |q| > 2 {
      assert s[|s| - 1] == q[|q| - 1] && s[0] == q[if j == 0 then 1 else 0];
      assert RotatedRight(s)[0] != s[0];
    }
  }

  /** The shortest queue whose order is lost. */
  lemma RemoveBreaksLinearOrder()
    ensures RemoveLoop([1, 2, 3], 1, 0) == [3, 2] != [2, 3] == Others([1, 2, 3], 1)
  {
    RemovePresent([], 1, [2, 3]);
    assert [] + [1] + [2, 3] == [1, 2, 3];
    assert IndexOf([1, 2, 3], 1) == 0;
  }

  /** What is left of a queue when pid goes. */
  function Without(q: seq<int>, pid: int): seq<int> {
    if pid !in q then q
    else if IndexOf(q, pid) == |q| - 1 then Others(q, pid)
    else RotatedRight(Others(q, pid))
  }

  /**
   scheduler_remove on the whole state: only the queue that the process is in changes, by
   that one pid, and the processor is given up only by the active process.
   */
  lemma SchedulerRemoveExact(k: Kernel, e: Entry)
    requires e != NULL && NoDup(k.run) && NoDup(k.sleep)
    ensures var p := k.procs[e];
            SchedulerRemove(k, e) ==
              k.(run := if p.queue == RunQueue then Without(k.run, p.pid) else k.run,
                 sleep := if p.queue == SleepQueue then Without(k.sleep, p.pid) else k.sleep,
                 procs := k.procs[e := p.(queue := NoQueue)],
                 active := if e == k.active then NULL else k.active)
    ensures multiset(Without(k.run, k.procs[e].pid)) == multiset(k.run) - multiset{k.procs[e].pid}
    ensures multiset(Without(k.sleep, k.procs[e].pid)) == multiset(k.sleep) - multiset{k.procs[e].pid}
  {
    var p := k.procs[e];
    RemoveIs(k.run, p.pid);
    RemoveIs(k.sleep, p.pid);
    hide RemoveLoop, NoDup, Without;
    assert p.queue == NoQueue ==> k.procs[e := p.(queue := NoQueue)] == k.procs;
  }

  lemma RemoveIs(q: seq<int>, pid: int)
    requires NoDup(q)
    ensures RemoveLoop(q, pid, 0) == Without(q, pid)
    ensures multiset(Without(q, pid)) == multiset(q) - multiset{pid}
  {
    hide RemoveLoop, NoDup, Others, RotatedRight;
    RemoveKeepsCycle(q, pid);
    RemoveTakesOne(q, pid);
  }
}
