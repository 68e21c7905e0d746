/** Assigning engines to completion threads (xdma_thread.c). */
module WorkThreads {

  type EngineId = nat

  /** struct xdma_kthread: the engines it polls, and how many. */
  datatype KThread = KThread(workCnt: nat, workList: seq<EngineId>)

  function Counts(threads: seq<KThread>): (c: seq<nat>)
    ensures |c| == |threads| && forall i | 0 <= i < |threads| :: c[i] == threads[i].workCnt
  {
    seq(|threads|, i requires 0 <= i < |threads| => threads[i].workCnt)
  }

  // --- which thread is picked -----------------------------------------------------------------

  /** The first idle thread but the first one; failing that the last one with less work than the
      first one; failing that the first one. */
  ghost predicate IsPick(c: seq<nat>, idx: nat) {
    && idx < |c|
    && (idx == 0 ==> forall i | 1 <= i < |c| :: 0 < c[i] && c[0] <= c[i])
    && (0 < idx && c[idx] == 0 ==> forall i | 1 <= i < idx :: 0 < c[i])
    && (0 < idx && c[idx] != 0 ==>
          c[idx] < c[0] && (forall i | 1 <= i < |c| :: 0 < c[i]) && forall i | idx < i < |c| :: c[0] <= c[i])
  }

  /** Work counts differ by at most d. */
  ghost predicate Within(c: seq<nat>, d: nat) {
    forall i, j | 0 <= i < |c| && 0 <= j < |c| :: c[i] <= c[j] + d
  }

  /** From a state where counts differ by at most one, the pick is a least loaded thread, although
      the scan compares with the first thread only. */
  lemma BalancedPickIsLeast(c: seq<nat>, idx: nat)
    requires Within(c, 1) && IsPick(c, idx)
    ensures forall i | 0 <= i < |c| :: c[idx] <= c[i]
  {
    forall i | 0 <= i < |c| ensures c[idx] <= c[i] {
      assert c[0] <= c[i] + 1;
    }
  }

  /** Adding work never spreads the counts further than they are, or than one. */
  lemma AddKeepsWithin(c: seq<nat>, idx: nat, d: nat)
    requires Within(c, d) && 1 <= d && IsPick(c, idx)
    ensures Within(c[idx := c[idx] + 1], d)
  {
    var after := c[idx := c[idx] + 1];
    forall i, j | 0 <= i < |c| && 0 <= j < |c| ensures after[i] <= after[j] + d {
      assert c[i] <= c[j] + d;
      assert c[0] <= c[j] + d;
    }
  }

  ghost predicate AddStep(c: seq<nat>, c1: seq<nat>) {
    exists idx: nat :: IsPick(c, idx) && c1 == c[idx := c[idx] + 1]
  }

  /** Any number of adds from a balanced state stays balanced; in general the counts never get
      further apart than they were at the start. */
  lemma {:induction false} AddsStayWithin(s: seq<seq<nat>>, d: nat, k: nat)
    requires forall i | 0 <= i < |s| - 1 :: AddStep(s[i], s[i + 1])
    requires k < |s| && Within(s[0], d) && 1 <= d
    ensures Within(s[k], d)
  {
    if k > 0 {
      AddsStayWithin(s, d, k - 1);
      hide Within, IsPick;
      assert AddStep(s[k - 1], s[k - 1 + 1]);
      var idx: nat :| IsPick(s[k - 1], idx) && s[k] == s[k - 1][idx := s[k - 1][idx] + 1];
      AddKeepsWithin(s[k - 1], idx, d);
    }
  }

  ghost predicate SomeIdle(c: seq<nat>) { exists i :: 1 <= i < |c| && c[i] == 0 }

  ghost predicate FirstIsLeast(c: seq<nat>) { forall i | 0 <= i < |c| :: c[0] <= c[i] }

  /** The last thread with less work than the first one. */
  ghost predicate IsLastBelow(c: seq<nat>, m: nat) {
    0 < m < |c| && c[m] < c[0] && forall i | m < i < |c| :: c[0] <= c[i]
  }

  /** In an unbalanced state the pick need not be a least loaded thread. It is one exactly when some
      thread but the first is idle, or the first has least work, or the last thread with less work
      than the first has no more than those between the two. */
  lemma PickIsLeastIff(c: seq<nat>, idx: nat)
    requires IsPick(c, idx)
    ensures (forall i | 0 <= i < |c| :: c[idx] <= c[i])
       <==> SomeIdle(c) || FirstIsLeast(c) || exists m: nat :: IsLastBelow(c, m) && forall i | 1 <= i < m :: c[m] <= c[i]
  {
    if 0 < idx && c[idx] != 0 {
      assert IsLastBelow(c, idx);
      assert !SomeIdle(c) && c[idx] < c[0];
      forall m: nat | IsLastBelow(c, m) ensures m == idx {}
    }
  }

  lemma UnbalancedPick()
    ensures var c := [5, 1, 3]; IsPick(c, 2) && c[1] < c[2]
  {
  }

  // --- the lists ---------------------------------------------------------------------------------

  function Without(s: seq<EngineId>, e: EngineId): (r: seq<EngineId>)
    ensures forall x :: x in r <==> x in s && x != e
  {
    if s == [] then []
    else if s[0] == e then Without(s[1..], e)
    else [s[0]] + Without(s[1..], e)
  }

  ghost predicate NoDuplicates(s: seq<EngineId>) {
    forall i, j | 0 <= i < j < |s| :: s[i] != s[j]
  }

  lemma {:induction false} WithoutNothing(s: seq<EngineId>, e: EngineId)
    requires e !in s
    ensures Without(s, e) == s
  {
    if s != [] { WithoutNothing(s[1..], e); }
  }

  lemma {:induction false} WithoutOne(s: seq<EngineId>, e: EngineId)
    requires NoDuplicates(s) && e in s
    ensures |Without(s, e)| == |s| - 1 && NoDuplicates(Without(s, e))
  {
    if s[0] == e {
      assert e !in s[1..];
      WithoutNothing(s[1..], e);
    } else {
      WithoutOne(s[1..], e);
      assert s[0] !in Without(s[1..], e);
    }
  }

  /** Taking an engine off a list keeps the order of the others. */
  lemma {:induction false} WithoutKeepsOrder(a: seq<EngineId>, e: EngineId, b: seq<EngineId>)
    requires e !in a && e !in b
    ensures Without(a + [e] + b, e) == a + b
    decreases |a|
  {
    var s := a + [e] + b;
    if a == [] {
      assert s[1..] == b && a + b == b;
      WithoutNothing(b, e);
    } else {
      assert s[1..] == a[1..] + [e] + b && a + b == [a[0]] + (a[1..] + b);
      WithoutKeepsOrder(a[1..], e, b);
    }
  }

  class Threads {
    /** cs_threads */
    const threads: array<KThread>
    /** engine->cmplthp of every engine that has one. */
    var cmplthp: map<EngineId, nat>

    /** Every engine is on the list of its thread and on no other, and counts are list lengths. */
    ghost predicate Valid()
      reads this, threads
    {
      && 0 < threads.Length
      && (forall i | 0 <= i < threads.Length ::
            threads[i].workCnt == |threads[i].workList| && NoDuplicates(threads[i].workList))
      && (forall e | e in cmplthp :: cmplthp[e] < threads.Length)
      && (forall i, e | 0 <= i < threads.Length :: e in threads[i].workList <==> e in cmplthp && cmplthp[e] == i)
    }

    constructor (num: nat)
      requires 0 < num
      ensures Valid() && fresh(threads) && threads.Length == num && cmplthp == map[]
      ensures Within(Counts(threads[..]), 0)
    {
      threads := new KThread[num](_ => KThread(0, []));
      cmplthp := map[];
    }

    /** The scan of xdma_thread_add_work. */
    method PickThread() returns (idx: nat)
      requires 0 < threads.Length
      ensures IsPick(Counts(threads[..]), idx)
    {
      var v := 0;
      idx := threads.Length;
      for i := 0 to threads.Length
        invariant i == 0 ==> idx == threads.Length
        invariant 0 < i ==> v == threads[0].workCnt && idx < i
        invariant forall j | 1 <= j < i :: 0 < threads[j].workCnt
        invariant 0 < i && idx == 0 ==> forall j | 1 <= j < i :: v <= threads[j].workCnt
        invariant 0 < i && 0 < idx ==> threads[idx].workCnt < v && forall j | idx < j < i :: v <= threads[j].workCnt
      {
        if idx == threads.Length {
          v := threads[i].workCnt;
          idx := i;
        } else if threads[i].workCnt == 0 {
          idx := i;
          break;
        } else if threads[i].workCnt < v {
          idx := i;
        }
      }
    }

    /** xdma_thread_add_work */
    method AddWork(engine: EngineId) returns (idx: nat)
      requires Valid() && engine !in cmplthp
      modifies this, threads
      ensures Valid() && IsPick(old(Counts(threads[..])), idx)
      ensures cmplthp == old(cmplthp)[engine := idx]
      ensures threads[..] == old(threads[..])[idx := KThread(old(threads[idx].workCnt) + 1, old(threads[idx].workList) + [engine])]
    {
      idx := PickThread();
      threads[idx] := KThread(threads[idx].workCnt + 1, threads[idx].workList + [engine]);
      cmplthp := cmplthp[engine := idx];
    }

    /** xdma_thread_remove_work; an engine without a thread is left alone. */
    method RemoveWork(engine: EngineId)
      requires Valid()
      modifies this, threads
      ensures Valid() && cmplthp == old(cmplthp) - {engine}
      ensures engine !in old(cmplthp) ==> threads[..] == old(threads[..])
      ensures engine in old(cmplthp) ==>
        var i := old(cmplthp)[engine];
        threads[..] == old(threads[..])[i := KThread(old(threads[i].workCnt) - 1, Without(old(threads[i].workList), engine))]
    {
      if engine in cmplthp {
        var i := cmplthp[engine];
        cmplthp := cmplthp - {engine};
        assert engine in threads[i].workList;
        WithoutOne(threads[i].workList, engine);
        threads[i] := KThread(threads[i].workCnt - 1, Without(threads[i].workList, engine));
      }
    }
  }
}
