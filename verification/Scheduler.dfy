/** Round-robin choice over any number of process slots, and its fairness. */
module Scheduler {

  /** Slots from cur forward to p, counting cyclically: 1 for the next slot, |slots| for cur itself. */
  function Distance(n: int, cur: int, p: int): int
  {
    if p > cur then p - cur else p - cur + n
  }

  /** next is the runnable slot at least cyclic distance after cur. */
  ghost predicate IsNext(runnable: seq<bool>, cur: int, next: int)
  {
    && 0 <= cur < |runnable| && 0 <= next < |runnable| && runnable[next]
    && forall q :: 0 <= q < |runnable| && runnable[q] ==>
         Distance(|runnable|, cur, next) <= Distance(|runnable|, cur, q)
  }

  /** The next slot is unique: no two slots are equally far. */
  lemma NextUnique(runnable: seq<bool>, cur: int, a: int, b: int)
    requires IsNext(runnable, cur, a) && IsNext(runnable, cur, b)
    ensures a == b
  {
    assert runnable[a] && runnable[b];
  }

  /** The k-th slot after cur, counting upwards and around. */
  function Slot(n: int, cur: int, k: int): int
  {
    if cur + k < n then cur + k else cur + k - n
  }

  /** next is runnable, and none of the slots after cur and before it is; the whole round ends at cur itself. */
  ghost predicate FirstAfter(runnable: seq<bool>, cur: int, next: int)
    requires 0 <= cur < |runnable|
  {
    exists k :: 1 <= k <= |runnable| && next == Slot(|runnable|, cur, k) && runnable[next]
                && forall j :: 1 <= j < k ==> !runnable[Slot(|runnable|, cur, j)]
  }

  /** The nearest runnable slot is the first one the scan comes to. */
  lemma NextIsFirst(runnable: seq<bool>, cur: int, next: int)
    requires 0 <= cur < |runnable|
    ensures IsNext(runnable, cur, next) <==> FirstAfter(runnable, cur, next)
  {
    var n := |runnable|;
    if IsNext(runnable, cur, next) {
      var k := Distance(n, cur, next);
      assert next == Slot(n, cur, k);
      forall j | 1 <= j < k
        ensures !runnable[Slot(n, cur, j)]
      {
        assert Distance(n, cur, Slot(n, cur, j)) == j;
      }
    } else if FirstAfter(runnable, cur, next) {
      var k :| 1 <= k <= n && next == Slot(n, cur, k) && runnable[next]
               && forall j :: 1 <= j < k ==> !runnable[Slot(n, cur, j)];
      forall q | 0 <= q < n && runnable[q]
        ensures k <= Distance(n, cur, q)
      {
        assert q == Slot(n, cur, Distance(n, cur, q));
      }
    }
  }

  /** Passing over a runnable slot brings the scan strictly closer to it. */
  lemma PassedOver(runnable: seq<bool>, cur: int, next: int, q: int)
    requires IsNext(runnable, cur, next) && 0 <= q < |runnable| && runnable[q] && q != next
    ensures Distance(|runnable|, next, q) < Distance(|runnable|, cur, q)
    ensures 1 <= Distance(|runnable|, cur, q) <= |runnable|
  {
  }

  /** currents is a sequence of choices, each made over the slots runnable at the time. */
  ghost predicate Choices(rs: seq<seq<bool>>, currents: seq<int>, n: int)
  {
    && |currents| == |rs| + 1 && 0 <= currents[0] < n
    && forall k :: 0 <= k < |rs| ==> |rs[k]| == n && IsNext(rs[k], currents[k], currents[k + 1])
  }

  /** A slot that stays runnable and is not chosen gets closer with every choice. */
  lemma {:induction false} StillWaiting(rs: seq<seq<bool>>, currents: seq<int>, n: int, q: int, k: nat)
    requires Choices(rs, currents, n) && 0 <= q < n && k <= |rs|
    requires forall j :: 0 <= j < k ==> rs[j][q] && currents[j + 1] != q
    ensures 0 <= currents[k] < n && Distance(n, currents[k], q) <= n - k
  {
    if k != 0 {
      StillWaiting(rs, currents, n, q, k - 1);
      assert IsNext(rs[k - 1], currents[k - 1], currents[k - 1 + 1]);
      PassedOver(rs[k - 1], currents[k - 1], currents[k], q);
    }
  }

  /** Fairness: among n consecutive choices, a slot runnable throughout is chosen. */
  lemma Fair(rs: seq<seq<bool>>, currents: seq<int>, n: int, q: int)
    requires Choices(rs, currents, n) && 0 <= q < n && |rs| == n
    requires forall j :: 0 <= j < n ==> rs[j][q]
    ensures exists k :: 1 <= k <= n && currents[k] == q
  {
    if forall k :: 1 <= k <= n ==> currents[k] != q {
      StillWaiting(rs, currents, n, q, n);
    }
  }

  /** The scan of schedule: step to the next slot until one is runnable. */
  method Next(runnable: seq<bool>, cur: int) returns (pid: int)
    requires 0 <= cur < |runnable| && exists q :: 0 <= q < |runnable| && runnable[q]
    ensures IsNext(runnable, cur, pid) && FirstAfter(runnable, cur, pid)
  {
    var n := |runnable|;
    ghost var q :| 0 <= q < n && runnable[q];
    pid := Step(cur, n);
    while !runnable[pid]
      invariant 0 <= pid < n
      invariant Distance(n, cur, pid) <= Distance(n, cur, q)
      invariant forall p :: 0 <= p < n && runnable[p] ==> Distance(n, cur, pid) <= Distance(n, cur, p)
      decreases Distance(n, cur, q) - Distance(n, cur, pid)
    {
      pid := Step(pid, n);
    }
    NextIsFirst(runnable, cur, pid);
  }

  /** (pid + 1) % n. */
  function Step(pid: int, n: int): (r: int)
    requires 0 <= pid < n
    ensures 0 <= r < n && r == if pid + 1 == n then 0 else pid + 1
  {
    (pid + 1) % n
  }
}
