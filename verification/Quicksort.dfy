/** The explicit-stack quicksort with a sentinel insertion sort, over any total preorder. */
module Quicksort {
  import opened Words

  const MAX_THRESH := 4
  const STACK_SIZE := 64

  /** What the comparison must be: consistent signs, and transitive. */
  ghost predicate TotalPreorder<T(!new)>(cmp: (T, T) -> int)
  {
    && (forall x, y :: cmp(x, y) < 0 <==> cmp(y, x) > 0)
    && (forall x, y, z :: cmp(x, y) <= 0 && cmp(y, z) <= 0 ==> cmp(x, z) <= 0)
  }

  predicate Le<T>(cmp: (T, T) -> int, x: T, y: T)
  {
    cmp(x, y) <= 0
  }

  lemma Trans<T(!new)>(cmp: (T, T) -> int, x: T, y: T, z: T)
    requires TotalPreorder(cmp) && Le(cmp, x, y) && Le(cmp, y, z)
    ensures Le(cmp, x, z)
  {
  }

  /** A failed "less than" is the reverse "at most". */
  lemma NotLess<T(!new)>(cmp: (T, T) -> int, x: T, y: T)
    requires TotalPreorder(cmp)
    ensures cmp(x, y) < 0 <==> !Le(cmp, y, x)
    ensures cmp(x, y) < 0 ==> Le(cmp, x, y)
    ensures Le(cmp, x, x)
  {
  }

  ghost predicate Sorted<T>(cmp: (T, T) -> int, s: seq<T>)
  {
    forall i, j :: 0 <= i < j < |s| ==> Le(cmp, s[i], s[j])
  }

  // ----- cuts ----------------------------------------------------------------------

  /** Nothing before c exceeds anything from c on. */
  ghost predicate Cut<T>(cmp: (T, T) -> int, s: seq<T>, c: int)
  {
    forall i, j :: 0 <= i < c <= j < |s| ==> Le(cmp, s[i], s[j])
  }

  ghost predicate AllCuts<T>(cmp: (T, T) -> int, s: seq<T>, cuts: set<int>)
  {
    forall c :: c in cuts ==> Cut(cmp, s, c)
  }

  function Swapped<T>(s: seq<T>, i: int, j: int): seq<T>
    requires 0 <= i < |s| && 0 <= j < |s|
  {
    s[i := s[j]][j := s[i]]
  }

  lemma SwapMultiset<T>(s: seq<T>, i: int, j: int)
    requires 0 <= i < |s| && 0 <= j < |s|
    ensures multiset(Swapped(s, i, j)) == multiset(s)
  {
  }

  /** A rearrangement of s within [lo, hi]. */
  ghost predicate Rearranged<T>(s: seq<T>, t: seq<T>, lo: int, hi: int)
  {
    && |t| == |s| && multiset(t) == multiset(s)
    && (forall i :: 0 <= i < |s| && !(lo <= i <= hi) ==> t[i] == s[i])
    && forall i :: 0 <= i < |s| && lo <= i <= hi ==> FoundIn(s, t[i], lo, hi)
  }

  ghost predicate FoundIn<T>(s: seq<T>, x: T, lo: int, hi: int)
  {
    exists k :: lo <= k <= hi && 0 <= k < |s| && s[k] == x
  }

  lemma SwapRearranges<T>(s: seq<T>, t: seq<T>, i: int, j: int, lo: int, hi: int)
    requires Rearranged(s, t, lo, hi) && 0 <= lo <= i <= hi < |s| && lo <= j <= hi
    ensures Rearranged(s, Swapped(t, i, j), lo, hi)
  {
    SwapMultiset(t, i, j);
    var u := Swapped(t, i, j);
    forall x | 0 <= x < |s| && lo <= x <= hi
      ensures FoundIn(s, u[x], lo, hi)
    {
      var y := if x == i then j else if x == j then i else x;
      assert u[x] == t[y];
    }
  }

  /** Rearranging between two neighbouring cuts keeps every cut. */
  lemma RearrangeKeepsCuts<T>(cmp: (T, T) -> int, s: seq<T>, t: seq<T>, lo: int, hi: int, cuts: set<int>)
    requires Rearranged(s, t, lo, hi) && AllCuts(cmp, s, cuts)
    requires forall c :: c in cuts ==> c <= lo || hi < c
    ensures AllCuts(cmp, t, cuts)
  {
    forall c, i, j | c in cuts && 0 <= i < c <= j < |t|
      ensures Le(cmp, t[i], t[j])
    {
      assert lo <= i <= hi ==> FoundIn(s, t[i], lo, hi);
      assert lo <= j <= hi ==> FoundIn(s, t[j], lo, hi);
      var i0 := if lo <= i <= hi then (var k :| lo <= k <= hi && 0 <= k < |s| && s[k] == t[i]; k) else i;
      var j0 := if lo <= j <= hi then (var k :| lo <= k <= hi && 0 <= k < |s| && s[k] == t[j]; k) else j;
      assert Cut(cmp, s, c);
      assert i0 < c <= j0 && t[i] == s[i0] && t[j] == s[j0];
    }
  }

  method Swap<T>(a: array<T>, i: int, j: int)
    requires 0 <= i < a.Length && 0 <= j < a.Length
    modifies a
    ensures a[..] == Swapped(old(a[..]), i, j)
    ensures a[i] == old(a[j]) && a[j] == old(a[i])
    ensures forall k :: 0 <= k < a.Length && k != i && k != j ==> a[k] == old(a[k])
  {
    var t := a[i];
    a[i] := a[j];
    a[j] := t;
  }

  // ----- one partition ---------------------------------------------------------------

  /** Order lo, mid and hi. */
  method MedianOfThree<T(!new)>(a: array<T>, cmp: (T, T) -> int, lo: int, mid: int, hi: int)
    requires TotalPreorder(cmp) && 0 <= lo < mid < hi < a.Length
    modifies a
    ensures Rearranged(old(a[..]), a[..], lo, hi)
    ensures Le(cmp, a[lo], a[mid]) && Le(cmp, a[mid], a[hi])
  {
    hide TotalPreorder, Rearranged, Swapped;
    ghost var s := a[..];
    RearrangedSelf(s, lo, hi);
    NotLess(cmp, a[mid], a[lo]);
    NotLess(cmp, a[lo], a[mid]);
    if cmp(a[mid], a[lo]) < 0 {
      SwapRearranges(s, a[..], mid, lo, lo, hi);
      Swap(a, mid, lo);
    }
    NotLess(cmp, a[hi], a[mid]);
    if cmp(a[hi], a[mid]) < 0 {
      SwapRearranges(s, a[..], mid, hi, lo, hi);
      Swap(a, mid, hi);
      NotLess(cmp, a[mid], a[lo]);
      if cmp(a[mid], a[lo]) < 0 {
        SwapRearranges(s, a[..], mid, lo, lo, hi);
        Swap(a, mid, lo);
      }
    }
  }

  lemma RearrangedSelf<T>(s: seq<T>, lo: int, hi: int)
    ensures Rearranged(s, s, lo, hi)
  {
    forall i | 0 <= i < |s| && lo <= i <= hi
      ensures FoundIn(s, s[i], lo, hi)
    {
    }
  }

  /** What a partition leaves: everything before left at most p, everything after
      right at least p, and at most one element between the two. */
  ghost predicate Partitioned<T>(cmp: (T, T) -> int, s: seq<T>, lo: int, hi: int, left: int, right: int, p: T)
    requires 0 <= lo && hi < |s|
  {
    && lo <= right < left <= hi && left <= right + 2
    && (forall i :: lo <= i < left ==> Le(cmp, s[i], p))
    && (forall i :: right < i <= hi ==> Le(cmp, p, s[i]))
  }

  /** Collapse the walls: both scans stay inside [lo, hi]. */
  method Partition<T(!new)>(a: array<T>, cmp: (T, T) -> int, lo: int, hi: int)
    returns (left: int, right: int, ghost p: T)
    requires TotalPreorder(cmp) && 0 <= lo && lo + MAX_THRESH <= hi < a.Length
    modifies a
    ensures Rearranged(old(a[..]), a[..], lo, hi)
    ensures Partitioned(cmp, a[..], lo, hi, left, right, p)
  {
    hide TotalPreorder, Rearranged, Swapped;
    ghost var s := a[..];
    var mid := lo + (hi - lo) / 2;
    MedianOfThree(a, cmp, lo, mid, hi);
    p := a[mid];
    NotLess(cmp, p, p);
    left := lo + 1;
    right := hi - 1;
    while left <= right
      invariant lo < left && right < hi && left <= right + 2 && lo <= right && left <= hi
      invariant Rearranged(s, a[..], lo, hi) && lo <= mid <= hi && a[mid] == p
      invariant forall i :: lo <= i < left ==> Le(cmp, a[i], p)
      invariant forall i :: right < i <= hi ==> Le(cmp, p, a[i])
      decreases right - left + 2
    {
      ghost var left0, right0 := left, right;
      left := ScanUp(a, cmp, left, hi, mid);
      right := ScanDown(a, cmp, lo, right, mid);
      NotLess(cmp, a[left], p);
      NotLess(cmp, p, a[right]);
      NoGap(cmp, a[..], left0, left, right, right0, lo, hi, p);
      if left < right {
        SwapRearranges(s, a[..], left, right, lo, hi);
        Swap(a, left, right);
        if mid == left {
          mid := right;
        } else if mid == right {
          mid := left;
        }
        left := left + 1;
        right := right - 1;
      } else if left == right {
        left := left + 1;
        right := right - 1;
        break;
      }
    }
  }

  /** The left scan: up to the first element not below the pivot, which exists by hi. */
  method ScanUp<T(!new)>(a: array<T>, cmp: (T, T) -> int, from: int, hi: int, mid: int) returns (left: int)
    requires TotalPreorder(cmp) && 0 <= from <= hi < a.Length && 0 <= mid < a.Length && Le(cmp, a[mid], a[hi])
    ensures from <= left <= hi && cmp(a[left], a[mid]) >= 0
    ensures forall i :: from <= i < left ==> cmp(a[i], a[mid]) < 0
  {
    NotLess(cmp, a[hi], a[mid]);
    left := from;
    while cmp(a[left], a[mid]) < 0
      invariant from <= left <= hi
      invariant forall i :: from <= i < left ==> cmp(a[i], a[mid]) < 0
      decreases hi - left
    {
      left := left + 1;
    }
  }

  /** The right scan: down to the first element not above the pivot, which exists by lo. */
  method ScanDown<T(!new)>(a: array<T>, cmp: (T, T) -> int, lo: int, from: int, mid: int) returns (right: int)
    requires TotalPreorder(cmp) && 0 <= lo <= from < a.Length && 0 <= mid < a.Length && Le(cmp, a[lo], a[mid])
    ensures lo <= right <= from && cmp(a[mid], a[right]) >= 0
    ensures forall i :: right < i <= from ==> cmp(a[mid], a[i]) < 0
  {
    NotLess(cmp, a[mid], a[lo]);
    right := from;
    while cmp(a[mid], a[right]) < 0
      invariant lo <= right <= from
      invariant forall i :: right < i <= from ==> cmp(a[mid], a[i]) < 0
      decreases right - lo
    {
      right := right - 1;
    }
  }

  /** The scans cannot pass each other by more than one position. */
  lemma NoGap<T(!new)>(cmp: (T, T) -> int, s: seq<T>, left0: int, left: int, right: int, right0: int,
                       lo: int, hi: int, p: T)
    requires TotalPreorder(cmp) && 0 <= lo <= right <= right0 < hi < |s| && lo < left0 <= left <= hi && left0 <= right0
    requires forall i :: left0 <= i < left ==> cmp(s[i], p) < 0
    requires forall i :: right < i <= right0 ==> cmp(p, s[i]) < 0
    requires forall i :: lo <= i < left0 ==> Le(cmp, s[i], p)
    requires forall i :: right0 < i <= hi ==> Le(cmp, p, s[i])
    ensures left <= right + 1
    ensures forall i :: lo <= i < left ==> Le(cmp, s[i], p)
    ensures forall i :: right < i <= hi ==> Le(cmp, p, s[i])
  {
    if left > right + 1 {
      NotLess(cmp, s[right + 1], p);
      NotLess(cmp, p, s[right + 1]);
    }
  }

  // ----- the partitions still to do --------------------------------------------------------

  /** Position i lies in a finished run: between two cuts at most five apart. */
  ghost predicate Done(cuts: set<int>, i: int)
  {
    exists c, d :: c in cuts && d in cuts && c <= i < d <= c + MAX_THRESH + 1
  }

  ghost predicate Inside(pend: seq<(int, int)>, i: int)
  {
    exists k :: 0 <= k < |pend| && pend[k].0 <= i <= pend[k].1
  }

  /** A partition worth splitting: at least five elements, bounded by cuts, with none inside. */
  ghost predicate Open(n: int, cuts: set<int>, s: (int, int))
  {
    && 0 <= s.0 && s.0 + MAX_THRESH <= s.1 < n && s.0 in cuts && s.1 + 1 in cuts
    && forall c :: c in cuts ==> c <= s.0 || s.1 < c
  }

  predicate Clear(s: (int, int), t: (int, int))
  {
    s.1 < t.0 || t.1 < s.0
  }

  /** Every position is finished or inside one of the disjoint open partitions. */
  ghost predicate Pending(n: int, cuts: set<int>, pend: seq<(int, int)>)
  {
    && (forall k :: 0 <= k < |pend| ==> Open(n, cuts, pend[k]))
    && (forall k, l :: 0 <= k < l < |pend| ==> Clear(pend[k], pend[l]))
    && (forall i :: 0 <= i < n ==> Done(cuts, i) || Inside(pend, i))
  }

  /** The last pending partition is split at left and right; each part is kept if it
      has more than five elements, and is finished otherwise. */
  lemma SplitPending(n: int, cuts: set<int>, rest: seq<(int, int)>, lo: int, hi: int, left: int, right: int,
                     news: seq<(int, int)>)
    requires Pending(n, cuts, rest + [(lo, hi)]) && lo <= right < left <= hi && left <= right + 2
    requires forall k :: 0 <= k < |news| ==>
               (news[k] == (lo, right) && right - lo > MAX_THRESH) || (news[k] == (left, hi) && hi - left > MAX_THRESH)
    requires forall k, l :: 0 <= k < l < |news| ==> news[k] != news[l]
    requires (lo, right) in news || right - lo <= MAX_THRESH
    requires (left, hi) in news || hi - left <= MAX_THRESH
    ensures Pending(n, cuts + {right + 1, left}, rest + news)
  {
    var cuts2 := cuts + {right + 1, left};
    var pend, pend2 := rest + [(lo, hi)], rest + news;
    assert pend[|rest|] == (lo, hi) && Open(n, cuts, pend[|rest|]);
    OpenAfter(n, cuts, rest, lo, hi, left, right, news);
    forall i | 0 <= i < n
      ensures Done(cuts2, i) || Inside(pend2, i)
    {
      CoveredAfter(n, cuts, rest, lo, hi, left, right, news, i);
    }
  }

  lemma OpenAfter(n: int, cuts: set<int>, rest: seq<(int, int)>, lo: int, hi: int, left: int, right: int,
                  news: seq<(int, int)>)
    requires lo <= right < left <= hi && Open(n, cuts, (lo, hi))
    requires Pending(n, cuts, rest + [(lo, hi)])
    requires forall k :: 0 <= k < |news| ==>
               (news[k] == (lo, right) && right - lo > MAX_THRESH) || (news[k] == (left, hi) && hi - left > MAX_THRESH)
    requires forall k, l :: 0 <= k < l < |news| ==> news[k] != news[l]
    ensures var pend2 := rest + news;
            && (forall k :: 0 <= k < |pend2| ==> Open(n, cuts + {right + 1, left}, pend2[k]))
            && (forall k, l :: 0 <= k < l < |pend2| ==> Clear(pend2[k], pend2[l]))
  {
    var pend := rest + [(lo, hi)];
    assert forall k :: 0 <= k < |rest| ==> pend[k] == rest[k] && Open(n, cuts, pend[k]) && Clear(pend[k], pend[|rest|]);
    assert forall k, l :: 0 <= k < l < |rest| ==> pend[k] == rest[k] && pend[l] == rest[l] && Clear(pend[k], pend[l]);
  }

  lemma CoveredAfter(n: int, cuts: set<int>, rest: seq<(int, int)>, lo: int, hi: int, left: int, right: int,
                     news: seq<(int, int)>, i: int)
    requires Pending(n, cuts, rest + [(lo, hi)]) && lo <= right < left <= hi && left <= right + 2
    requires Open(n, cuts, (lo, hi)) && 0 <= i < n
    requires (lo, right) in news || right - lo <= MAX_THRESH
    requires (left, hi) in news || hi - left <= MAX_THRESH
    ensures Done(cuts + {right + 1, left}, i) || Inside(rest + news, i)
  {
    var cuts2 := cuts + {right + 1, left};
    var pend, pend2 := rest + [(lo, hi)], rest + news;
    if lo <= i <= hi {
      if i <= right {
        assert lo in cuts2 && right + 1 in cuts2;
        if (lo, right) in news {
          InsideNews(rest, news, (lo, right), i);
        }
      } else if i < left {
        assert right + 1 in cuts2 && left in cuts2;
      } else {
        assert left in cuts2 && hi + 1 in cuts2;
        if (left, hi) in news {
          InsideNews(rest, news, (left, hi), i);
        }
      }
    } else if Inside(pend, i) {
      var k :| 0 <= k < |pend| && pend[k].0 <= i <= pend[k].1;
      assert k < |rest| && pend2[k] == pend[k];
    } else {
      assert Done(cuts, i);
      var c, d :| c in cuts && d in cuts && c <= i < d <= c + MAX_THRESH + 1;
      assert c in cuts2 && d in cuts2;
    }
  }

  lemma InsideNews(rest: seq<(int, int)>, news: seq<(int, int)>, s: (int, int), i: int)
    requires s in news && s.0 <= i <= s.1
    ensures Inside(rest + news, i)
  {
    var k :| 0 <= k < |news| && news[k] == s;
    assert (rest + news)[|rest| + k] == s;
  }

  // ----- the depth of the stack --------------------------------------------------------------

  function Pow2(k: nat): nat
  {
    if k == 0 then 1 else 2 * Pow2(k - 1)
  }

  /** The partition at depth k, counted from 0, has length times 2^k at most n. */
  ghost predicate Shallow(n: int, pend: seq<(int, int)>)
  {
    forall k :: 0 <= k < |pend| ==> (pend[k].1 - pend[k].0 + 1) * Pow2(k) <= n
  }

  lemma {:induction false} Pow2Grows(k: nat, l: nat)
    requires k <= l
    ensures Pow2(k) <= Pow2(l)
  {
    if k < l {
      Pow2Grows(k, l - 1);
    }
  }

  /** Keeping one part of the deepest partition. */
  lemma ShallowShrink(n: int, rest: seq<(int, int)>, s: (int, int), t: (int, int))
    requires Shallow(n, rest + [s]) && t.1 - t.0 <= s.1 - s.0
    ensures Shallow(n, rest + [t]) && Shallow(n, rest)
  {
    var pend, pend2 := rest + [s], rest + [t];
    assert pend[|rest|] == s;
    forall k | 0 <= k < |pend2|
      ensures (pend2[k].1 - pend2[k].0 + 1) * Pow2(k) <= n
    {
      if k < |rest| {
        assert pend2[k] == pend[k];
      } else {
        MulMono(t.1 - t.0 + 1, s.1 - s.0 + 1, Pow2(k));
      }
    }
    assert forall k :: 0 <= k < |rest| ==> rest[k] == pend[k];
  }

  lemma MulMono(x: int, y: int, p: nat)
    requires x <= y
    ensures x * p <= y * p
  {
  }

  /** Pushing the larger part and going on with the smaller keeps the bound. */
  lemma ShallowPush(n: int, rest: seq<(int, int)>, s: (int, int), big: (int, int), small: (int, int))
    requires Shallow(n, rest + [s]) && small.1 - small.0 <= big.1 - big.0
    requires (big.1 - big.0 + 1) + (small.1 - small.0 + 1) <= s.1 - s.0 + 1 && small.0 <= small.1
    ensures Shallow(n, rest + [big, small])
  {
    var pend, pend2 := rest + [s], rest + [big, small];
    assert pend[|rest|] == s;
    var p := Pow2(|rest|);
    forall k | 0 <= k < |pend2|
      ensures (pend2[k].1 - pend2[k].0 + 1) * Pow2(k) <= n
    {
      if k < |rest| {
        assert pend2[k] == pend[k];
      } else if k == |rest| {
        MulMono(big.1 - big.0 + 1, s.1 - s.0 + 1, p);
      } else {
        assert Pow2(k) == 2 * p;
        MulMono(2 * (small.1 - small.0 + 1), s.1 - s.0 + 1, p);
      }
    }
  }

  /** With fewer than 2^64 elements a partition of six or more is pending at depth at most 61. */
  lemma StackFits(n: int, pend: seq<(int, int)>)
    requires Shallow(n, pend) && n < 0x1_0000_0000_0000_0000 && pend != []
    requires pend[|pend| - 1].1 - pend[|pend| - 1].0 >= MAX_THRESH
    ensures |pend| < STACK_SIZE - 1
  {
    if |pend| >= STACK_SIZE - 1 {
      var k := |pend| - 1;
      Pow2Grows(62, k);
      Pow2At62();
      MulMono(5, pend[k].1 - pend[k].0 + 1, Pow2(k));
    }
  }

  lemma Pow2At62()
    ensures Pow2(62) == 0x4000_0000_0000_0000
  {
    assert Pow2(10) == 1024;
    assert Pow2(20) == 0x10_0000;
    assert Pow2(30) == 0x4000_0000;
    assert Pow2(40) == 0x100_0000_0000;
    assert Pow2(50) == 0x4_0000_0000_0000;
    assert Pow2(60) == 0x1000_0000_0000_0000;
  }

  /** What is left to do; every split makes it smaller. */
  function WorkLeft(pend: seq<(int, int)>): nat
  {
    if pend == [] then 0 else
    var s := pend[|pend| - 1];
    WorkLeft(pend[..|pend| - 1]) + if s.0 <= s.1 then 2 * (s.1 - s.0) + 1 else 0
  }

  lemma WorkOne(rest: seq<(int, int)>, s: (int, int))
    ensures WorkLeft(rest + [s]) == WorkLeft(rest) + if s.0 <= s.1 then 2 * (s.1 - s.0) + 1 else 0
  {
    assert (rest + [s])[..|rest|] == rest;
  }

  lemma WorkTwo(rest: seq<(int, int)>, s: (int, int), t: (int, int))
    requires s.0 <= s.1 && t.0 <= t.1
    ensures WorkLeft(rest + [s, t]) == WorkLeft(rest) + 2 * (s.1 - s.0) + 2 * (t.1 - t.0) + 2
  {
    assert rest + [s, t] == (rest + [s]) + [t];
    WorkOne(rest + [s], t);
    WorkOne(rest, s);
  }

  lemma StartPending<T(!new)>(cmp: (T, T) -> int, s: seq<T>)
    requires MAX_THRESH < |s|
    ensures AllCuts(cmp, s, {0, |s|}) && Pending(|s|, {0, |s|}, [(0, |s| - 1)]) && Shallow(|s|, [(0, |s| - 1)])
  {
    var pend := [(0, |s| - 1)];
    assert pend[0].0 == 0 && pend[0].1 == |s| - 1;
    assert forall i :: 0 <= i < |s| ==> Inside(pend, i);
  }

  lemma OpenLast(n: int, cuts: set<int>, rest: seq<(int, int)>, lo: int, hi: int)
    requires Pending(n, cuts, rest + [(lo, hi)])
    ensures Open(n, cuts, (lo, hi))
  {
    assert (rest + [(lo, hi)])[|rest|] == (lo, hi);
  }

  lemma AllDone(n: int, cuts: set<int>)
    requires Pending(n, cuts, [])
    ensures forall i :: 0 <= i < n ==> Done(cuts, i)
  {
  }

  lemma SamePermutation<T>(s: seq<T>, t: seq<T>, lo: int, hi: int)
    requires Rearranged(s, t, lo, hi)
    ensures multiset(t) == multiset(s) && |t| == |s|
  {
  }

  /** A partition between two cuts makes two new ones. */
  lemma PartitionCuts<T(!new)>(cmp: (T, T) -> int, s: seq<T>, t: seq<T>, cuts: set<int>,
                               lo: int, hi: int, left: int, right: int, p: T)
    requires TotalPreorder(cmp) && AllCuts(cmp, s, cuts) && Rearranged(s, t, lo, hi)
    requires Open(|s|, cuts, (lo, hi)) && Partitioned(cmp, t, lo, hi, left, right, p)
    ensures AllCuts(cmp, t, cuts + {right + 1, left})
  {
    RearrangeKeepsCuts(cmp, s, t, lo, hi, cuts);
    assert Cut(cmp, t, lo) && Cut(cmp, t, hi + 1);
    LocalCut(cmp, t, lo, hi, left, p);
    LocalCut(cmp, t, lo, hi, right + 1, p);
  }

  lemma LocalCut<T(!new)>(cmp: (T, T) -> int, t: seq<T>, lo: int, hi: int, c: int, p: T)
    requires TotalPreorder(cmp) && 0 <= lo < c <= hi < |t| && Cut(cmp, t, lo) && Cut(cmp, t, hi + 1)
    requires forall i :: lo <= i < c ==> Le(cmp, t[i], p)
    requires forall i :: c <= i <= hi ==> Le(cmp, p, t[i])
    ensures Cut(cmp, t, c)
  {
    hide TotalPreorder, Le;
    forall i, j | 0 <= i < c <= j < |t|
      ensures Le(cmp, t[i], t[j])
    {
      if lo <= i && j <= hi {
        Trans(cmp, t[i], p, t[j]);
      }
    }
  }

  // ----- the partitioning phase ------------------------------------------------------------

  /** Partition until every run between cuts has at most five elements. The stack
      holds a sentinel below the pending partitions, as in the original. */
  method SortRuns<T(!new)>(a: array<T>, cmp: (T, T) -> int) returns (ghost cuts: set<int>)
    requires TotalPreorder(cmp) && MAX_THRESH < a.Length < 0x1_0000_0000_0000_0000
    modifies a
    ensures multiset(a[..]) == multiset(old(a[..])) && AllCuts(cmp, a[..], cuts)
    ensures forall i :: 0 <= i < a.Length ==> Done(cuts, i)
  {
    hide TotalPreorder, Rearranged, Pending, Shallow, AllCuts, Pow2, WorkLeft, Done;
    var n := a.Length;
    var lo, hi := 0, n - 1;
    var stack := [(-1, -1)];
    cuts := {0, n};
    ghost var pend := [(lo, hi)];
    StartPending(cmp, a[..]);
    while |stack| > 0
      invariant |stack| == |pend| <= STACK_SIZE
      invariant pend != [] ==> pend == stack[1..] + [(lo, hi)]
      invariant Pending(n, cuts, pend) && Shallow(n, pend) && AllCuts(cmp, a[..], cuts)
      invariant multiset(a[..]) == multiset(old(a[..]))
      decreases WorkLeft(pend)
    {
      ghost var rest := stack[1..];
      OpenLast(n, cuts, rest, lo, hi);
      StackFits(n, pend);
      ghost var s := a[..];
      ghost var p;
      var left, right;
      left, right, p := Partition(a, cmp, lo, hi);
      SamePermutation(s, a[..], lo, hi);
      PartitionCuts(cmp, s, a[..], cuts, lo, hi, left, right, p);
      WorkOne(rest, (lo, hi));
      WorkOne(rest, (left, hi));
      WorkOne(rest, (lo, right));
      WorkTwo(rest, (lo, right), (left, hi));
      WorkTwo(rest, (left, hi), (lo, right));
      if right - lo <= MAX_THRESH {
        if hi - left <= MAX_THRESH {
          SplitPending(n, cuts, rest, lo, hi, left, right, []);
          ShallowShrink(n, rest, (lo, hi), (lo, hi));
          lo, hi := stack[|stack| - 1].0, stack[|stack| - 1].1;
          stack := stack[..|stack| - 1];
          pend := rest;
        } else {
          SplitPending(n, cuts, rest, lo, hi, left, right, [(left, hi)]);
          ShallowShrink(n, rest, (lo, hi), (left, hi));
          lo := left;
          pend := rest + [(lo, hi)];
        }
      } else if hi - left <= MAX_THRESH {
        SplitPending(n, cuts, rest, lo, hi, left, right, [(lo, right)]);
        ShallowShrink(n, rest, (lo, hi), (lo, right));
        hi := right;
        pend := rest + [(lo, hi)];
      } else if right - lo > hi - left {
        SplitPending(n, cuts, rest, lo, hi, left, right, [(lo, right), (left, hi)]);
        ShallowPush(n, rest, (lo, hi), (lo, right), (left, hi));
        stack := stack + [(lo, right)];
        lo := left;
        pend := rest + [(stack[|stack| - 1].0, stack[|stack| - 1].1), (lo, hi)];
      } else {
        SplitPending(n, cuts, rest, lo, hi, left, right, [(left, hi), (lo, right)]);
        ShallowPush(n, rest, (lo, hi), (left, hi), (lo, right));
        stack := stack + [(left, hi)];
        hi := right;
        pend := rest + [(stack[|stack| - 1].0, stack[|stack| - 1].1), (lo, hi)];
      }
      cuts := cuts + {right + 1, left};
      assert rest + [] == rest;
    }
    AllDone(n, cuts);
  }

  // ----- the insertion phase ------------------------------------------------------------------

  /** s with element run moved down to position at. */
  function Rotated<T>(s: seq<T>, at: int, run: int): seq<T>
    requires 0 <= at <= run < |s|
  {
    s[..at] + [s[run]] + s[at..run] + s[run + 1..]
  }

  lemma RotatedMultiset<T>(s: seq<T>, at: int, run: int)
    requires 0 <= at <= run < |s|
    ensures multiset(Rotated(s, at, run)) == multiset(s)
  {
    assert s == s[..at] + s[at..run] + [s[run]] + s[run + 1..];
  }

  /** Shift [at, run) up by one and put the element of run at at. */
  method MoveDown<T>(a: array<T>, at: int, run: int)
    requires 0 <= at <= run < a.Length
    modifies a
    ensures a[..] == Rotated(old(a[..]), at, run)
  {
    ghost var s := a[..];
    var c := a[run];
    var hi := run;
    var lo := run - 1;
    while lo >= at
      invariant at <= hi <= run && lo == hi - 1
      invariant forall i :: 0 <= i < a.Length && (i <= hi || run < i) && i != hi ==> a[i] == s[i]
      invariant forall i :: hi < i <= run ==> a[i] == s[i - 1]
    {
      a[hi] := a[lo];
      hi := lo;
      lo := lo - 1;
    }
    a[hi] := c;
    assert forall i :: 0 <= i < a.Length ==> a[i] == Rotated(s, at, run)[i];
  }

  /** The first n elements are in order. */
  ghost predicate SortedUpTo<T>(cmp: (T, T) -> int, s: seq<T>, n: int)
  {
    forall i, j :: 0 <= i < j < n && j < |s| ==> Le(cmp, s[i], s[j])
  }

  /** x is at most every element of s. */
  ghost predicate LowerBound<T>(cmp: (T, T) -> int, s: seq<T>, x: T)
  {
    forall j :: 0 <= j < |s| ==> Le(cmp, x, s[j])
  }

  /** Inserting after the last element not above it extends the sorted prefix. */
  lemma RotatedSorted<T(!new)>(cmp: (T, T) -> int, s: seq<T>, at: int, run: int)
    requires TotalPreorder(cmp) && 1 <= at <= run < |s| && SortedUpTo(cmp, s, run) && LowerBound(cmp, s, s[0])
    requires Le(cmp, s[at - 1], s[run]) && forall i :: at <= i < run ==> Le(cmp, s[run], s[i])
    ensures var t := Rotated(s, at, run); SortedUpTo(cmp, t, run + 1) && t[0] == s[0] && LowerBound(cmp, t, t[0])
  {
    var t := Rotated(s, at, run);
    assert forall i :: 0 <= i < |t| ==>
      t[i] == if i < at then s[i] else if i == at then s[run] else if i <= run then s[i - 1] else s[i];
    forall i | 0 <= i < at
      ensures Le(cmp, s[i], s[run])
    {
      NotLess(cmp, s[i], s[i]);
      Trans(cmp, s[i], s[at - 1], s[run]);
    }
    hide TotalPreorder, Le, Rotated;
  }

  /** With a least element in front, the unguarded scan stops inside the array. */
  method InsertAll<T(!new)>(a: array<T>, cmp: (T, T) -> int)
    requires TotalPreorder(cmp) && 0 < a.Length && LowerBound(cmp, a[..], a[0])
    modifies a
    ensures Sorted(cmp, a[..]) && multiset(a[..]) == multiset(old(a[..]))
  {
    hide TotalPreorder, Rotated, LowerBound, SortedUpTo;
    var run := 2;
    TwoSorted(cmp, a[..]);
    while run <= a.Length - 1
      invariant 2 <= run && SortedUpTo(cmp, a[..], run) && LowerBound(cmp, a[..], a[0])
      invariant multiset(a[..]) == multiset(old(a[..]))
    {
      ghost var s := a[..];
      var tmp := run - 1;
      FrontLeast(cmp, s, run);
      while cmp(a[run], a[tmp]) < 0
        invariant 0 <= tmp < run
        invariant forall i :: tmp < i < run ==> cmp(s[run], s[i]) < 0
        decreases tmp
      {
        tmp := tmp - 1;
      }
      tmp := tmp + 1;
      NotLess(cmp, s[run], s[tmp - 1]);
      AllLess(cmp, s, tmp, run);
      RotatedSorted(cmp, s, tmp, run);
      RotatedMultiset(s, tmp, run);
      if tmp != run {
        MoveDown(a, tmp, run);
      } else {
        RotateNothing(s, run);
      }
      assert a[..][0] == a[0];
      run := run + 1;
    }
    SortedWhole(cmp, a[..], run);
  }

  lemma TwoSorted<T>(cmp: (T, T) -> int, s: seq<T>)
    requires 0 < |s| && LowerBound(cmp, s, s[0])
    ensures SortedUpTo(cmp, s, 2)
  {
  }

  lemma FrontLeast<T(!new)>(cmp: (T, T) -> int, s: seq<T>, run: int)
    requires TotalPreorder(cmp) && 0 < run < |s| && LowerBound(cmp, s, s[0])
    ensures cmp(s[run], s[0]) >= 0
  {
    assert Le(cmp, s[0], s[run]);
    NotLess(cmp, s[run], s[0]);
  }

  lemma AllLess<T(!new)>(cmp: (T, T) -> int, s: seq<T>, at: int, run: int)
    requires TotalPreorder(cmp) && 0 <= at <= run < |s| && forall i :: at <= i < run ==> cmp(s[run], s[i]) < 0
    ensures forall i :: at <= i < run ==> Le(cmp, s[run], s[i])
  {
  }

  lemma RotateNothing<T>(s: seq<T>, run: int)
    requires 0 <= run < |s|
    ensures Rotated(s, run, run) == s
  {
  }

  lemma SortedWhole<T>(cmp: (T, T) -> int, s: seq<T>, n: int)
    requires SortedUpTo(cmp, s, n) && |s| <= n
    ensures Sorted(cmp, s)
  {
  }

  /** Move the least of the first five elements to the front. */
  method FrontMinimum<T(!new)>(a: array<T>, cmp: (T, T) -> int)
    requires TotalPreorder(cmp) && 0 < a.Length
    requires a.Length > MAX_THRESH ==> exists d :: 0 < d <= MAX_THRESH + 1 && Cut(cmp, a[..], d)
    modifies a
    ensures LowerBound(cmp, a[..], a[0]) && multiset(a[..]) == multiset(old(a[..]))
  {
    hide TotalPreorder, Swapped, Cut, LowerBound;
    ghost var s := a[..];
    var end := a.Length - 1;
    var thresh := if end < MAX_THRESH then end else MAX_THRESH;
    var tmp := 0;
    var run := 1;
    NotLess(cmp, a[0], a[0]);
    while run <= thresh
      invariant 1 <= run <= thresh + 1 && 0 <= tmp <= thresh && a[..] == s
      invariant forall i :: 0 <= i < run ==> Le(cmp, s[tmp], s[i])
    {
      NotLess(cmp, a[run], a[tmp]);
      NotLess(cmp, a[run], a[run]);
      if cmp(a[run], a[tmp]) < 0 {
        forall i | 0 <= i < run
          ensures Le(cmp, s[run], s[i])
        {
          Trans(cmp, s[run], s[tmp], s[i]);
        }
        tmp := run;
      } else {
        NotLess(cmp, a[tmp], a[run]);
      }
      run := run + 1;
    }
    GlobalMinimum(cmp, s, tmp, thresh);
    SwapMultiset(s, tmp, 0);
    SwapLowerBound(cmp, s, tmp);
    if tmp != 0 {
      Swap(a, tmp, 0);
    } else {
      assert Swapped(s, 0, 0) == s by { SwapNothing(s); }
    }
    assert a[..][0] == a[0];
  }

  lemma SwapNothing<T>(s: seq<T>)
    requires 0 < |s|
    ensures Swapped(s, 0, 0) == s
  {
  }

  /** A least element of the first run is least overall. */
  lemma GlobalMinimum<T(!new)>(cmp: (T, T) -> int, s: seq<T>, m: int, thresh: int)
    requires TotalPreorder(cmp) && 0 <= m <= thresh < |s| && (thresh == |s| - 1 || thresh == MAX_THRESH)
    requires forall i :: 0 <= i <= thresh ==> Le(cmp, s[m], s[i])
    requires |s| > MAX_THRESH ==> exists d :: 0 < d <= MAX_THRESH + 1 && Cut(cmp, s, d)
    ensures LowerBound(cmp, s, s[m])
  {
    if thresh < |s| - 1 {
      var d :| 0 < d <= MAX_THRESH + 1 && Cut(cmp, s, d);
      forall j | thresh < j < |s|
        ensures Le(cmp, s[m], s[j])
      {
        assert Le(cmp, s[0], s[j]);
        Trans(cmp, s[m], s[0], s[j]);
      }
    }
  }

  lemma SwapLowerBound<T>(cmp: (T, T) -> int, s: seq<T>, m: int)
    requires 0 <= m < |s| && LowerBound(cmp, s, s[m])
    ensures Swapped(s, m, 0)[0] == s[m] && LowerBound(cmp, Swapped(s, m, 0), s[m])
  {
    hide Le;
  }

  /** The whole sort: a sorted permutation of the input, for any total preorder. */
  method Sort<T(!new)>(a: array<T>, cmp: (T, T) -> int)
    requires TotalPreorder(cmp) && a.Length < 0x1_0000_0000_0000_0000
    modifies a
    ensures Sorted(cmp, a[..]) && multiset(a[..]) == multiset(old(a[..]))
  {
    hide TotalPreorder, Le;
    if a.Length == 0 {
      return;
    }
    if a.Length > MAX_THRESH {
      ghost var cuts := SortRuns(a, cmp);
      FirstRunShort(cmp, a[..], cuts);
    }
    FrontMinimum(a, cmp);
    InsertAll(a, cmp);
  }

  lemma FirstRunShort<T>(cmp: (T, T) -> int, s: seq<T>, cuts: set<int>)
    requires AllCuts(cmp, s, cuts) && 0 < |s| && Done(cuts, 0)
    ensures exists d :: 0 < d <= MAX_THRESH + 1 && Cut(cmp, s, d)
  {
    var c, d :| c in cuts && d in cuts && c <= 0 < d <= c + MAX_THRESH + 1;
    assert Cut(cmp, s, d);
  }

  /** Total preorders on the elements determine the sorted keys: two sorted
      permutations agree position by position up to equivalence. */
  lemma {:induction false} SortedUnique<T(!new)>(cmp: (T, T) -> int, s: seq<T>, t: seq<T>)
    requires TotalPreorder(cmp) && Sorted(cmp, s) && Sorted(cmp, t) && multiset(s) == multiset(t)
    ensures |s| == |t| && forall i :: 0 <= i < |s| ==> Le(cmp, s[i], t[i]) && Le(cmp, t[i], s[i])
  {
    assert |multiset(s)| == |s| && |multiset(t)| == |t|;
    forall i | 0 <= i < |s|
      ensures Le(cmp, s[i], t[i]) && Le(cmp, t[i], s[i])
    {
      NotAbove(cmp, s, t, i);
      NotAbove(cmp, t, s, i);
    }
  }

  lemma NotFrom<T(!new)>(cmp: (T, T) -> int, s: seq<T>, t: seq<T>, i: int, k: int)
    requires TotalPreorder(cmp) && Sorted(cmp, s) && Sorted(cmp, t) && 0 <= k <= i < |s| && i < |t|
    requires !Le(cmp, s[i], t[i])
    ensures t[k] !in s[i..]
  {
    NotLess(cmp, t[k], t[k]);
    NotLess(cmp, s[i], s[i]);
    hide TotalPreorder;
    forall j | i <= j < |s|
      ensures s[j] != t[k]
    {
      if s[j] == t[k] {
        Trans(cmp, s[i], s[j], t[i]);
      }
    }
  }

  /** If s[i] exceeded t[i], the i + 1 elements t[..i + 1] would all be among the
      i elements of s before position i. */
  lemma NotAbove<T(!new)>(cmp: (T, T) -> int, s: seq<T>, t: seq<T>, i: int)
    requires TotalPreorder(cmp) && Sorted(cmp, s) && Sorted(cmp, t) && multiset(s) == multiset(t)
    requires 0 <= i < |s| && |s| == |t|
    ensures Le(cmp, s[i], t[i])
  {
    hide TotalPreorder, Le, Sorted;
    if !Le(cmp, s[i], t[i]) {
      var small := multiset(t[..i + 1]);
      assert s == s[..i] + s[i..] && t == t[..i + 1] + t[i + 1..];
      assert multiset(s) == multiset(s[..i]) + multiset(s[i..]);
      assert multiset(t) == small + multiset(t[i + 1..]);
      forall x | x in small
        ensures small[x] <= multiset(s[..i])[x]
      {
        var k :| 0 <= k <= i && t[..i + 1][k] == x;
        NotFrom(cmp, s, t, i, k);
        assert x !in s[i..] && multiset(s[i..])[x] == 0;
        assert multiset(t)[x] == small[x] + multiset(t[i + 1..])[x];
        assert multiset(s)[x] == multiset(s[..i])[x] + multiset(s[i..])[x];
      }
      assert small <= multiset(s[..i]);
      MultisetSize(small, multiset(s[..i]));
    }
  }

  lemma MultisetSize<T>(a: multiset<T>, b: multiset<T>)
    requires a <= b
    ensures |a| <= |b|
  {
    assert b == a + (b - a);
  }

  // ----- the comparator it is used with -------------------------------------------------------

  datatype PtrWithSize = PtrWithSize(ptr: int, size: int)

  /** Records whose size fits a non-negative int. */
  type SizedRecord = r: PtrWithSize | 0 <= r.size < 0x8000_0000 witness PtrWithSize(0, 0)

  /** The difference of the sizes, computed in 32-bit arithmetic, larger sizes first. */
  function PtrComparator(a: PtrWithSize, b: PtrWithSize): int
  {
    AsInt32(AsInt32(b.size) - AsInt32(a.size))
  }

  /** It is the difference of the sizes reduced to 32 bits. */
  lemma ComparatorReduces(a: PtrWithSize, b: PtrWithSize)
    ensures var d := b.size - a.size;
            && (-0x8000_0000 <= d < 0x8000_0000 ==> PtrComparator(a, b) == d)
            && (d == 0x8000_0000 ==> PtrComparator(a, b) == -d)
  {
    var p, q := (a.size + 0x8000_0000) / 0x1_0000_0000, (b.size + 0x8000_0000) / 0x1_0000_0000;
    assert AsInt32(a.size) == a.size - p * 0x1_0000_0000 && AsInt32(b.size) == b.size - q * 0x1_0000_0000;
    Reduce(b.size - a.size, p - q);
  }

  /** Multiples of 2^32 do not matter. */
  lemma Reduce(d: int, k: int)
    ensures -0x8000_0000 <= d < 0x8000_0000 ==> AsInt32(d + k * 0x1_0000_0000) == d
    ensures d == 0x8000_0000 ==> AsInt32(d + k * 0x1_0000_0000) == -d
  {
    var e := d + k * 0x1_0000_0000 + 0x8000_0000;
    if -0x8000_0000 <= d < 0x8000_0000 {
      assert e == k * 0x1_0000_0000 + (d + 0x8000_0000);
      assert e % 0x1_0000_0000 == d + 0x8000_0000;
    } else if d == 0x8000_0000 {
      assert e == (k + 1) * 0x1_0000_0000;
      assert e % 0x1_0000_0000 == 0;
    }
  }

  predicate InRange(r: PtrWithSize, lo: int, hi: int)
  {
    lo <= r.size <= hi
  }

  /** The comparison is a total preorder on the records with sizes from lo to hi. */
  ghost predicate PreorderOn(cmp: (PtrWithSize, PtrWithSize) -> int, lo: int, hi: int)
  {
    && (forall x, y :: InRange(x, lo, hi) && InRange(y, lo, hi) ==> (cmp(x, y) < 0 <==> cmp(y, x) > 0))
    && (forall x, y, z ::
          InRange(x, lo, hi) && InRange(y, lo, hi) && InRange(z, lo, hi) ==>
          cmp(x, y) <= 0 && cmp(y, z) <= 0 ==>
          cmp(x, z) <= 0)
  }

  /** ptr_comparator is a total preorder on a range of sizes if and only if the range is shorter than 2^31. */
  lemma ComparatorExact(lo: int, hi: int)
    requires lo <= hi
    ensures PreorderOn(PtrComparator, lo, hi) <==> hi - lo < 0x8000_0000
  {
    if hi - lo < 0x8000_0000 {
      forall x, y | InRange(x, lo, hi) && InRange(y, lo, hi)
        ensures PtrComparator(x, y) == y.size - x.size
      {
        ComparatorReduces(x, y);
      }
    } else {
      var x, y := PtrWithSize(0, lo), PtrWithSize(0, lo + 0x8000_0000);
      ComparatorReduces(x, y);
      ComparatorReduces(y, x);
      assert InRange(x, lo, hi) && InRange(y, lo, hi) && PtrComparator(x, y) < 0 && PtrComparator(y, x) < 0;
    }
    hide PtrComparator;
  }

  lemma ComparatorIsPreorder(cmp: (SizedRecord, SizedRecord) -> int)
    requires forall a: SizedRecord, b: SizedRecord :: cmp(a, b) == PtrComparator(a, b)
    ensures TotalPreorder(cmp)
  {
    forall a: SizedRecord, b: SizedRecord
      ensures cmp(a, b) == b.size - a.size
    {
      ComparatorReduces(a, b);
    }
    hide PtrComparator;
  }

  /** Sizes of allocations past int range: two that each come before the other, and three in a circle. */
  lemma ComparatorWraps()
    ensures var x, y := PtrWithSize(0, 0), PtrWithSize(1, 0x8000_0000);
            PtrComparator(x, y) < 0 && PtrComparator(y, x) < 0
    ensures var x, y, z := PtrWithSize(0, 0), PtrWithSize(1, 0x6000_0000), PtrWithSize(2, 0xC000_0000);
            PtrComparator(y, x) < 0 && PtrComparator(z, y) < 0 && 0 < PtrComparator(z, x)
  {
    var x, y, z := PtrWithSize(0, 0), PtrWithSize(1, 0x6000_0000), PtrWithSize(2, 0xC000_0000);
    ComparatorReduces(x, PtrWithSize(1, 0x8000_0000));
    ComparatorReduces(PtrWithSize(1, 0x8000_0000), x);
    ComparatorReduces(y, x);
    ComparatorReduces(z, y);
    NegativeSize();
    hide PtrComparator;
  }

  /** A size of 3 GB is negative as an int. */
  lemma NegativeSize()
    ensures PtrComparator(PtrWithSize(2, 0xC000_0000), PtrWithSize(0, 0)) == 0x4000_0000
  {
    Reduce(-0x4000_0000, 1);
    Reduce(0, 0);
    Reduce(0x4000_0000, 0);
  }
}
