/** Sums and counts over the lists, bounded by the heap: what heap_info's int
    fields hold is exact. */
module HeapCounts {
  import opened Blocks
  import opened Words
  import opened HeapInvariant

  function TotalSize(s: seq<Block>): int
  {
    if s == [] then 0 else TotalSize(s[..|s| - 1]) + s[|s| - 1].size
  }

  /** The largest block size, 0 for an empty list. */
  function MaxSize(s: seq<Block>): int
  {
    if s == [] then 0 else
    var r := MaxSize(s[..|s| - 1]);
    if s[|s| - 1].size >= r then s[|s| - 1].size else r
  }

  /** MaxSize is an upper bound and, unless 0, attained. */
  lemma {:induction false} MaxSizeIsMax(s: seq<Block>)
    ensures 0 <= MaxSize(s) && forall x :: x in s ==> x.size <= MaxSize(s)
    ensures MaxSize(s) == 0 || exists x :: x in s && x.size == MaxSize(s)
  {
    if s != [] {
      var t, l := s[..|s| - 1], s[|s| - 1];
      MaxSizeIsMax(t);
      assert l in s && forall x :: x in s <==> x in t || x == l by {
        assert s == t + [l];
      }
    }
  }

  lemma StatStep(s: seq<Block>, k: nat)
    requires k < |s|
    ensures TotalSize(s[..k + 1]) == TotalSize(s[..k]) + s[k].size
    ensures MaxSize(s[..k + 1]) == if s[k].size >= MaxSize(s[..k]) then s[k].size else MaxSize(s[..k])
  {
    assert s[..k + 1][..k] == s[..k];
  }

  lemma {:induction false} TotalInRange(s: seq<Block>, lo: int, hi: int)
    requires Ascending(s) && lo <= hi
    requires forall i :: 0 <= i < |s| ==> 0 < s[i].size && lo <= s[i].addr && s[i].End() <= hi
    ensures 0 <= TotalSize(s) <= hi - lo
    ensures MaxSize(s) <= hi - lo
  {
    if s != [] {
      var t, x := s[..|s| - 1], s[|s| - 1];
      forall i | 0 <= i < |t|
        ensures t[i].End() <= x.addr
      {
        assert t[i] == s[i];
      }
      TotalInRange(t, lo, x.addr);
    }
  }

  /** Free space and the largest free chunk fit an int: they are at most the heap. */
  lemma FreeTotals(s: State)
    requires Inv(s)
    ensures 0 <= TotalSize(s.free) <= s.brk - s.base < MEMSIZE_VIRTUAL
    ensures MaxSize(s.free) <= s.brk - s.base
  {
    forall i | 0 <= i < |s.free|
      ensures WellShaped(s.free[i], s.base, s.brk)
    {
      Shaped(s, multiset{}, s.free[i]);
    }
    hide Tiles, All;
    TotalInRange(s.free, s.base, s.brk);
  }

  lemma {:induction false} DistinctCount(xs: seq<int>, n: nat)
    requires forall i :: 0 <= i < |xs| ==> 0 <= xs[i] < n
    requires forall i, j :: 0 <= i < j < |xs| ==> xs[i] != xs[j]
    ensures |xs| <= n
    decreases n
  {
    if xs != [] {
      assert 0 <= xs[0] < n;
      if exists i :: 0 <= i < |xs| && xs[i] == n - 1 {
        var i :| 0 <= i < |xs| && xs[i] == n - 1;
        DistinctCount(xs[..i] + xs[i + 1..], n - 1);
      } else {
        DistinctCount(xs, n - 1);
      }
    }
  }

  /** There are at most as many live allocations as addresses. */
  lemma AllocCount(s: State)
    requires Inv(s)
    ensures |s.alloc| <= MEMSIZE_VIRTUAL
  {
    var xs := seq(|s.alloc|, i requires 0 <= i < |s.alloc| => s.alloc[i].addr);
    forall i | 0 <= i < |xs|
      ensures 0 <= xs[i] < MEMSIZE_VIRTUAL
    {
      Shaped(s, multiset{}, s.alloc[i]);
    }
    forall i, j | 0 <= i < j < |xs|
      ensures xs[i] != xs[j]
    {
      SameAddress(s, i, j);
    }
    hide Inv;
    DistinctCount(xs, MEMSIZE_VIRTUAL);
  }

  lemma SameAddress(s: State, i: int, j: int)
    requires Inv(s) && 0 <= i < j < |s.alloc|
    ensures s.alloc[i].addr != s.alloc[j].addr
  {
    var m := All(s, multiset{});
    assert s.alloc[i] in m && s.alloc[j] in m;
    forall x | x in s.alloc
      ensures multiset(s.alloc)[x] == 1
    {
      assert x in m && multiset(s.alloc)[x] <= m[x];
    }
    NoRepeats(s.alloc, i, j);
  }
}
