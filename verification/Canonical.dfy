/** defrag computes the canonical free list: the maximal runs of free bytes. */
module Canonical {
  import opened Blocks
  import opened HeapSpec
  import opened HeapInvariant
  import opened HeapFacts

  /** The byte at a belongs to a block of s. */
  ghost predicate HeldBy(s: seq<Block>, a: int)
  {
    exists x :: x in s && x.Holds(a)
  }

  ghost predicate FreeShape(s: seq<Block>)
  {
    forall i :: 0 <= i < |s| ==> 0 < s[i].size && s[i].req == 0
  }

  /** Ascending with a gap between any two blocks. */
  ghost predicate Separated(s: seq<Block>)
  {
    FreeShape(s) && forall i, j :: 0 <= i < j < |s| ==> s[i].End() < s[j].addr
  }

  ghost predicate SameBytesHeld(s: seq<Block>, t: seq<Block>)
  {
    forall a :: HeldBy(s, a) <==> HeldBy(t, a)
  }

  lemma HeldCons(x: Block, s: seq<Block>, a: int)
    ensures HeldBy([x] + s, a) <==> x.Holds(a) || HeldBy(s, a)
  {
    assert forall y :: y in [x] + s <==> y == x || y in s;
  }

  /** Coalescing neither loses nor adds a free byte. */
  lemma {:induction false} CoalesceBytes(s: seq<Block>, a: int)
    requires FreeShape(s)
    ensures HeldBy(Coalesce(s), a) <==> HeldBy(s, a)
    decreases |s|
  {
    if |s| >= 2 {
      assert s == [s[0]] + s[1..] && s[1..] == [s[1]] + s[2..];
      HeldCons(s[0], s[1..], a);
      HeldCons(s[1], s[2..], a);
      if s[0].End() == s[1].addr {
        var z := s[0].(size := s[0].size + s[1].size);
        HeldCons(z, s[2..], a);
        CoalesceBytes([z] + s[2..], a);
      } else {
        HeldCons(s[0], Coalesce(s[1..]), a);
        CoalesceBytes(s[1..], a);
      }
    }
  }

  /** The result starts where the list starts and has no two touching blocks. */
  lemma {:induction false} CoalesceSeparates(s: seq<Block>)
    requires Ascending(s) && FreeShape(s)
    ensures Separated(Coalesce(s)) && (s == [] <==> Coalesce(s) == [])
    ensures s != [] ==> Coalesce(s)[0].addr == s[0].addr
    decreases |s|
  {
    if |s| >= 2 {
      if s[0].End() == s[1].addr {
        var z := s[0].(size := s[0].size + s[1].size);
        MergedShape(s, z);
        hide Ascending, FreeShape, Separated;
        CoalesceSeparates([z] + s[2..]);
      } else {
        TailShape(s);
        hide Ascending, FreeShape, Separated;
        CoalesceSeparates(s[1..]);
        AheadSeparated(s[0], Coalesce(s[1..]));
      }
    }
  }

  lemma MergedShape(s: seq<Block>, z: Block)
    requires Ascending(s) && FreeShape(s) && 2 <= |s| && s[0].End() == s[1].addr
    requires z == s[0].(size := s[0].size + s[1].size)
    ensures Ascending([z] + s[2..]) && FreeShape([z] + s[2..])
  {
  }

  lemma TailShape(s: seq<Block>)
    requires Ascending(s) && FreeShape(s) && 2 <= |s| && s[0].End() != s[1].addr
    ensures Ascending(s[1..]) && FreeShape(s[1..]) && s[0].End() < s[1].addr && 0 < s[0].size && s[0].req == 0
  {
  }

  /** A block with a gap before a separated list. */
  lemma AheadSeparated(x: Block, t: seq<Block>)
    requires Separated(t) && t != [] && x.End() < t[0].addr && 0 < x.size && x.req == 0
    ensures Separated([x] + t)
  {
    forall j | 0 <= j < |t|
      ensures x.End() < t[j].addr
    {
      assert 0 < j ==> t[0].End() < t[j].addr;
    }
  }

  /** The first block of a separated list is the first run of its bytes. */
  lemma FirstRun(s: seq<Block>)
    requires Separated(s) && s != []
    ensures HeldBy(s, s[0].addr) && !HeldBy(s, s[0].End())
    ensures forall a :: a < s[0].addr ==> !HeldBy(s, a)
    ensures forall a :: s[0].addr <= a < s[0].End() ==> HeldBy(s, a)
    ensures forall a :: HeldBy(s[1..], a) <==> HeldBy(s, a) && s[0].End() <= a
  {
    assert s == [s[0]] + s[1..];
    assert s[0].Holds(s[0].addr);
    forall a
      ensures HeldBy(s, a) <==> s[0].Holds(a) || HeldBy(s[1..], a)
      ensures HeldBy(s[1..], a) ==> s[0].End() < a
    {
      HeldCons(s[0], s[1..], a);
    }
  }

  lemma Inhabited(s: seq<Block>)
    requires Separated(s)
    ensures s == [] <==> forall a :: !HeldBy(s, a)
  {
    if s != [] {
      FirstRun(s);
    }
  }

  /** Two separated lists holding the same bytes are the same list. */
  lemma {:induction false} RunsUnique(s: seq<Block>, t: seq<Block>)
    requires Separated(s) && Separated(t) && SameBytesHeld(s, t)
    ensures s == t
    decreases |s|
  {
    if s == [] || t == [] {
      Inhabited(s);
      Inhabited(t);
    } else {
      FirstRun(s);
      FirstRun(t);
      assert s[0].addr == t[0].addr;
      assert s[0].End() == t[0].End();
      RunsUnique(s[1..], t[1..]);
      assert s == [s[0]] + s[1..] && t == [t[0]] + t[1..];
    }
  }

  lemma FreeShaped(s: State)
    requires Inv(s)
    ensures FreeShape(s.free) && Ascending(s.free)
  {
    forall i | 0 <= i < |s.free|
      ensures 0 < s.free[i].size && s.free[i].req == 0
    {
      ShapedFree(s, i);
    }
  }

  lemma DefragRuns(s: State)
    requires Inv(s)
    ensures Separated(Defrag(s).free) && SameBytesHeld(Defrag(s).free, s.free)
  {
    FreeShaped(s);
    hide Inv;
    CoalesceSeparates(s.free);
    forall a
      ensures HeldBy(Defrag(s).free, a) <==> HeldBy(s.free, a)
    {
      CoalesceBytes(s.free, a);
    }
  }

  lemma RunMaximal(f: seq<Block>, i: nat)
    requires Separated(f) && i < |f|
    ensures forall a :: f[i].addr <= a < f[i].End() ==> HeldBy(f, a)
    ensures !HeldBy(f, f[i].addr - 1) && !HeldBy(f, f[i].End())
  {
    forall a | f[i].addr <= a < f[i].End()
      ensures HeldBy(f, a)
    {
      assert f[i] in f && f[i].Holds(a);
    }
    forall j | 0 <= j < |f|
      ensures !f[j].Holds(f[i].addr - 1) && !f[j].Holds(f[i].End())
    {
    }
  }

  /** Every block of the defragmented list is a maximal run of free bytes. */
  lemma DefragMaximal(s: State, i: nat)
    requires Inv(s) && i < |Defrag(s).free|
    ensures var x := Defrag(s).free[i];
            && (forall a :: x.addr <= a < x.End() ==> HeldBy(s.free, a))
            && !HeldBy(s.free, x.addr - 1) && !HeldBy(s.free, x.End())
  {
    DefragRuns(s);
    hide Inv, Coalesce, HeldBy;
    RunMaximal(Defrag(s).free, i);
  }

  /** The free list defrag leaves depends only on which bytes are free. */
  lemma DefragCanonical(s: State, t: State)
    requires Inv(s) && Inv(t) && SameBytesHeld(s.free, t.free)
    ensures Defrag(s).free == Defrag(t).free
  {
    DefragRuns(s);
    DefragRuns(t);
    hide Inv, Coalesce, HeldBy, Separated;
    RunsUnique(Defrag(s).free, Defrag(t).free);
  }

  lemma DefragIdempotent(s: State)
    requires Inv(s)
    ensures Defrag(Defrag(s)) == Defrag(s)
  {
    DefragInv(s);
    DefragRuns(s);
    DefragCanonical(Defrag(s), s);
  }

  lemma FreeNotAlloc(s: State, x: Block, y: Block)
    requires Inv(s) && x in s.free && y in s.alloc
    ensures Apart(x, y)
  {
    assert x in All(s, multiset{}) && y in All(s, multiset{});
    assert x.req == 0 < y.req;
  }

  lemma HeapByte(s: State, a: int)
    requires Inv(s)
    ensures HeldBy(s.free, a) || HeldBy(s.alloc, a) <==> s.base <= a < s.brk
  {
    var m := All(s, multiset{});
    forall x | x in s.free || x in s.alloc
      ensures s.base <= x.addr && x.End() <= s.brk
    {
      Shaped(s, multiset{}, x);
    }
    if s.base <= a < s.brk {
      assert Covered(m, a);
      var x :| x in m && x.Holds(a);
      assert x in s.free || x in s.alloc;
    }
  }

  /** By the tiling, the free bytes are the heap bytes no live allocation holds. */
  lemma FreeIsComplement(s: State, a: int)
    requires Inv(s)
    ensures HeldBy(s.free, a) <==> s.base <= a < s.brk && !HeldBy(s.alloc, a)
  {
    HeapByte(s, a);
    hide Inv;
    if HeldBy(s.free, a) {
      var x :| x in s.free && x.Holds(a);
      forall y | y in s.alloc
        ensures !y.Holds(a)
      {
        FreeNotAlloc(s, x, y);
      }
    }
  }

  /** Two states with the same allocations and bounds defragment alike. */
  lemma SameAllocsSameRuns(s: State, t: State)
    requires Inv(s) && Inv(t) && s.alloc == t.alloc && s.base == t.base && s.brk == t.brk
    ensures Defrag(s) == Defrag(t)
  {
    forall a
      ensures HeldBy(s.free, a) <==> HeldBy(t.free, a)
    {
      FreeIsComplement(s, a);
      FreeIsComplement(t, a);
    }
    DefragCanonical(s, t);
  }

  /** Once everything is freed, defrag leaves one block covering the whole heap. */
  lemma Reclaims(s: State)
    requires Inv(s) && s.alloc == []
    ensures Defrag(s).free == if s.base == s.brk then [] else [Block(s.base, s.brk - s.base, 0)]
  {
    var whole := if s.base == s.brk then [] else [Block(s.base, s.brk - s.base, 0)];
    DefragRuns(s);
    forall a
      ensures HeldBy(whole, a) <==> HeldBy(s.free, a)
    {
      FreeIsComplement(s, a);
      assert s.base != s.brk ==> (HeldBy(whole, a) <==> whole[0].Holds(a));
    }
    var f := Defrag(s).free;
    assert s.base <= s.brk;
    hide Inv, Defrag, HeldBy;
    RunsUnique(f, whole);
  }

  lemma InsertRemove(s: seq<Block>, k: nat, c: Block)
    requires k <= |s|
    ensures RemoveAt(InsertAt(s, k, c), k) == s
  {
  }

  /** malloc, then free of what it returned, restores the allocations. */
  lemma MallocFreeAllocs(s: State, n: nat)
    requires Inv(s) && Sound(s, n) && Malloc(s, n).ptr != 0
    ensures var r := Malloc(s, n);
            LivePtr(r.st, r.ptr) && Free(r.st, r.ptr).alloc == s.alloc && Inv(Free(r.st, r.ptr))
  {
    var r := Malloc(s, n);
    MallocInv(s, n);
    MallocAdds(s, n);
    FreeInv(r.st, r.ptr);
    var c := BlockAt(r.st, r.ptr);
    var k := AllocPos(s.alloc, c);
    assert r.st.alloc[k] == c;
    OnlyAt(s.alloc, k, c, IndexOf(r.st.alloc, r.ptr));
    InsertRemove(s.alloc, k, c);
  }

  lemma OnlyAt(s: seq<Block>, k: nat, c: Block, i: nat)
    requires k <= |s| && c !in s && i < |InsertAt(s, k, c)| && InsertAt(s, k, c)[i] == c
    ensures i == k
  {
  }

  /** From a coalesced heap, a malloc served without growth, its free and a defrag
      restore the state exactly. */
  lemma MallocFreeDefrag(s: State, n: nat)
    requires Inv(s) && Defrag(s) == s && 0 < n && Sound(s, n) && SomeFits(s, n)
    ensures var r := Malloc(s, n);
            r.ptr != 0 && LivePtr(r.st, r.ptr) && Defrag(Free(r.st, r.ptr)) == s
  {
    var r := Malloc(s, n);
    MallocFirstFit(s, n);
    MallocAdds(s, n);
    MallocFreeAllocs(s, n);
    hide Malloc, Inv, Coalesce, Defrag, InsertAlloc;
    var t := Free(r.st, r.ptr);
    assert t.base == s.base && t.brk == s.brk;
    SameAllocsSameRuns(t, s);
  }
}
