/** Every allocator call keeps the tiling invariant, and what it does to the
    set of live allocations. */
module HeapInvariant {
  import opened Blocks
  import opened Words
  import opened HeapSpec

  /** A block of either list is well shaped. */
  lemma Shaped(s: State, loose: multiset<Block>, x: Block)
    requires InvWith(s, loose) && (x in s.free || x in s.alloc || x in loose)
    ensures WellShaped(x, s.base, s.brk)
  {
    assert x in All(s, loose);
  }

  lemma ShapedFree(s: State, k: nat)
    requires Inv(s) && k < |s.free|
    ensures WellShaped(s.free[k], s.base, s.brk) && s.free[k].req == 0
  {
    Shaped(s, multiset{}, s.free[k]);
  }

  /** Sizes are multiples of 8, so fitting the rounded size is fitting the request. */
  lemma FitsRequest(s: State, x: Block, n: nat)
    requires Inv(s) && x in s.free && n <= MAX_REQUEST
    ensures x.size >= RequiredSize(n) <==> x.size >= HEADER + n
  {
    Shaped(s, multiset{}, x);
    RequestArithmetic(n);
    hide InvWith, RequiredSize, ChunkSize;
  }

  lemma GrowInv(s: State, n: nat)
    requires Inv(s) && n <= MAX_REQUEST && CanGrow(s, RequiredSize(n))
    ensures Inv(Grow(s, RequiredSize(n)))
  {
    RequestArithmetic(n);
    var c := Block(s.brk, ChunkSize(RequiredSize(n)), 0);
    hide Tiles, Ascending, ByRequest, RequiredSize, ChunkSize, InsertFree;
    Extend(s, c);
    assert multiset{} + multiset{c} == multiset{c};
    LinkFree(s.(brk := c.End()), c, multiset{});
  }

  lemma BelowBreak(s: State)
    requires Inv(s)
    ensures forall i :: 0 <= i < |s.free| ==> s.free[i].addr < s.brk
  {
    forall i | 0 <= i < |s.free|
      ensures s.free[i].addr < s.brk
    {
      Shaped(s, multiset{}, s.free[i]);
    }
  }

  /** After a growth nothing but the new chunk fits, and it is the last free block. */
  lemma GrowFits(s: State, n: nat)
    requires Inv(s) && n <= MAX_REQUEST
    requires FirstFit(s.free, RequiredSize(n)) == |s.free|
    ensures var c := Block(s.brk, ChunkSize(RequiredSize(n)), 0);
            Grow(s, RequiredSize(n)).free == s.free + [c]
    ensures FirstFit(Grow(s, RequiredSize(n)).free, RequiredSize(n)) == |s.free|
  {
    RequestArithmetic(n);
    BelowBreak(s);
    hide Inv, RequiredSize, ChunkSize, FirstFit;
    var c := Block(s.brk, ChunkSize(RequiredSize(n)), 0);
    assert FreePos(s.free, c) == |s.free|;
    var g := Grow(s, RequiredSize(n)).free;
    assert g == s.free + [c];
    assert g[|s.free|] == c;
  }

  lemma CarveWholeInv(s: State, k: nat, n: nat)
    requires Inv(s) && 0 < n && k < |s.free| && s.free[k].size >= HEADER + n
    ensures Inv(s.(free := RemoveAt(s.free, k), alloc := InsertAlloc(s.alloc, s.free[k].(req := n))))
  {
    var p := s.free[k];
    var x := p.(req := n);
    Shaped(s, multiset{}, p);
    hide Ascending, ByRequest, InsertAlloc, RemoveAt;
    UnlinkFree(s, k, multiset{});
    TilesOne(p);
    TilesOne(x);
    hide Tiles;
    var s1 := s.(free := RemoveAt(s.free, k));
    Reshape(s1, multiset{p}, multiset{x}, p.addr, p.End(), multiset{});
    LinkAlloc(s1, x, multiset{});
  }

  lemma CarveSplitInv(s: State, k: nat, x: Block, y: Block)
    requires Inv(s) && k < |s.free|
    requires x.addr == s.free[k].addr && x.End() == y.addr && y.End() == s.free[k].End()
    requires WellShaped(x, x.addr, x.End()) && WellShaped(y, y.addr, y.End()) && y.req == 0 < x.req
    ensures Inv(s.(free := InsertFree(RemoveAt(s.free, k), y), alloc := InsertAlloc(s.alloc, x)))
  {
    var p := s.free[k];
    Shaped(s, multiset{}, p);
    hide Ascending, ByRequest, InsertFree, InsertAlloc, RemoveAt;
    UnlinkFree(s, k, multiset{});
    TilesOne(p);
    TilesTwo(x, y);
    hide Tiles;
    var s1 := s.(free := RemoveAt(s.free, k));
    Reshape(s1, multiset{p}, multiset{x, y}, p.addr, p.End(), multiset{});
    hide InvWith;
    assert multiset{} + multiset{x, y} == multiset{x} + multiset{y};
    LinkFree(s1, y, multiset{x});
    assert multiset{x} == multiset{} + multiset{x};
    LinkAlloc(s1.(free := InsertFree(s1.free, y)), x, multiset{});
  }

  /** Turning free block k into an allocation, whole or split. */
  lemma CarveInv(s: State, k: nat, n: nat)
    requires Inv(s) && 0 < n <= MAX_REQUEST && k < |s.free| && s.free[k].size >= RequiredSize(n)
    ensures Inv(Carve(s, k, RequiredSize(n), n))
  {
    hide Inv, InsertFree, InsertAlloc, RemoveAt, RequiredSize, ChunkSize;
    var p, need := s.free[k], RequiredSize(n);
    RequestArithmetic(n);
    ShapedFree(s, k);
    if p.size - need >= HEADER {
      CarveSplitInv(s, k, Block(p.addr, need, n), Block(p.addr + need, p.size - need, 0));
    } else {
      CarveWholeInv(s, k, n);
    }
  }

  /** A sound request past the limit is refused: nothing fits and the heap cannot grow. */
  lemma LargeRefused(s: State, n: nat)
    requires Inv(s) && Sound(s, n) && MAX_REQUEST < n
    ensures Decide(s, n) == Refused && Malloc(s, n) == Outcome(s, 0)
    ensures FirstFit(s.free, RequiredSize(n)) == |s.free| && !CanGrow(s, RequiredSize(n))
    ensures forall x :: x in s.free ==> x.size < HEADER + n
  {
    LargeSizes(n);
    hide RequiredSize, ChunkSize;
    SmallBlocks(s);
    hide InvWith;
    NoSuchBreak(s, ChunkSize(RequiredSize(n)));
  }

  lemma NoSuchBreak(s: State, chunk: nat)
    requires 0 < s.base <= s.brk < MEMSIZE_VIRTUAL - PAGE && chunk < U64
    ensures var newBreak := (s.brk + AsSigned(chunk)) % U64;
            BreakAllowed(s, newBreak) <==>
            if chunk < U64 / 2 then s.brk + chunk < MEMSIZE_VIRTUAL - PAGE else s.base <= s.brk + chunk - U64
    ensures var newBreak := (s.brk + AsSigned(chunk)) % U64;
            BreakAllowed(s, newBreak) ==> newBreak == s.brk + AsSigned(chunk)
  {
    var d := s.brk + AsSigned(chunk);
    if d < 0 {
      assert d % U64 == d + U64;
    } else {
      assert d % U64 == d;
    }
  }

  lemma SmallBlocks(s: State)
    requires Inv(s)
    ensures forall x :: x in s.free ==> HEADER <= x.size < MEMSIZE_VIRTUAL
    ensures 0 < s.base <= s.brk < MEMSIZE_VIRTUAL - PAGE
  {
    forall x | x in s.free
      ensures HEADER <= x.size < MEMSIZE_VIRTUAL
    {
      Shaped(s, multiset{}, x);
    }
  }

  lemma MallocInv(s: State, n: nat)
    requires Inv(s) && Sound(s, n)
    ensures Inv(Malloc(s, n).st)
  {
    if n <= MAX_REQUEST {
      SmallMallocInv(s, n);
    } else {
      LargeRefused(s, n);
    }
  }

  lemma SmallMallocInv(s: State, n: nat)
    requires Inv(s) && n <= MAX_REQUEST
    ensures Inv(Malloc(s, n).st)
  {
    hide Inv, Carve, Grow, CanGrow, RequiredSize;
    var need := RequiredSize(n);
    var k := FirstFit(s.free, need);
    if n != 0 {
      if k < |s.free| {
        CarveInv(s, k, n);
      } else if CanGrow(s, need) {
        GrowInv(s, n);
        GrowFits(s, n);
        CarveInv(Grow(s, need), k, n);
      }
    }
  }

  lemma FreeInv(s: State, p: int)
    requires Inv(s) && LivePtr(s, p)
    ensures Inv(Free(s, p))
  {
    if p != 0 {
      var k := IndexOf(s.alloc, p);
      var b := s.alloc[k];
      Shaped(s, multiset{}, b);
      hide Ascending, ByRequest, InsertFree, InsertAlloc, RemoveAt;
      UnlinkAlloc(s, k, multiset{});
      TilesOne(b);
      TilesOne(b.(req := 0));
      hide Tiles;
      var s1 := s.(alloc := RemoveAt(s.alloc, k));
      Reshape(s1, multiset{b}, multiset{b.(req := 0)}, b.addr, b.End(), multiset{});
      LinkFree(s1, b.(req := 0), multiset{});
    }
  }

  /** Block k of s absorbs the block after it. */
  function MergeAt(s: seq<Block>, k: nat): seq<Block>
    requires k + 1 < |s|
  {
    RemoveAt(s[k := s[k].(size := s[k].size + s[k + 1].size)], k + 1)
  }

  lemma MergeMultiset(s: seq<Block>, k: nat)
    requires k + 1 < |s|
    ensures multiset(MergeAt(s, k)) ==
            multiset(s) - multiset{s[k], s[k + 1]} + multiset{s[k].(size := s[k].size + s[k + 1].size)}
    ensures multiset{s[k], s[k + 1]} <= multiset(s)
  {
    var m := s[k].(size := s[k].size + s[k + 1].size);
    assert s == s[..k] + [s[k], s[k + 1]] + s[k + 2..];
    assert MergeAt(s, k) == s[..k] + [m] + s[k + 2..];
  }

  lemma MergeKeeps(s: seq<Block>, k: nat)
    requires Ascending(s) && k + 1 < |s| && s[k].End() == s[k + 1].addr
    requires forall i :: 0 <= i < |s| ==> s[i].req == 0
    ensures Ascending(MergeAt(s, k))
    ensures forall i :: 0 <= i < |MergeAt(s, k)| ==> MergeAt(s, k)[i].req == 0
  {
    var z := s[k].(size := s[k].size + s[k + 1].size);
    assert MergeAt(s, k) == s[..k] + [z] + s[k + 2..];
  }

  lemma MergeAll(s: State, k: nat, x: Block, y: Block, z: Block)
    requires k + 1 < |s.free| && x == s.free[k] && y == s.free[k + 1] && z == x.(size := x.size + y.size)
    ensures multiset{x, y} <= All(s, multiset{})
    ensures All(s.(free := MergeAt(s.free, k)), multiset{}) == All(s, multiset{}) - multiset{x, y} + multiset{z}
  {
    hide MergeAt;
    MergeMultiset(s.free, k);
    Exchange(multiset(s.free), multiset(MergeAt(s.free, k)), multiset(s.alloc), multiset{x, y}, multiset{z});
  }

  lemma Exchange(f: multiset<Block>, f2: multiset<Block>, a: multiset<Block>,
                 outs: multiset<Block>, ins: multiset<Block>)
    requires outs <= f && f2 == f - outs + ins
    ensures outs <= f + a + multiset{}
    ensures f2 + a + multiset{} == (f + a + multiset{}) - outs + ins
  {
  }

  lemma MergeInv(s: State, k: nat)
    requires Inv(s) && k + 1 < |s.free| && s.free[k].End() == s.free[k + 1].addr
    ensures Inv(s.(free := MergeAt(s.free, k)))
  {
    hide MergeAt, Ascending, ByRequest, Tiles, All;
    var x, y := s.free[k], s.free[k + 1];
    var z := x.(size := x.size + y.size);
    ShapedFree(s, k);
    ShapedFree(s, k + 1);
    MergeAll(s, k, x, y, z);
    MergeKeeps(s.free, k);
    TilesTwo(x, y);
    TilesOne(z);
    Retile(All(s, multiset{}), multiset{x, y}, multiset{z}, x.addr, y.End(), s.base, s.brk);
  }

  /** Merging from index k on is what remains of the coalescing pass. */
  lemma MergeAtCoalesces(s: seq<Block>, k: nat)
    requires k + 1 < |s| && s[k].End() == s[k + 1].addr
    ensures |MergeAt(s, k)| == |s| - 1
    ensures MergeAt(s, k)[..k] == s[..k]
    ensures Coalesce(MergeAt(s, k)[k..]) == Coalesce(s[k..])
  {
    var z := s[k].(size := s[k].size + s[k + 1].size);
    assert MergeAt(s, k) == s[..k] + [z] + s[k + 2..];
    assert MergeAt(s, k)[k..] == [z] + s[k + 2..];
    assert s[k..][2..] == s[k + 2..];
  }

  lemma StepCoalesces(s: seq<Block>, k: nat)
    requires k + 1 < |s| && s[k].End() != s[k + 1].addr
    ensures s[..k] + Coalesce(s[k..]) == s[..k + 1] + Coalesce(s[k + 1..])
  {
    assert s[k..][1..] == s[k + 1..];
    assert Coalesce(s[k..]) == [s[k]] + Coalesce(s[k + 1..]);
  }

  lemma {:induction false} CoalesceInv(s: State, k: nat)
    requires Inv(s) && k <= |s.free|
    ensures Inv(s.(free := s.free[..k] + Coalesce(s.free[k..])))
    decreases |s.free| - k
  {
    hide Inv, MergeAt;
    if |s.free| - k < 2 {
      assert s.free == s.free[..k] + Coalesce(s.free[k..]);
    } else if s.free[k].End() == s.free[k + 1].addr {
      MergeInv(s, k);
      MergeAtCoalesces(s.free, k);
      CoalesceInv(s.(free := MergeAt(s.free, k)), k);
    } else {
      StepCoalesces(s.free, k);
      CoalesceInv(s, k + 1);
    }
  }

  lemma DefragInv(s: State)
    requires Inv(s)
    ensures Inv(Defrag(s))
  {
    hide Inv;
    CoalesceInv(s, 0);
    assert s.free[0..] == s.free;
    assert s.free[..0] + Coalesce(s.free) == Coalesce(s.free);
  }
}
