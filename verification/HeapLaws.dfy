/** What each allocator call owes its caller, said without the functions that compute it: which
    blocks are listed before and after, in unbounded arithmetic. */
module HeapLaws {
  import opened Words
  import opened Blocks
  import opened HeapSpec
  import opened HeapInvariant
  import opened HeapFacts
  import opened HeapCounts

  // ----- conservation ------------------------------------------------------------------------

  lemma {:induction false} TotalJoin(s: seq<Block>, t: seq<Block>)
    ensures TotalSize(s + t) == TotalSize(s) + TotalSize(t)
  {
    if t == [] {
      assert s + t == s;
    } else {
      TotalJoin(s, t[..|t| - 1]);
      assert (s + t)[..|s + t| - 1] == s + t[..|t| - 1];
    }
  }

  lemma TotalRemove(s: seq<Block>, k: nat)
    requires k < |s|
    ensures TotalSize(s) == TotalSize(RemoveAt(s, k)) + s[k].size
  {
    hide TotalSize;
    var a, b := s[..k], s[k + 1..];
    assert s == a + ([s[k]] + b);
    TotalJoin(a, [s[k]] + b);
    TotalJoin([s[k]], b);
    TotalJoin(a, b);
    TotalOne(s[k]);
  }

  lemma TotalOne(x: Block)
    ensures TotalSize([x]) == x.size
  {
    assert [x][..0] == [];
  }

  /** Taking the first block of a tiling leaves a tiling of the rest. */
  lemma TilesRest(m: multiset<Block>, x: Block, base: int, brk: int)
    requires Tiles(m, base, brk) && x in m && x.addr == base
    ensures Tiles(m - multiset{x}, x.End(), brk)
  {
    var m2 := m - multiset{x};
    forall y | y in m2
      ensures y in m && x.End() <= y.addr && m2[y] == 1
    {
      assert y == x ==> m[x] >= 2;
      assert WellShaped(x, base, brk) && WellShaped(y, base, brk) && Apart(x, y);
    }
    forall a | x.End() <= a < brk
      ensures Covered(m2, a)
    {
      assert WellShaped(x, base, brk);
      assert Covered(m, a);
      var y :| y in m && y.Holds(a);
      assert y in m2;
    }
  }

  /** The sizes of blocks that tile a range add up to it. */
  lemma {:induction false} TilesTotal(s: seq<Block>, base: int, brk: int)
    requires Tiles(multiset(s), base, brk) && base <= brk
    ensures TotalSize(s) == brk - base
    decreases brk - base
  {
    if base == brk {
      NothingTiles(multiset(s), base);
      assert |s| == |multiset(s)| == 0;
    } else {
      var k := FirstBlock(s, base, brk);
      TotalRemove(s, k);
      RemoveAtMultiset(s, k);
      TilesRest(multiset(s), s[k], base, brk);
      assert WellShaped(s[k], base, brk) by {
        assert s[k] in multiset(s);
      }
      hide Tiles, RemoveAt;
      TilesTotal(RemoveAt(s, k), s[k].End(), brk);
    }
  }

  lemma NothingTiles(m: multiset<Block>, base: int)
    requires Tiles(m, base, base)
    ensures m == multiset{}
  {
    assert forall x :: x in m ==> WellShaped(x, base, base);
  }

  lemma FirstBlock(s: seq<Block>, base: int, brk: int) returns (k: nat)
    requires Tiles(multiset(s), base, brk) && base < brk
    ensures k < |s| && s[k].addr == base
  {
    assert Covered(multiset(s), base);
    var x :| x in multiset(s) && x.Holds(base);
    assert WellShaped(x, base, brk);
    assert x in s;
    k :| k < |s| && s[k] == x;
  }

  /** Free and allocated bytes add up to the heap. */
  lemma BytesConserved(s: State)
    requires Inv(s)
    ensures TotalSize(s.free) + TotalSize(s.alloc) == s.brk - s.base
  {
    var q := s.free + s.alloc;
    assert multiset(q) == All(s, multiset{});
    TotalJoin(s.free, s.alloc);
    TilesTotal(q, s.base, s.brk);
  }

  lemma {:induction false} TotalPermuted(s: seq<Block>, t: seq<Block>)
    requires multiset(s) == multiset(t)
    ensures TotalSize(s) == TotalSize(t)
    decreases |s|
  {
    if s == [] {
      assert |t| == |multiset(t)| == 0;
    } else {
      assert s[0] in multiset(t);
      var k :| 0 <= k < |t| && t[k] == s[0];
      TotalRemove(s, 0);
      TotalRemove(t, k);
      RemoveAtMultiset(s, 0);
      RemoveAtMultiset(t, k);
      TotalPermuted(RemoveAt(s, 0), RemoveAt(t, k));
    }
  }

  // ----- malloc ---------------------------------------------------------------------------------

  /** From t's point of view free block x of f served n bytes: the allocation starts where x did and is the
      header and the request, rounded up to 8, if what is over can hold a header, and all of x otherwise;
      what is over is free. */
  ghost predicate HandedOut(s: State, f: multiset<Block>, x: Block, n: nat, t: State, p: int)
  {
    var need := Up(HEADER + n, 8);
    && p == x.addr + HEADER && p != 0
    && if x.size - need >= HEADER then
         Adds(s, t, Block(x.addr, need, n), f - multiset{x} + multiset{Block(x.addr + need, x.size - need, 0)})
       else
         Adds(s, t, Block(x.addr, x.size, n), f - multiset{x})
  }

  /** t has one allocation more than s, and the free blocks f. */
  ghost predicate Adds(s: State, t: State, c: Block, f: multiset<Block>)
  {
    t.base == s.base && multiset(t.alloc) == multiset(s.alloc) + multiset{c} && multiset(t.free) == f
  }

  /** The chunk a growth for n bytes lists. */
  function Chunk(s: State, n: nat): Block
  {
    Block(s.brk, IdealChunk(n), 0)
  }

  /** The chunk ends below the stack page. */
  predicate RoomToGrow(s: State, n: nat)
  {
    s.brk + IdealChunk(n) < MEMSIZE_VIRTUAL - PAGE
  }

  /** malloc(n) may take s to t and return p. */
  ghost predicate MallocLaw(s: State, n: nat, t: State, p: int)
  {
    if n == 0 then p == 0 && t == s
    else if SomeFits(s, n) then
      t.brk == s.brk && exists x :: LowestFit(s, n, x) && HandedOut(s, multiset(s.free), x, n, t, p)
    else if RoomToGrow(s, n) then
      && t.brk == s.brk + IdealChunk(n)
      && HandedOut(s, multiset(s.free) + multiset{Chunk(s, n)}, Chunk(s, n), n, t, p)
    else p == 0 && t == s
  }

  lemma MallocObeys(s: State, n: nat)
    requires Inv(s) && Sound(s, n)
    ensures MallocLaw(s, n, Malloc(s, n).st, Malloc(s, n).ptr)
  {
    if n == 0 {
    } else if n <= MAX_REQUEST {
      SmallObeys(s, n);
    } else {
      LargeRefused(s, n);
      SmallBlocks(s);
      IdealBound(n);
      hide Malloc, IdealChunk, Inv, HandedOut;
    }
  }

  lemma SmallObeys(s: State, n: nat)
    requires Inv(s) && 0 < n <= MAX_REQUEST
    ensures MallocLaw(s, n, Malloc(s, n).st, Malloc(s, n).ptr)
  {
    hide Inv, RequiredSize, FirstFit, Carve, Grow, CanGrow, LowestFit, SomeFits, MallocLaw;
    FirstFitLowest(s, n);
    FreeAbove(s);
    var need := RequiredSize(n);
    var k := FirstFit(s.free, need);
    if k < |s.free| {
      FoundObeys(s, k, n);
    } else if CanGrow(s, need) {
      GrownObeys(s, n);
    } else {
      RefusedObeys(s, n);
    }
  }

  lemma RefusedObeys(s: State, n: nat)
    requires 0 < n <= MAX_REQUEST && !SomeFits(s, n) && !CanGrow(s, RequiredSize(n))
    ensures MallocLaw(s, n, s, 0)
  {
    hide RequiredSize, ChunkSize, IdealChunk, HandedOut;
    IdealIsChunk(n);
  }

  /** The block found hands itself out. */
  lemma FoundObeys(s: State, k: nat, n: nat)
    requires k < |s.free| && 0 < n <= MAX_REQUEST && 0 < s.free[k].addr && LowestFit(s, n, s.free[k])
    ensures var t, p := Carve(s, k, RequiredSize(n), n), s.free[k].Payload();
            SomeFits(s, n) && t.brk == s.brk && MallocLaw(s, n, t, p)
  {
    hide RequiredSize, HandedOut, LowestFit, Fits, IdealChunk;
    CarveObeys(s, k, n);
    LowestFits(s, n, s.free[k]);
  }

  /** The grown heap hands the chunk out. */
  lemma GrownObeys(s: State, n: nat)
    requires Inv(s) && 0 < n <= MAX_REQUEST && FirstFit(s.free, RequiredSize(n)) == |s.free| && !SomeFits(s, n)
    requires CanGrow(s, RequiredSize(n))
    ensures var g := Grow(s, RequiredSize(n));
            && FirstFit(g.free, RequiredSize(n)) == |s.free| < |g.free|
            && MallocLaw(s, n, Carve(g, |s.free|, RequiredSize(n), n), g.free[|s.free|].Payload())
  {
    hide Inv, RequiredSize, ChunkSize, IdealChunk, HandedOut, FirstFit, InsertFree, Carve, SomeFits;
    GrowFits(s, n);
    IdealIsChunk(n);
    FreeAbove(s);
    var g := Grow(s, RequiredSize(n));
    assert g.free[|s.free|] == Chunk(s, n);
    var t := Carve(g, |s.free|, RequiredSize(n), n);
    assert t.brk == g.brk by {
      CarveKeepsBreak(g, |s.free|, RequiredSize(n), n);
    }
    CarveObeys(g, |s.free|, n);
    HandedOutOf(s, g, Chunk(s, n), n, t, s.brk + HEADER);
  }

  lemma CarveKeepsBreak(s: State, k: nat, need: nat, n: nat)
    requires k < |s.free|
    ensures Carve(s, k, need, n).brk == s.brk
  {
  }

  lemma LowestFits(s: State, n: nat, x: Block)
    requires LowestFit(s, n, x)
    ensures SomeFits(s, n)
  {
  }

  /** Carving free block k hands it out. */
  lemma CarveObeys(s: State, k: nat, n: nat)
    requires k < |s.free| && n <= MAX_REQUEST && 0 < s.free[k].addr
    ensures HandedOut(s, multiset(s.free), s.free[k], n, Carve(s, k, RequiredSize(n), n), s.free[k].Payload())
  {
    hide RequiredSize, Up, RemoveAt, InsertFree, InsertAlloc, HandedOut, Carve;
    NeedIsUp(n);
    if s.free[k].size - RequiredSize(n) >= HEADER {
      CarveSplits(s, k, RequiredSize(n), n);
    } else {
      CarveTakesAll(s, k, RequiredSize(n), n);
    }
  }

  lemma CarveSplits(s: State, k: nat, need: nat, n: nat)
    requires k < |s.free| && 0 < s.free[k].addr && need == Up(HEADER + n, 8) && s.free[k].size - need >= HEADER
    ensures HandedOut(s, multiset(s.free), s.free[k], n, Carve(s, k, need, n), s.free[k].Payload())
  {
    hide Up, RemoveAt, InsertFree, InsertAlloc, Adds;
    var x := s.free[k];
    SplitBlocks(s, k, Block(x.addr, need, n), Block(x.addr + need, x.size - need, 0));
  }

  lemma CarveTakesAll(s: State, k: nat, need: nat, n: nat)
    requires k < |s.free| && 0 < s.free[k].addr && need == Up(HEADER + n, 8) && s.free[k].size - need < HEADER
    ensures HandedOut(s, multiset(s.free), s.free[k], n, Carve(s, k, need, n), s.free[k].Payload())
  {
    hide Up, RemoveAt, InsertFree, InsertAlloc, Adds;
    WholeBlock(s, k, Block(s.free[k].addr, s.free[k].size, n));
  }

  lemma SplitBlocks(s: State, k: nat, c: Block, y: Block)
    requires k < |s.free|
    ensures Adds(s, s.(free := InsertFree(RemoveAt(s.free, k), y), alloc := InsertAlloc(s.alloc, c)), c,
                 multiset(s.free) - multiset{s.free[k]} + multiset{y})
  {
    hide RemoveAt, InsertFree, InsertAlloc;
    RemoveAtMultiset(s.free, k);
    FreeAdded(RemoveAt(s.free, k), y);
    AllocAdded(s.alloc, c);
  }

  lemma WholeBlock(s: State, k: nat, c: Block)
    requires k < |s.free|
    ensures Adds(s, s.(free := RemoveAt(s.free, k), alloc := InsertAlloc(s.alloc, c)), c,
                 multiset(s.free) - multiset{s.free[k]})
  {
    hide RemoveAt, InsertAlloc;
    RemoveAtMultiset(s.free, k);
    AllocAdded(s.alloc, c);
  }

  lemma FreeAdded(f: seq<Block>, y: Block)
    ensures multiset(InsertFree(f, y)) == multiset(f) + multiset{y}
  {
    InsertAtMultiset(f, FreePos(f, y), y);
  }

  lemma AllocAdded(a: seq<Block>, c: Block)
    ensures multiset(InsertAlloc(a, c)) == multiset(a) + multiset{c}
  {
    InsertAtMultiset(a, AllocPos(a, c), c);
  }

  lemma NeedIsUp(n: nat)
    requires n <= MAX_REQUEST
    ensures RequiredSize(n) == Up(HEADER + n, 8)
  {
    Unwrapped(HEADER + n);
    RoundIsUp8(HEADER + n);
    hide RoundUp64, Up;
  }

  /** Handing out of the grown heap is handing out of the old one with the chunk. */
  lemma HandedOutOf(s: State, g: State, x: Block, n: nat, t: State, p: int)
    requires g.alloc == s.alloc && g.base == s.base && g.free == s.free + [x]
    requires HandedOut(g, multiset(g.free), x, n, t, p)
    ensures HandedOut(s, multiset(s.free) + multiset{x}, x, n, t, p)
  {
    hide Up;
    assert multiset(g.free) == multiset(s.free) + multiset{x};
  }

  /** The size of what is handed out, and the free bytes that are left. */
  lemma MallocBytes(s: State, n: nat) returns (x: Block)
    requires Inv(s) && Sound(s, n) && Malloc(s, n).ptr != 0
    ensures if SomeFits(s, n) then LowestFit(s, n, x) else x == Chunk(s, n)
    ensures var r, need := Malloc(s, n), Up(HEADER + n, 8);
            && LivePtr(r.st, r.ptr) && BlockAt(r.st, r.ptr).addr == x.addr
            && BlockAt(r.st, r.ptr).size == (if x.size - need >= HEADER then need else x.size)
            && TotalSize(r.st.free) ==
               TotalSize(s.free) + (if SomeFits(s, n) then 0 else IdealChunk(n)) - BlockAt(r.st, r.ptr).size
  {
    MallocObeys(s, n);
    MallocInv(s, n);
    MallocAdds(s, n);
    var r := Malloc(s, n);
    var f := if SomeFits(s, n) then multiset(s.free) else multiset(s.free) + multiset{Chunk(s, n)};
    if SomeFits(s, n) {
      x :| LowestFit(s, n, x) && HandedOut(s, multiset(s.free), x, n, r.st, r.ptr);
    } else {
      x := Chunk(s, n);
    }
    hide Malloc, MallocLaw, Up, IdealChunk, SomeFits, LowestFit, Sound;
    BytesConserved(s);
    BytesConserved(r.st);
    NewBlock(s, f, x, n, r.st, r.ptr);
    TotalAdded(s.alloc, r.st.alloc, BlockAt(r.st, r.ptr));
  }

  lemma TotalAdded(s: seq<Block>, t: seq<Block>, c: Block)
    requires multiset(t) == multiset(s) + multiset{c}
    ensures TotalSize(t) == TotalSize(s) + c.size
  {
    hide TotalSize;
    TotalPermuted(t, s + [c]);
    TotalJoin(s, [c]);
    TotalOne(c);
  }

  /** The new allocation is the one found at the pointer. */
  lemma NewBlock(s: State, f: multiset<Block>, x: Block, n: nat, t: State, p: int)
    requires Inv(t) && LivePtr(t, p) && HandedOut(s, f, x, n, t, p)
    ensures var need, c := Up(HEADER + n, 8), BlockAt(t, p);
            && c == Block(x.addr, if x.size - need >= HEADER then need else x.size, n)
            && multiset(t.alloc) == multiset(s.alloc) + multiset{c}
  {
    var need := Up(HEADER + n, 8);
    var c := Block(x.addr, if x.size - need >= HEADER then need else x.size, n);
    assert c in multiset(t.alloc);
    hide Up;
    Findable(t, c);
  }

  // ----- free --------------------------------------------------------------------------------------

  /** free(p) takes s to t: p's block is free, and nothing else changes. */
  ghost predicate FreeLaw(s: State, p: int, t: State)
  {
    if p == 0 then t == s else
    && t.base == s.base && t.brk == s.brk
    && exists b :: b in s.alloc && b.addr + HEADER == p
                   && multiset(t.alloc) == multiset(s.alloc) - multiset{b}
                   && multiset(t.free) == multiset(s.free) + multiset{Block(b.addr, b.size, 0)}
  }

  lemma FreeObeys(s: State, p: int)
    requires LivePtr(s, p)
    ensures FreeLaw(s, p, Free(s, p))
  {
    if p != 0 {
      hide RemoveAt, InsertFree;
      var k := IndexOf(s.alloc, p);
      var b := s.alloc[k];
      RemoveAtMultiset(s.alloc, k);
      FreeAdded(s.free, b.(req := 0));
      assert b in s.alloc;
    }
  }

  // ----- calloc ---------------------------------------------------------------------------------------

  /** calloc(num, sz): malloc of the product when there is one to speak of and it fits 64 bits, else NULL. */
  ghost predicate CallocLaw(s: State, num: nat, sz: nat, t: State, p: int)
  {
    if 0 < num && 0 < sz && num * sz < U64 then MallocLaw(s, num * sz, t, p) else p == 0 && t == s
  }

  lemma CallocObeys(s: State, num: nat, sz: nat)
    requires Inv(s) && SoundProduct(s, num, sz)
    ensures CallocLaw(s, num, sz, Calloc(s, num, sz).st, Calloc(s, num, sz).ptr)
  {
    hide Malloc, MallocLaw, Inv, Sound;
    if 0 < num && 0 < sz {
      CallocTestExact(num, sz);
      if num * sz < U64 {
        MallocObeys(s, num * sz);
      }
    }
  }

  /** It returns memory exactly when it is asked for some, the product fits, and a block fits or the heap can
      grow; then one allocation of the product is added there. */
  lemma CallocReturns(s: State, num: nat, sz: nat)
    requires Inv(s) && SoundProduct(s, num, sz)
    ensures var r := Calloc(s, num, sz);
            && (r.ptr != 0 <==> 0 < num && 0 < sz && num * sz < U64
                                && (SomeFits(s, num * sz) || RoomToGrow(s, num * sz)))
            && (r.ptr == 0 ==> r.st == s)
            && (r.ptr != 0 ==> exists c: Block ::
                  c.addr + HEADER == r.ptr && c.req == num * sz && HEADER + c.req <= c.size
                  && multiset(r.st.alloc) == multiset(s.alloc) + multiset{c})
  {
    CallocObeys(s, num, sz);
    hide Calloc, Inv, SoundProduct, HandedOut;
    var r := Calloc(s, num, sz);
    if 0 < num && 0 < sz && num * sz < U64 {
      ProductPositive(num, sz);
      MallocReturns(s, num * sz, r.st, r.ptr);
    }
  }

  lemma ProductPositive(num: nat, sz: nat)
    requires 0 < num && 0 < sz
    ensures 0 < num * sz
  {
  }

  /** What the law says of success and of the allocation. */
  lemma MallocReturns(s: State, n: nat, t: State, p: int)
    requires 0 < n && MallocLaw(s, n, t, p)
    ensures p != 0 <==> SomeFits(s, n) || RoomToGrow(s, n)
    ensures p == 0 ==> t == s
    ensures p != 0 ==> exists c: Block :: c.addr + HEADER == p && c.req == n && HEADER + n <= c.size
                                   && multiset(t.alloc) == multiset(s.alloc) + multiset{c}
  {
    UpBounds(HEADER + n, 8);
    IdealBound(n);
    hide Up, IdealChunk;
    if p != 0 {
      var x := if SomeFits(s, n) then
                 var x :| LowestFit(s, n, x) && HandedOut(s, multiset(s.free), x, n, t, p); x
               else Chunk(s, n);
      var need := Up(HEADER + n, 8);
      var c := Block(x.addr, if x.size - need >= HEADER then need else x.size, n);
      assert multiset(t.alloc) == multiset(s.alloc) + multiset{c};
    }
  }

  // ----- realloc -----------------------------------------------------------------------------------------

  /** realloc(p, sz): malloc without a block, free without a size, else malloc and, when that succeeds, free. */
  ghost predicate ReallocLaw(s: State, p: int, sz: nat, t: State, q: int)
  {
    if p == 0 then MallocLaw(s, sz, t, q)
    else if sz == 0 then FreeLaw(s, p, t) && q == 0
    else exists u :: MallocLaw(s, sz, u, q) && if q == 0 then t == u else FreeLaw(u, p, t)
  }

  lemma ReallocObeys(s: State, p: int, sz: nat)
    requires Inv(s) && LivePtr(s, p) && Sound(s, sz)
    ensures ReallocLaw(s, p, sz, Realloc(s, p, sz).st, Realloc(s, p, sz).ptr)
  {
    MallocObeys(s, sz);
    var m := Malloc(s, sz);
    hide Malloc, MallocLaw, FreeLaw, Inv, Sound, Free;
    if p != 0 && sz == 0 {
      FreeObeys(s, p);
    } else if p != 0 && m.ptr != 0 {
      StillLivePtr(s, p, sz);
      FreeObeys(m.st, p);
    }
  }

  lemma StillLivePtr(s: State, p: int, n: nat)
    requires Inv(s) && p != 0 && LivePtr(s, p) && Sound(s, n) && Malloc(s, n).ptr != 0
    ensures LivePtr(Malloc(s, n).st, p) && BlockAt(Malloc(s, n).st, p) == BlockAt(s, p)
  {
    MallocAdds(s, n);
    MallocInv(s, n);
    var r := Malloc(s, n);
    hide Malloc, Inv, Sound;
    var c := BlockAt(r.st, r.ptr);
    InsertAtMembers(s.alloc, AllocPos(s.alloc, c), c);
    Findable(r.st, BlockAt(s, p));
  }

  /** On success the live allocations are those before, without the old block and with one of sz bytes at the
      new pointer; it fails exactly when no free block fits and the heap cannot grow, and then nothing changes. */
  lemma ReallocMoves(s: State, p: int, sz: nat)
    requires Inv(s) && p != 0 && LivePtr(s, p) && 0 < sz && Sound(s, sz)
    ensures var r := Realloc(s, p, sz);
            && (r.ptr == 0 <==> !SomeFits(s, sz) && !RoomToGrow(s, sz))
            && (r.ptr == 0 ==> r.st == s)
            && (r.ptr != 0 ==> exists c: Block ::
                  c.addr + HEADER == r.ptr && c.req == sz && HEADER + sz <= c.size && c != BlockAt(s, p)
                  && multiset(r.st.alloc) == multiset(s.alloc) - multiset{BlockAt(s, p)} + multiset{c})
  {
    MallocObeys(s, sz);
    var m := Malloc(s, sz);
    MallocReturns(s, sz, m.st, m.ptr);
    if m.ptr != 0 {
      StillLivePtr(s, p, sz);
      MallocAdds(s, sz);
      MallocInv(s, sz);
      hide Malloc, MallocLaw, Inv, Sound, SomeFits;
      var b, c := BlockAt(s, p), BlockAt(m.st, m.ptr);
      InsertAtMultiset(s.alloc, AllocPos(s.alloc, c), c);
      FreeRemoves(m.st, p);
      assert c != b;
      MovedBlocks(multiset(s.alloc), multiset(m.st.alloc), multiset(Realloc(s, p, sz).st.alloc), b, c);
    }
  }

  lemma MovedBlocks(a: multiset<Block>, m: multiset<Block>, t: multiset<Block>, b: Block, c: Block)
    requires m == a + multiset{c} && m == t + multiset{b} && b != c
    ensures t == a - multiset{b} + multiset{c}
  {
    var r := a - multiset{b} + multiset{c};
    forall x
      ensures t[x] == r[x]
    {
      assert m[x] == a[x] + multiset{c}[x] == t[x] + multiset{b}[x];
    }
  }

  // ----- heap_info -----------------------------------------------------------------------------------------

  /** heap_info: nothing when nothing is live, else one array of 8 bytes an entry, and, if that was had, another;
      it fails when it cannot have both. */
  ghost predicate HeapInfoLaw(s: State, t: State, failed: bool)
  {
    if s.alloc == [] then t == s && !failed else
    exists u, p :: MallocLaw(s, 8 * |s.alloc|, u, p) && SecondArray(u, 8 * |s.alloc|, p, t, failed)
  }

  ghost predicate SecondArray(u: State, n: nat, p: int, t: State, failed: bool)
  {
    if p == 0 then t == u && failed else exists q :: MallocLaw(u, n, t, q) && failed == (q == 0)
  }

  lemma HeapInfoObeys(s: State)
    requires Inv(s)
    ensures HeapInfoLaw(s, HeapInfo(s), HeapInfoFails(s))
  {
    AllocCount(s);
    SmallSound(s, 8 * |s.alloc|);
    SmallSound(Malloc(s, 8 * |s.alloc|).st, 8 * |s.alloc|);
    MallocObeys(s, 8 * |s.alloc|);
    MallocInv(s, 8 * |s.alloc|);
    MallocObeys(Malloc(s, 8 * |s.alloc|).st, 8 * |s.alloc|);
    hide Malloc, MallocLaw, Inv, Sound;
    var u := Malloc(s, 8 * |s.alloc|);
    assert s.alloc != [] ==> SecondArray(u.st, 8 * |s.alloc|, u.ptr, HeapInfo(s), HeapInfoFails(s));
  }
}
