/** What the allocator calls promise their caller, on the abstract state. */
module HeapFacts {
  import opened Blocks
  import opened Words
  import opened HeapSpec
  import opened HeapInvariant

  /** The live allocation whose payload is p. */
  function BlockAt(s: State, p: int): Block
    requires p != 0 && LivePtr(s, p)
  {
    s.alloc[IndexOf(s.alloc, p)]
  }

  lemma SameStart(s: State, x: Block, y: Block)
    requires Inv(s) && x in s.alloc && y in s.alloc && x.addr == y.addr
    ensures x == y
  {
    var m := All(s, multiset{});
    assert x in m && y in m;
  }

  /** Every live allocation is found through its payload address. */
  lemma Findable(s: State, x: Block)
    requires Inv(s) && x in s.alloc
    ensures x.Payload() != 0 && LivePtr(s, x.Payload()) && BlockAt(s, x.Payload()) == x
    ensures WellShaped(x, s.base, s.brk) && 0 < x.req
  {
    Shaped(s, multiset{}, x);
    var i :| 0 <= i < |s.alloc| && s.alloc[i] == x;
    hide InvWith;
    SameStart(s, BlockAt(s, x.Payload()), x);
  }

  /** A free block that can hold the request and a header. */
  predicate Fits(x: Block, n: nat)
  {
    x.size >= HEADER + n
  }

  /** A successful malloc adds one live allocation for n bytes at the returned
      pointer, in list order, and leaves every other one alone. */
  lemma MallocAdds(s: State, n: nat)
    requires Inv(s) && Sound(s, n) && Malloc(s, n).ptr != 0
    ensures n <= MAX_REQUEST
    ensures var r := Malloc(s, n);
            && LivePtr(r.st, r.ptr)
            && var c := BlockAt(r.st, r.ptr);
            && c.Payload() == r.ptr && c.req == n && Fits(c, n) && WellShaped(c, r.st.base, r.st.brk)
            && r.st.alloc == InsertAlloc(s.alloc, c) && c !in s.alloc
            && r.st.base == s.base && s.brk <= r.st.brk
  {
    if n > MAX_REQUEST {
      LargeRefused(s, n);
    }
    var r := Malloc(s, n);
    MallocInv(s, n);
    var c := MallocShape(s, n);
    InsertAtMultiset(s.alloc, AllocPos(s.alloc, c), c);
    InsertAtMembers(s.alloc, AllocPos(s.alloc, c), c);
    FreshBlock(s, r.st, c);
    hide *;
    Findable(r.st, c);
  }

  lemma FreshBlock(s: State, t: State, c: Block)
    requires Inv(t) && multiset(t.alloc) == multiset(s.alloc) + multiset{c}
    ensures c !in s.alloc
  {
    assert c in All(t, multiset{});
    assert c in s.alloc ==> multiset(t.alloc)[c] >= 2;
  }

  lemma MallocShape(s: State, n: nat) returns (c: Block)
    requires Inv(s) && n <= MAX_REQUEST && Malloc(s, n).ptr != 0
    ensures var r := Malloc(s, n);
            c.Payload() == r.ptr && c.req == n && Fits(c, n) && r.st.alloc == InsertAlloc(s.alloc, c)
            && r.st.base == s.base && s.brk <= r.st.brk
  {
    hide InvWith, RequiredSize, ChunkSize, InsertAlloc, InsertFree, RemoveAt;
    RequestArithmetic(n);
    var need := RequiredSize(n);
    var k := FirstFit(s.free, need);
    var g := if k < |s.free| then s else Grow(s, need);
    if k == |s.free| {
      GrowFits(s, n);
    }
    var p := g.free[k];
    c := if p.size - need >= HEADER then Block(p.addr, need, n) else p.(req := n);
  }

  /** The bytes realloc copies: the block size it compares with counts the header. */
  function CopyLength(b: Block, sz: nat): int
  {
    if b.size < sz then b.size else sz
  }

  ghost predicate SomeFits(s: State, n: nat)
  {
    exists x :: x in s.free && Fits(x, n)
  }

  /** x is the lowest-addressed free block that can serve n bytes. */
  ghost predicate LowestFit(s: State, n: nat, x: Block)
  {
    x in s.free && Fits(x, n) && forall y :: y in s.free && Fits(y, n) ==> x.addr <= y.addr
  }

  lemma FittingSizes(s: State, n: nat)
    requires Inv(s) && n <= MAX_REQUEST
    ensures forall x :: x in s.free ==> (x.size >= RequiredSize(n) <==> Fits(x, n))
  {
    forall x | x in s.free
      ensures x.size >= RequiredSize(n) <==> Fits(x, n)
    {
      FitsRequest(s, x, n);
      hide Inv, RequiredSize;
    }
  }

  /** The search stops at the lowest fitting block, and runs off the end iff none fits. */
  lemma FirstFitLowest(s: State, n: nat)
    requires Inv(s) && 0 < n <= MAX_REQUEST
    ensures var k := FirstFit(s.free, RequiredSize(n));
            if k < |s.free| then LowestFit(s, n, s.free[k]) else !SomeFits(s, n)
  {
    FittingSizes(s, n);
    LowestFirst(s);
    hide Inv, RequiredSize;
    LowestOf(s.free, n, RequiredSize(n));
  }

  lemma LowestOf(f: seq<Block>, n: nat, need: nat)
    requires forall i, j :: 0 <= i < j < |f| ==> f[i].addr < f[j].addr
    requires forall x :: x in f ==> (x.size >= need <==> Fits(x, n))
    ensures var k := FirstFit(f, need);
            if k < |f| then Fits(f[k], n) && forall y :: y in f && Fits(y, n) ==> f[k].addr <= y.addr
            else forall x :: x in f ==> !Fits(x, n)
  {
    var k := FirstFit(f, need);
    hide FirstFit, Fits;
    forall y | y in f && Fits(y, n)
      ensures k < |f| && f[k].addr <= y.addr
    {
      var j :| 0 <= j < |f| && f[j] == y;
      assert k <= j;
    }
    assert k < |f| ==> f[k] in f;
  }

  /** With a fitting free block, malloc succeeds inside the lowest one and leaves
      the break alone. Otherwise it grows the heap by one chunk and succeeds at the
      old break, or, exactly when the heap cannot grow, fails and changes nothing. */
  lemma MallocFirstFit(s: State, n: nat)
    requires Inv(s) && 0 < n && Sound(s, n)
    ensures var r := Malloc(s, n);
            if SomeFits(s, n) then
              r.st.brk == s.brk && exists x :: LowestFit(s, n, x) && r.ptr == x.Payload() && r.ptr != 0
            else if CanGrow(s, RequiredSize(n)) then
              r.ptr == s.brk + HEADER && r.ptr != 0 && r.st.brk == s.brk + ChunkSize(RequiredSize(n))
            else
              r.ptr == 0 && r.st == s
  {
    if n <= MAX_REQUEST {
      SmallFirstFit(s, n);
    } else {
      LargeRefused(s, n);
    }
  }

  lemma SmallFirstFit(s: State, n: nat)
    requires Inv(s) && 0 < n <= MAX_REQUEST
    ensures var r := Malloc(s, n);
            if SomeFits(s, n) then
              r.st.brk == s.brk && exists x :: LowestFit(s, n, x) && r.ptr == x.Payload() && r.ptr != 0
            else if CanGrow(s, RequiredSize(n)) then
              r.ptr == s.brk + HEADER && r.ptr != 0 && r.st.brk == s.brk + ChunkSize(RequiredSize(n))
            else
              r.ptr == 0 && r.st == s
  {
    FirstFitLowest(s, n);
    FreeAbove(s);
    hide InvWith, RequiredSize, ChunkSize, InsertAlloc, InsertFree, RemoveAt, Fits;
    var k := FirstFit(s.free, RequiredSize(n));
    if k < |s.free| {
      assert LowestFit(s, n, s.free[k]);
      assert SomeFits(s, n);
    } else if CanGrow(s, RequiredSize(n)) {
      GrowFits(s, n);
    }
  }

  // ----- every request ------------------------------------------------------------

  function Up(a: nat, n: nat): nat
    requires 0 < n
  {
    (a + n - 1) / n * n
  }

  /** The chunk a request needs, in unbounded arithmetic. */
  function IdealChunk(n: nat): nat
  {
    Up(Up(HEADER + n, 8), 4 * PAGE)
  }

  /** What malloc owes its caller, whatever the size: the lowest block that fits; a chunk that fits
      above the break, when no block does; NULL only when neither is to be had. */
  ghost predicate Promised(s: State, n: nat, d: Decision)
  {
    match d
    case Refused => !SomeFits(s, n) && MEMSIZE_VIRTUAL - PAGE <= s.brk + IdealChunk(n)
    case Taken(k) => k < |s.free| && LowestFit(s, n, s.free[k])
    case Grown(chunk, newBreak) =>
      !SomeFits(s, n) && chunk == IdealChunk(n) && newBreak == s.brk + chunk < MEMSIZE_VIRTUAL - PAGE
  }

  lemma UpBounds(a: nat, n: nat)
    requires n == 8 || n == 16384
    ensures a <= Up(a, n) < a + n && Up(a, n) % n == 0
  {
    var q, r := (a + n - 1) / n, (a + n - 1) % n;
    assert a + n - 1 == q * n + r;
    if n == 8 {
      assert q * 8 % 8 == 0;
    } else {
      assert q * 16384 % 16384 == 0;
    }
  }

  lemma IdealBound(n: nat)
    ensures HEADER + n <= IdealChunk(n)
  {
    UpBounds(HEADER + n, 8);
    UpBounds(Up(HEADER + n, 8), 16384);
    hide Up;
  }

  /** Up to the limit the code's chunk is the ideal one. */
  lemma IdealIsChunk(n: nat)
    requires n <= MAX_REQUEST
    ensures ChunkSize(RequiredSize(n)) == IdealChunk(n) < U64 / 2
  {
    RequestArithmetic(n);
    Unwrapped(HEADER + n);
    RoundIsUp8(HEADER + n);
    RoundIsUp16384(RequiredSize(n));
    hide RoundUp64, Up;
  }

  lemma RoundIsUp8(a: nat)
    requires a + 7 < U64
    ensures RoundUp64(a, 8) == Up(a, 8)
  {
    Unwrapped(a + 7);
    var t := a + 7;
    assert t == t / 8 * 8 + t % 8;
  }

  lemma RoundIsUp16384(a: nat)
    requires a + 16383 < U64
    ensures RoundUp64(a, 16384) == Up(a, 16384)
  {
    Unwrapped(a + 16383);
    var t := a + 16383;
    assert t == t / 16384 * 16384 + t % 16384;
  }

  /** For every 64-bit request and every heap, malloc's decision keeps its promise exactly when the
      request is sound. */
  lemma SoundExactly(s: State, n: nat)
    requires Inv(s) && 0 < n < U64
    ensures Promised(s, n, Decide(s, n)) <==> Sound(s, n)
  {
    hide Inv, Promised, Decide, Sound;
    if n <= MAX_REQUEST {
      SmallSound(s, n);
      SmallDecision(s, n);
    } else {
      LargeDecision(s, n);
    }
  }

  lemma LargeDecision(s: State, n: nat)
    requires Inv(s) && MAX_REQUEST < n < U64
    ensures Promised(s, n, Decide(s, n)) <==> Sound(s, n)
  {
    hide RequiredSize, ChunkSize, InvWith, IdealChunk;
    SmallBlocks(s);
    LargeSizes(n);
    NoSuchBreak(s, ChunkSize(RequiredSize(n)));
    IdealBound(n);
    assert forall x :: x in s.free ==> !Fits(x, n);
  }

  lemma SmallDecision(s: State, n: nat)
    requires Inv(s) && 0 < n <= MAX_REQUEST
    ensures Promised(s, n, Decide(s, n))
  {
    FirstFitLowest(s, n);
    SmallBlocks(s);
    IdealIsChunk(n);
    NoSuchBreak(s, ChunkSize(RequiredSize(n)));
    hide RequiredSize, ChunkSize, InvWith, IdealChunk, SomeFits, LowestFit;
  }

  /** A heap with one allocation of 100 bytes. */
  const ONE_ALLOCATION := State([Block(4232, 16248, 0)], [Block(4096, 136, 100)], 4096, 20480)

  /** Reached by one malloc, it answers the largest request with a block that is a header and no more. */
  lemma ShortBlock()
    ensures Malloc(State([], [], 4096, 4096), 100) == Outcome(ONE_ALLOCATION, 4128)
    ensures var r := Malloc(ONE_ALLOCATION, U64 - 1);
            r.ptr == 4264 && r.st.alloc == [Block(4232, HEADER, U64 - 1), Block(4096, 136, 100)]
  {
    FirstHundred();
    WrappedToHeader();
    HeaderOnly();
  }

  lemma FirstHundred()
    ensures Malloc(State([], [], 4096, 4096), 100) == Outcome(ONE_ALLOCATION, 4128)
  {
    HundredSizes();
    var b := Block(4096, 136, 100);
    assert InsertAlloc([], b) == [b];
    hide RequiredSize, ChunkSize;
  }

  lemma HundredSizes()
    ensures RequiredSize(100) == 136 && ChunkSize(136) == 16384
  {
  }

  lemma HeaderOnly()
    requires RequiredSize(U64 - 1) == HEADER
    ensures var r := Malloc(ONE_ALLOCATION, U64 - 1);
            r.ptr == 4264 && r.st.alloc == [Block(4232, HEADER, U64 - 1), Block(4096, 136, 100)]
  {
    hide RequiredSize;
    var b, c := Block(4096, 136, 100), Block(4232, HEADER, U64 - 1);
    assert AllocPos([b], c) == 0;
    assert InsertAlloc([b], c) == [c, b];
    assert RemoveAt(ONE_ALLOCATION.free, 0) == [];
  }

  lemma WrappedToHeader()
    ensures RequiredSize(U64 - 1) == HEADER
  {
    assert RoundUp64(HEADER - 1, 8) == HEADER;
  }

  /** And one 16 KB below 2^64 asks sbrk for -16384 bytes, so that a heap that large gives its top back. */
  lemma ShrinkingRequest(s: State)
    requires Inv(s) && s.base + 16384 <= s.brk
    ensures Decide(s, U64 - 16384 - HEADER) == Grown(U64 - 16384, s.brk - 16384)
  {
    hide InvWith, RequiredSize, ChunkSize, FirstFit;
    SmallBlocks(s);
    ShrinkingSizes();
    NoSuchBreak(s, U64 - 16384);
  }

  lemma ShrinkingSizes()
    ensures RequiredSize(U64 - 16384 - HEADER) == U64 - 16384 && ChunkSize(U64 - 16384) == U64 - 16384
  {
    Unwrapped(U64 - 16384);
    Unwrapped(U64 - 16384 + 7);
    Unwrapped(U64 - 1);
    assert U64 - 16384 + 7 == 8 * 0x1FFF_FFFF_FFFF_F800 + 7;
    assert U64 - 1 == 16384 * 0x3_FFFF_FFFF_FFFF + 16383;
  }

  lemma FreeAbove(s: State)
    requires Inv(s)
    ensures forall x :: x in s.free ==> 0 < x.addr
    ensures 0 < s.brk
  {
    forall x | x in s.free
      ensures 0 < x.addr
    {
      Shaped(s, multiset{}, x);
    }
  }

  lemma LowestFirst(s: State)
    requires Inv(s)
    ensures forall i, j :: 0 <= i < j < |s.free| ==> s.free[i].addr < s.free[j].addr
  {
    forall i, j | 0 <= i < j < |s.free|
      ensures s.free[i].addr < s.free[j].addr
    {
      Shaped(s, multiset{}, s.free[i]);
    }
  }

  /** free removes exactly the allocation it is given, keeping the others in order. */
  lemma FreeRemoves(s: State, p: int)
    requires Inv(s) && LivePtr(s, p) && p != 0
    ensures var t := Free(s, p);
            && BlockAt(s, p) !in t.alloc
            && (forall x :: x in t.alloc <==> x in s.alloc && x != BlockAt(s, p))
            && multiset(s.alloc) == multiset(t.alloc) + multiset{BlockAt(s, p)}
            && t.base == s.base && t.brk == s.brk
  {
    var k := IndexOf(s.alloc, p);
    RemoveAtMultiset(s.alloc, k);
    AllocOnce(s, s.alloc[k]);
    var r := RemoveAt(s.alloc, k);
    assert forall x :: x in r <==> x in multiset(r);
    assert forall x :: x in s.alloc <==> x in multiset(s.alloc);
  }

  lemma AllocOnce(s: State, x: Block)
    requires Inv(s) && x in s.alloc
    ensures multiset(s.alloc)[x] == 1
  {
    var m := All(s, multiset{});
    assert x in m && multiset(s.alloc)[x] <= m[x];
  }
}
