/** What each allocator call does to the abstract state, and what that means. */
module HeapSpec {
  import opened Blocks
  import opened Words

  /** The largest request whose size computations stay exact and whose chunk is
      still a positive intptr_t. */
  const MAX_REQUEST := 0x7FFF_FFFF_FFFF_BFE0

  function Min(a: int, b: int): int
  {
    if a < b then a else b
  }

  // ----- sizes -----------------------------------------------------------

  /** Rounding up in 64-bit unsigned arithmetic, wrap-around included. */
  function RoundUp64(a: nat, n: nat): nat
    requires 0 < n
  {
    var t := (a + n - 1) % U64;
    t - t % n
  }

  function RequiredSize(n: nat): nat
  {
    RoundUp64((HEADER + n) % U64, 8)
  }

  function ChunkSize(need: nat): nat
  {
    RoundUp64(need, PAGE * 4)
  }

  lemma SizeExact(n: nat)
    requires n < U64
    ensures n < U64 - HEADER - 7 ==>
              HEADER + n <= RequiredSize(n) < HEADER + n + 8 && RequiredSize(n) % 8 == 0
    ensures U64 - HEADER - 7 <= n ==> RequiredSize(n) < HEADER + 8
  {
  }

  lemma ChunkExact(need: nat)
    requires need < U64
    ensures need < U64 - 16383 ==> need <= ChunkSize(need) < need + 16384
    ensures ChunkSize(need) % 8 == 0
    ensures U64 / 2 - 16384 < need ==> U64 / 2 <= ChunkSize(need) || ChunkSize(need) < need
  {
    if need < U64 - 16383 {
      Unwrapped(need + 16383);
      Floor16384(need + 16383);
    } else {
      Wrapped(need + 16383);
      Floor16384(need + 16383 - U64);
    }
  }

  lemma Unwrapped(x: nat)
    requires x < U64
    ensures x % U64 == x
  {
  }

  lemma Wrapped(x: nat)
    requires U64 <= x < 2 * U64
    ensures x % U64 == x - U64
  {
  }

  /** Rounding down to a multiple of 16384; half of 2^64 is one. */
  lemma Floor16384(t: nat)
    ensures var f := t - t % 16384;
            t - 16384 < f <= t && f % 16384 == 0 && f % 8 == 0 && (U64 / 2 - 16384 < f ==> U64 / 2 <= f)
  {
    var q := t / 16384;
    assert t - t % 16384 == 16384 * q;
    assert 16384 * q == 8 * (2048 * q);
    assert U64 / 2 == 16384 * 0x2_0000_0000_0000;
    MultipleOf8(2048 * q);
    MultipleOf16384(q);
  }

  lemma MultipleOf8(q: nat)
    ensures 8 * q % 8 == 0
  {
  }

  lemma MultipleOf16384(q: nat)
    ensures 16384 * q % 16384 == 0
  {
  }

  /** Rounding up is exact for precisely the requests up to MAX_REQUEST: past
      it, the block would be too small or the sbrk increment negative. */
  lemma RequestArithmetic(n: nat)
    requires n < U64
    ensures var need := RequiredSize(n);
            n <= MAX_REQUEST <==> HEADER + n <= need <= ChunkSize(need) < U64 / 2
    ensures n <= MAX_REQUEST ==>
              var need := RequiredSize(n);
              need % 8 == 0 && need < HEADER + n + 8 && ChunkSize(need) % 8 == 0
  {
    SizeExact(n);
    RequiredSizeBound(n);
    ChunkExact(RequiredSize(n));
    hide RequiredSize, ChunkSize, RoundUp64;
  }

  lemma RequiredSizeBound(n: nat)
    ensures RequiredSize(n) < U64
  {
  }

  // ----- the calls -------------------------------------------------------

  datatype Outcome = Outcome(st: State, ptr: int)

  /** sbrk accepts an increment while the new break stays below the stack page. */
  predicate CanGrow(s: State, need: nat)
  {
    s.brk + ChunkSize(need) < MEMSIZE_VIRTUAL - PAGE
  }

  function Grow(s: State, need: nat): State
  {
    var chunk := Block(s.brk, ChunkSize(need), 0);
    s.(free := InsertFree(s.free, chunk), brk := chunk.End())
  }

  /** Take free block k, give its tail back when that can hold a header. */
  function Carve(s: State, k: nat, need: nat, n: nat): State
    requires k < |s.free|
  {
    var p := s.free[k];
    var f := RemoveAt(s.free, k);
    if p.size - need >= HEADER then
      s.(free := InsertFree(f, Block(p.addr + need, p.size - need, 0)),
         alloc := InsertAlloc(s.alloc, Block(p.addr, need, n)))
    else
      s.(free := f, alloc := InsertAlloc(s.alloc, p.(req := n)))
  }

  function Malloc(s: State, n: nat): Outcome
  {
    var need := RequiredSize(n);
    var k := FirstFit(s.free, need);
    if n == 0 then Outcome(s, 0)
    else if k < |s.free| then Outcome(Carve(s, k, need, n), s.free[k].Payload())
    else if !CanGrow(s, need) then Outcome(s, 0)
    else
      var g := Grow(s, need);
      var j := FirstFit(g.free, need);
      if j < |g.free| then Outcome(Carve(g, j, need, n), g.free[j].Payload()) else Outcome(g, 0)
  }

  // ----- every request of 64 bits ---------------------------------------------

  /** What malloc's sizes, search and system call come to: refuse, take free block k, or
      list a chunk of the given size at the old break. */
  datatype Decision = Refused | Taken(k: nat) | Grown(chunk: nat, newBreak: int)

  /** C's conversion to intptr_t, which sbrk takes. */
  function AsSigned(x: nat): int
  {
    if x < U64 / 2 then x else x - U64
  }

  /** sbrk's test of the sum, formed in 64-bit unsigned arithmetic. */
  predicate BreakAllowed(s: State, newBreak: int)
  {
    s.base <= newBreak < MEMSIZE_VIRTUAL - PAGE
  }

  function Decide(s: State, n: nat): Decision
  {
    var need := RequiredSize(n);
    var k := FirstFit(s.free, need);
    var chunk := ChunkSize(need);
    var newBreak := (s.brk + AsSigned(chunk)) % U64;
    if n == 0 then Refused
    else if k < |s.free| then Taken(k)
    else if BreakAllowed(s, newBreak) then Grown(chunk, newBreak)
    else Refused
  }

  /** HEADER + n + 7 does not fit 64 bits. */
  predicate NeedWraps(n: nat)
  {
    U64 - HEADER - 7 <= n
  }

  /** need + 16383 does not. */
  predicate ChunkWraps(need: nat)
  {
    U64 - 16383 <= need
  }

  /** The requests malloc answers as it should. Sizes that wrap do no harm only when there is
      nothing to hand out and no room to grow; a chunk too large for intptr_t only when the break
      cannot move down that far. */
  predicate Sound(s: State, n: nat)
  {
    var need := RequiredSize(n);
    var chunk := ChunkSize(need);
    n < U64 &&
    if n == 0 then true
    else if NeedWraps(n) then s.free == [] && need != 0 && MEMSIZE_VIRTUAL - PAGE <= s.brk + chunk
    else !ChunkWraps(need) && (chunk < U64 / 2 || s.brk + chunk - U64 < s.base)
  }

  /** Every request up to the limit is one. */
  lemma SmallSound(s: State, n: nat)
    requires n <= MAX_REQUEST
    ensures Sound(s, n)
  {
    RequestArithmetic(n);
    hide RequiredSize, ChunkSize;
  }

  /** The sizes of a request past the limit. */
  lemma LargeSizes(n: nat)
    requires MAX_REQUEST < n < U64
    ensures var need := RequiredSize(n);
            var chunk := ChunkSize(need);
            if NeedWraps(n) then need <= HEADER && chunk == if need == 0 then 0 else 16384
            else
              && HEADER + n <= need < HEADER + n + 8
              && if ChunkWraps(need) then chunk == 0 else need <= chunk < U64 && U64 / 2 <= chunk
  {
    RequestArithmetic(n);
    SizeExact(n);
    RequiredSizeBound(n);
    if NeedWraps(n) {
      WrappedNeed(n);
      SmallChunk(RequiredSize(n));
    } else {
      hide RequiredSize, RoundUp64;
      LargeChunk(RequiredSize(n));
    }
  }

  lemma WrappedNeed(n: nat)
    requires NeedWraps(n) && n < U64
    ensures RequiredSize(n) <= HEADER
  {
    if n < U64 - HEADER {
      assert (HEADER + n) % U64 == HEADER + n;
    } else {
      assert (HEADER + n) % U64 == HEADER + n - U64;
    }
  }

  lemma SmallChunk(need: nat)
    requires need <= HEADER
    ensures ChunkSize(need) == if need == 0 then 0 else 16384
  {
    assert (need + 16383) % U64 == need + 16383;
  }

  lemma LargeChunk(need: nat)
    requires need < U64
    ensures ChunkWraps(need) ==> ChunkSize(need) == 0
    ensures !ChunkWraps(need) ==> need <= ChunkSize(need) < U64
  {
    ChunkExact(need);
    if ChunkWraps(need) {
      assert (need + 16383) % U64 == need + 16383 - U64 < 16384;
    }
  }

  /** p is NULL or the payload of a live allocation. */
  predicate LivePtr(s: State, p: int)
  {
    p == 0 || IndexOf(s.alloc, p) < |s.alloc|
  }

  function Free(s: State, p: int): State
    requires LivePtr(s, p)
  {
    if p == 0 then s else
    var k := IndexOf(s.alloc, p);
    s.(alloc := RemoveAt(s.alloc, k), free := InsertFree(s.free, s.alloc[k].(req := 0)))
  }

  predicate CallocOverflows(num: nat, sz: nat)
  {
    0 < num && sz > (U64 - 1) / num
  }

  /** The division test is exact: it rejects precisely the products past 64 bits. */
  lemma CallocTestExact(num: nat, sz: nat)
    requires 0 < num
    ensures CallocOverflows(num, sz) <==> num * sz >= U64
  {
    var q := (U64 - 1) / num;
    assert num * q <= U64 - 1 < num * (q + 1);
    if sz > q {
      assert num * sz >= num * (q + 1);
    } else {
      assert num * sz <= num * q;
    }
  }

  /** calloc's products that malloc answers as it should, and those that do not fit 64 bits. */
  predicate SoundProduct(s: State, num: nat, sz: nat)
  {
    CallocOverflows(num, sz) || Sound(s, num * sz)
  }

  function Calloc(s: State, num: nat, sz: nat): Outcome
  {
    if num == 0 || sz == 0 || CallocOverflows(num, sz) then Outcome(s, 0) else Malloc(s, num * sz)
  }

  function Realloc(s: State, p: int, sz: nat): Outcome
    requires LivePtr(s, p)
  {
    if p == 0 then Malloc(s, sz)
    else if sz == 0 then Outcome(Free(s, p), 0)
    else
      var m := Malloc(s, sz);
      if m.ptr == 0 || !LivePtr(m.st, p) then m else Outcome(Free(m.st, p), m.ptr)
  }

  /** Merge each block with its successor while they touch. */
  function Coalesce(s: seq<Block>): seq<Block>
    decreases |s|
  {
    if |s| < 2 then s
    else if s[1].addr - s[0].addr == s[0].size then
      Coalesce([s[0].(size := s[0].size + s[1].size)] + s[2..])
    else [s[0]] + Coalesce(s[1..])
  }

  function Defrag(s: State): State
  {
    s.(free := Coalesce(s.free))
  }

  /** heap_info gives up exactly when something is live and one of its two arrays cannot be had. */
  predicate HeapInfoFails(s: State)
  {
    var r := Malloc(s, 8 * |s.alloc|);
    s.alloc != [] && (r.ptr == 0 || Malloc(r.st, 8 * |s.alloc|).ptr == 0)
  }

  /** heap_info's own allocations: none when nothing is live, else two arrays of
      8 bytes an entry; the first one stays allocated if the second fails. */
  function HeapInfo(s: State): State
  {
    if s.alloc == [] then s else
    var m := Malloc(s, 8 * |s.alloc|);
    if m.ptr == 0 then m.st else Malloc(m.st, 8 * |s.alloc|).st
  }
}
