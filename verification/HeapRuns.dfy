/** Whole histories of allocator calls and payload writes. */
module HeapRuns {
  import opened Words
  import opened Blocks
  import opened HeapSpec
  import opened HeapInvariant
  import opened HeapMemory
  import opened HeapFacts
  import opened HeapLaws
  import opened HeapCounts
  import opened Canonical

  /** The calls a program can make, and its own writes into what it was given. */
  datatype Op =
    | DoMalloc(n: nat)
    | DoCalloc(num: nat, sz: nat)
    | DoFree(p: int)
    | DoRealloc(p: int, n: nat)
    | DoDefrag
    | DoHeapInfo
    | Write(p: int, i: nat, v: Byte)

  /** What the library demands of its caller. */
  predicate Allowed(s: State, op: Op)
  {
    match op
    case DoMalloc(n) => Sound(s, n)
    case DoCalloc(num, sz) => num < U64 && sz < U64 && SoundProduct(s, num, sz)
    case DoFree(p) => LivePtr(s, p)
    case DoRealloc(p, n) => LivePtr(s, p) && Sound(s, n)
    case DoDefrag => true
    case DoHeapInfo => true
    case Write(p, i, v) => p != 0 && LivePtr(s, p) && i < BlockAt(s, p).req
  }

  function Apply(s: State, op: Op): State
    requires Allowed(s, op)
  {
    match op
    case DoMalloc(n) => Malloc(s, n).st
    case DoCalloc(num, sz) => Calloc(s, num, sz).st
    case DoFree(p) => Free(s, p)
    case DoRealloc(p, n) => Realloc(s, p, n).st
    case DoDefrag => Defrag(s)
    case DoHeapInfo => HeapInfo(s)
    case Write(_, _, _) => s
  }

  lemma ReallocInv(s: State, p: int, n: nat)
    requires Inv(s) && LivePtr(s, p) && Sound(s, n)
    ensures Inv(Realloc(s, p, n).st)
  {
    hide Inv, Malloc, Free, Sound;
    MallocInv(s, n);
    if p != 0 && n == 0 {
      FreeInv(s, p);
    } else if p != 0 && LivePtr(Malloc(s, n).st, p) {
      FreeInv(Malloc(s, n).st, p);
    }
  }

  /** Every call keeps the tiling invariant. */
  lemma ApplyInv(s: State, op: Op)
    requires Inv(s) && Allowed(s, op)
    ensures Inv(Apply(s, op))
  {
    hide Inv, Malloc, Free, Realloc, Defrag, Sound;
    match op
    case DoMalloc(n) => MallocInv(s, n);
    case DoCalloc(num, sz) =>
      if num != 0 && sz != 0 && !CallocOverflows(num, sz) {
        MallocInv(s, num * sz);
      }
    case DoFree(p) => FreeInv(s, p);
    case DoRealloc(p, n) => ReallocInv(s, p, n);
    case DoDefrag => DefragInv(s);
    case DoHeapInfo =>
      AllocCount(s);
      if s.alloc != [] {
        SmallSound(s, 8 * |s.alloc|);
        SmallSound(Malloc(s, 8 * |s.alloc|).st, 8 * |s.alloc|);
        MallocInv(s, 8 * |s.alloc|);
        MallocInv(Malloc(s, 8 * |s.alloc|).st, 8 * |s.alloc|);
      }
    case Write(_, _, _) =>
  }

  // ----- what is observable: the bytes and the blocks -----------------------------

  datatype View = View(mem: Memory, st: State)

  /** The bytes a call puts into the block it returns: zeros from calloc, the old payload,
      up to the new size, from realloc. */
  ghost predicate Delivers(v: View, op: Op, w: View)
    requires Allowed(v.st, op)
  {
    match op
    case DoCalloc(num, sz) =>
      var p := Calloc(v.st, num, sz).ptr;
      p != 0 ==> Filled(w.mem, p, p + num * sz, 0)
    case DoRealloc(p, n) =>
      var q := Realloc(v.st, p, n).ptr;
      p != 0 && q != 0 ==> Copied(v.mem, p, w.mem, q, Min(BlockAt(v.st, p).size - HEADER, n))
    case _ => true
  }

  /** One call or write: the new state is the specified one, the returned block has its bytes, and
      a payload live before and after changes only by a write into it. */
  ghost predicate Step(v: View, op: Op, w: View)
  {
    && Allowed(v.st, op) && w.st == Apply(v.st, op) && |w.mem| == |v.mem| && Delivers(v, op, w)
    && forall z :: z in v.st.alloc && z in w.st.alloc ==>
         (op.Write? && z.Payload() == op.p &&
          forall a :: z.Payload() <= a < z.End() && 0 <= a < |v.mem| ==>
            w.mem[a] == if a == op.p + op.i then op.v else v.mem[a])
         || (!(op.Write? && z.Payload() == op.p) && SamePayload(v.mem, w.mem, z))
  }

  /** A history from a process that has not allocated yet. */
  ghost predicate IsRun(vs: seq<View>, ops: seq<Op>)
  {
    && |vs| == |ops| + 1
    && Inv(vs[0].st) && vs[0].st.alloc == [] && vs[0].st.free == [] && vs[0].st.base == vs[0].st.brk
    && forall i :: 0 <= i < |ops| ==> Step(vs[i], ops[i], vs[i + 1])
  }

  /** In every reachable state the blocks of both lists tile the heap. */
  lemma {:induction false} RunInv(vs: seq<View>, ops: seq<Op>, i: nat)
    requires IsRun(vs, ops) && i <= |ops|
    ensures Inv(vs[i].st)
  {
    hide Inv, Step, Apply, Allowed;
    if i != 0 {
      RunInv(vs, ops, i - 1);
      assert Step(vs[i - 1], ops[i - 1], vs[i - 1 + 1]);
      StepApplies(vs[i - 1], ops[i - 1], vs[i]);
      ApplyInv(vs[i - 1].st, ops[i - 1]);
    }
  }

  lemma StepApplies(v: View, op: Op, w: View)
    requires Step(v, op, w)
    ensures Allowed(v.st, op) && w.st == Apply(v.st, op)
  {
    hide Allowed, Apply, Delivers;
  }

  /** What a call owes, by its law; a write touches no list, and defrag only merges free neighbours. */
  ghost predicate OpLaw(s: State, op: Op, t: State)
  {
    match op
    case DoMalloc(n) => exists p :: MallocLaw(s, n, t, p)
    case DoCalloc(num, sz) => exists p :: CallocLaw(s, num, sz, t, p)
    case DoFree(p) => FreeLaw(s, p, t)
    case DoRealloc(p, n) => exists q :: ReallocLaw(s, p, n, t, q)
    case DoDefrag => t == s.(free := t.free) && Separated(t.free) && SameBytesHeld(t.free, s.free)
    case DoHeapInfo => exists failed :: HeapInfoLaw(s, t, failed)
    case Write(_, _, _) => t == s
  }

  /** Every step of a history obeys its call's law. */
  lemma StepObeys(vs: seq<View>, ops: seq<Op>, i: nat)
    requires IsRun(vs, ops) && i < |ops|
    ensures OpLaw(vs[i].st, ops[i], vs[i + 1].st)
  {
    hide Inv, Malloc, Free, Realloc, Calloc, HeapInfo, Coalesce, Sound, Step, Delivers;
    hide MallocLaw, FreeLaw, CallocLaw, ReallocLaw, HeapInfoLaw, Separated, SameBytesHeld;
    RunInv(vs, ops, i);
    StepOf(vs, ops, i);
    var s := vs[i].st;
    match ops[i]
    case DoMalloc(n) => MallocObeys(s, n);
    case DoCalloc(num, sz) => CallocObeys(s, num, sz);
    case DoFree(p) => FreeObeys(s, p);
    case DoRealloc(p, n) => ReallocObeys(s, p, n);
    case DoDefrag => DefragRuns(s);
    case DoHeapInfo => HeapInfoObeys(s);
    case Write(_, _, _) =>
  }

  lemma StepOf(vs: seq<View>, ops: seq<Op>, i: nat)
    requires IsRun(vs, ops) && i < |ops|
    ensures Allowed(vs[i].st, ops[i]) && vs[i + 1].st == Apply(vs[i].st, ops[i])
  {
    hide Inv, Step, Allowed, Apply;
    assert Step(vs[i], ops[i], vs[i + 1]);
    StepApplies(vs[i], ops[i], vs[i + 1]);
  }

  /** A step that reallocates a live block to a size leaves exactly the allocations of before, without that block
      and with one of that size, or, when no free block fits and the heap cannot grow, everything as it was. */
  lemma RunRealloc(vs: seq<View>, ops: seq<Op>, i: nat, p: int, sz: nat)
    requires IsRun(vs, ops) && i < |ops| && ops[i] == DoRealloc(p, sz) && p != 0 && 0 < sz
    ensures LivePtr(vs[i].st, p)
    ensures var s, t := vs[i].st, vs[i + 1].st;
            if SomeFits(s, sz) || RoomToGrow(s, sz) then
              exists c: Block ::
                c.req == sz && HEADER + sz <= c.size
                && multiset(t.alloc) == multiset(s.alloc) - multiset{BlockAt(s, p)} + multiset{c}
            else t == s
  {
    hide Inv, Realloc, Step, SomeFits, RoomToGrow, Sound;
    RunInv(vs, ops, i);
    StepOf(vs, ops, i);
    ReallocMoves(vs[i].st, p, sz);
  }

  /** A history after which nothing is live: defrag leaves the whole heap as one block. */
  lemma RunReclaims(vs: seq<View>, ops: seq<Op>)
    requires IsRun(vs, ops) && vs[|ops|].st.alloc == []
    ensures var s := vs[|ops|].st;
            Defrag(s).free == if s.base == s.brk then [] else [Block(s.base, s.brk - s.base, 0)]
  {
    RunInv(vs, ops, |ops|);
    Reclaims(vs[|ops|].st);
  }

  /** Does the call give up the allocation at p? */
  predicate Ends(op: Op, p: int)
  {
    (op.DoFree? || op.DoRealloc?) && op.p == p
  }

  lemma MallocKeeps(s: State, n: nat, z: Block)
    requires Inv(s) && Sound(s, n) && z in s.alloc
    ensures z in Malloc(s, n).st.alloc
  {
    var r := Malloc(s, n);
    if r.ptr != 0 {
      MallocAdds(s, n);
      var c := BlockAt(r.st, r.ptr);
      InsertAtMembers(s.alloc, AllocPos(s.alloc, c), c);
    } else if 0 < n {
      MallocFirstFit(s, n);
    }
  }

  lemma FreeKeeps(s: State, p: int, z: Block)
    requires Inv(s) && LivePtr(s, p) && z in s.alloc && z.Payload() != p
    ensures z in Free(s, p).alloc
  {
    if p != 0 {
      FreeRemoves(s, p);
    }
  }

  lemma ReallocKeeps(s: State, p: int, n: nat, z: Block)
    requires Inv(s) && LivePtr(s, p) && Sound(s, n) && z in s.alloc && z.Payload() != p
    ensures z in Realloc(s, p, n).st.alloc
  {
    MallocKeeps(s, n, z);
    MallocInv(s, n);
    hide Inv, Malloc, Free;
    if p != 0 && n == 0 {
      FreeKeeps(s, p, z);
    } else if p != 0 && LivePtr(Malloc(s, n).st, p) {
      FreeKeeps(Malloc(s, n).st, p, z);
    }
  }

  /** An allocation stays live, unmoved and unresized, until it is freed or realloced. */
  lemma StaysLive(s: State, op: Op, z: Block)
    requires Inv(s) && Allowed(s, op) && z in s.alloc && !Ends(op, z.Payload())
    ensures z in Apply(s, op).alloc
  {
    hide Inv, Malloc, Free, Realloc, Coalesce, Sound;
    match op
    case DoMalloc(n) => MallocKeeps(s, n, z);
    case DoCalloc(num, sz) =>
      if num != 0 && sz != 0 && !CallocOverflows(num, sz) {
        MallocKeeps(s, num * sz, z);
      }
    case DoFree(p) => FreeKeeps(s, p, z);
    case DoRealloc(p, n) => ReallocKeeps(s, p, n, z);
    case DoDefrag =>
    case DoHeapInfo =>
      AllocCount(s);
      SmallSound(s, 8 * |s.alloc|);
      SmallSound(Malloc(s, 8 * |s.alloc|).st, 8 * |s.alloc|);
      MallocKeeps(s, 8 * |s.alloc|, z);
      MallocInv(s, 8 * |s.alloc|);
      MallocKeeps(Malloc(s, 8 * |s.alloc|).st, 8 * |s.alloc|, z);
    case Write(_, _, _) =>
  }

  /** The value the history ops leaves at offset i of the allocation at p, from v0:
      that of the last write there. */
  function LastWrite(ops: seq<Op>, p: int, i: int, v0: Byte): Byte
  {
    if ops == [] then v0 else
    var op := ops[|ops| - 1];
    if op.Write? && op.p == p && op.i == i then op.v else LastWrite(ops[..|ops| - 1], p, i, v0)
  }

  /** Non-interference over whole histories: while an allocation is live, each of
      its bytes holds what the program last wrote there. No malloc, calloc, free,
      realloc of another block, defrag or heap_info ever changes one. */
  lemma {:induction false} PayloadIsLastWrite(vs: seq<View>, ops: seq<Op>, i: nat, j: nat, z: Block, off: nat)
    requires IsRun(vs, ops) && i <= j <= |ops| && z in vs[i].st.alloc
    requires forall k :: i <= k < j ==> !Ends(ops[k], z.Payload())
    requires off < z.size - HEADER && 0 <= z.addr && z.End() <= |vs[i].mem|
    ensures z in vs[j].st.alloc && |vs[j].mem| == |vs[i].mem|
    ensures vs[j].mem[z.Payload() + off] ==
            LastWrite(ops[i..j], z.Payload(), off, vs[i].mem[z.Payload() + off])
    decreases j
  {
    if i < j {
      hide Inv, Apply, Step, SamePayload, Allowed, SameBytes;
      PayloadIsLastWrite(vs, ops, i, j - 1, z, off);
      RunStep(vs, ops, j - 1, vs[j]);
      LastWriteStep(ops, i, j, z.Payload(), off, vs[i].mem[z.Payload() + off]);
      assert !Ends(ops[j - 1], z.Payload());
      hide LastWrite, Ends, IsRun;
      StepByte(vs[j - 1], ops[j - 1], vs[j], z, off);
    }
  }

  lemma RunStep(vs: seq<View>, ops: seq<Op>, j: nat, w: View)
    requires IsRun(vs, ops) && j < |ops| && w == vs[j + 1]
    ensures Inv(vs[j].st) && Step(vs[j], ops[j], w)
  {
    hide Inv, Step;
    RunInv(vs, ops, j);
  }

  lemma LastWriteStep(ops: seq<Op>, i: nat, j: nat, p: int, off: int, v0: Byte)
    requires i < j <= |ops|
    ensures var op := ops[j - 1];
            LastWrite(ops[i..j], p, off, v0) ==
            if op.Write? && op.p == p && op.i == off then op.v else LastWrite(ops[i..j - 1], p, off, v0)
  {
    assert ops[i..j][..j - i - 1] == ops[i..j - 1] && ops[i..j][j - i - 1] == ops[j - 1];
  }

  /** One step changes a byte of a block that stays live only by writing it. */
  lemma StepByte(v: View, op: Op, w: View, z: Block, off: nat)
    requires Inv(v.st) && Step(v, op, w) && z in v.st.alloc && !Ends(op, z.Payload())
    requires off < z.size - HEADER && 0 <= z.addr && z.End() <= |v.mem|
    ensures z in w.st.alloc && |w.mem| == |v.mem|
    ensures w.mem[z.Payload() + off] ==
            if op.Write? && op.p == z.Payload() && op.i == off then op.v else v.mem[z.Payload() + off]
  {
    StaysLive(v.st, op, z);
    hide Inv, Apply, Allowed, Ends, Delivers;
  }

  // ----- realloc's read past the block ---------------------------------------------

  /** A copy out of b stays below the break of the heap it is made in exactly when b is
      not the topmost block or the size is at most its payload. */
  lemma CopyStaysInHeap(s: State, b: Block, sz: nat)
    requires Inv(s) && b in s.alloc
    ensures b.Payload() + CopyLength(b, sz) <= s.brk <==> b.End() < s.brk || sz <= b.size - HEADER
  {
    Shaped(s, multiset{}, b);
    var m := All(s, multiset{});
    if b.End() < s.brk {
      assert Covered(m, b.End());
      var x :| x in m && x.Holds(b.End());
      assert b in m && x != b;
      assert WellShaped(x, s.base, s.brk) && Apart(x, b);
    }
  }

  /** Resizing the live block b to sz > 0 copies from past the break. */
  predicate CopiesPastBreak(s: State, b: Block, sz: nat)
  {
    var m := Malloc(s, sz);
    m.ptr != 0 && m.st.brk < b.Payload() + CopyLength(b, sz)
  }

  /** realloc reads past the break exactly when the block is topmost, the request exceeds its
      payload and some free block fits: without one the heap grows first, past the copy's end. */
  lemma OverreadExactly(s: State, b: Block, sz: nat)
    requires Inv(s) && b in s.alloc && 0 < sz && Sound(s, sz)
    ensures CopiesPastBreak(s, b, sz) <==> b.End() == s.brk && b.size - HEADER < sz && SomeFits(s, sz)
  {
    var r := Malloc(s, sz);
    MallocFirstFit(s, sz);
    Shaped(s, multiset{}, b);
    if r.ptr != 0 {
      MallocAdds(s, sz);
      MallocInv(s, sz);
      MallocKeeps(s, sz, b);
      CopyStaysInHeap(r.st, b, sz);
      RequestArithmetic(sz);
    }
    hide Inv, Malloc, Sound, SomeFits, RequiredSize, ChunkSize, LivePtr, BlockAt, LowestFit;
  }

  /** Such a state: 20000 bytes allocated and freed again below a block of 12704
      that ends at the break; growing that one to 12800 fits below it. */
  const OVERREAD := State([Block(4096, 20032, 0)], [Block(24128, 12736, 12704)], 4096, 36864)

  /** The history that leads there. */
  const OVERREAD_HISTORY := [DoMalloc(20000), DoMalloc(12704), DoFree(4128)]

  /** From an empty heap the history leads to that state. */
  lemma OverreadReached(m: Memory)
    ensures exists vs :: IsRun(vs, OVERREAD_HISTORY) && |vs| == 4 && vs[3] == View(m, OVERREAD)
  {
    var s0 := State([], [], 4096, 4096);
    var s1 := State([Block(24128, 12736, 0)], [Block(4096, 20032, 20000)], 4096, 36864);
    var s2 := State([], [Block(4096, 20032, 20000), Block(24128, 12736, 12704)], 4096, 36864);
    FirstMalloc();
    SecondMalloc();
    FirstFree();
    EmptyInv();
    SmallSound(s0, 20000);
    SmallSound(s1, 12704);
    var vs := TwoMallocsOneFree(m, s0, s1, s2, OVERREAD, 20000, 12704, 4128);
    assert vs[3] == View(m, OVERREAD);
  }

  /** Calls that write no payload are a history over one memory. */
  lemma TwoMallocsOneFree(m: Memory, s0: State, s1: State, s2: State, s3: State, n1: nat, n2: nat, p: int)
    returns (vs: seq<View>)
    requires Inv(s0) && s0.alloc == [] && s0.free == [] && s0.base == s0.brk
    requires Sound(s0, n1) && Malloc(s0, n1).st == s1 && Sound(s1, n2) && Malloc(s1, n2).st == s2
    requires LivePtr(s2, p) && Free(s2, p) == s3
    ensures IsRun(vs, [DoMalloc(n1), DoMalloc(n2), DoFree(p)]) && |vs| == 4 && vs[3] == View(m, s3)
  {
    hide Inv, Malloc, Free, Sound, LivePtr;
    vs := [View(m, s0), View(m, s1), View(m, s2), View(m, s3)];
    assert Step(vs[0], DoMalloc(n1), vs[1]) && Step(vs[1], DoMalloc(n2), vs[2]) && Step(vs[2], DoFree(p), vs[3]);
  }

  lemma EmptyInv()
    ensures Inv(State([], [], 4096, 4096))
  {
    assert All(State([], [], 4096, 4096), multiset{}) == multiset{};
  }

  lemma FirstMalloc()
    ensures Malloc(State([], [], 4096, 4096), 20000).st ==
            State([Block(24128, 12736, 0)], [Block(4096, 20032, 20000)], 4096, 36864)
  {
    assert RequiredSize(20000) == 20032 && ChunkSize(20032) == 32768;
    assert InsertAlloc([], Block(4096, 20032, 20000)) == [Block(4096, 20032, 20000)];
  }

  lemma SecondMalloc()
    ensures Malloc(State([Block(24128, 12736, 0)], [Block(4096, 20032, 20000)], 4096, 36864), 12704).st ==
            State([], [Block(4096, 20032, 20000), Block(24128, 12736, 12704)], 4096, 36864)
  {
    assert RequiredSize(12704) == 12736;
    var a, b := Block(4096, 20032, 20000), Block(24128, 12736, 12704);
    assert AllocPos([a], b) == 1;
    assert InsertAlloc([a], b) == [a, b];
  }

  lemma FirstFree()
    ensures LivePtr(State([], [Block(4096, 20032, 20000), Block(24128, 12736, 12704)], 4096, 36864), 4128)
    ensures Free(State([], [Block(4096, 20032, 20000), Block(24128, 12736, 12704)], 4096, 36864), 4128) == OVERREAD
  {
    var a, b := Block(4096, 20032, 20000), Block(24128, 12736, 12704);
    assert RemoveAt([a, b], 0) == [b];
  }

  lemma CopyPastBreak()
    ensures Inv(OVERREAD) && LivePtr(OVERREAD, 24160)
    ensures Realloc(OVERREAD, 24160, 12800).ptr == 4128
    ensures 24160 + CopyLength(BlockAt(OVERREAD, 24160), 12800) > OVERREAD.brk
  {
    OverreadInv();
    OverreadSizes();
    SmallSound(OVERREAD, 12800);
    PastBreak(OVERREAD, OVERREAD.alloc[0], 12800, OVERREAD.free[0]);
  }

  lemma OverreadInv()
    ensures Inv(OVERREAD)
  {
    var f, a := OVERREAD.free[0], OVERREAD.alloc[0];
    TilesTwo(f, a);
    assert All(OVERREAD, multiset{}) == multiset{f, a};
  }

  lemma OverreadSizes()
    ensures RequiredSize(12800) == 12832 && FirstFit(OVERREAD.free, RequiredSize(12800)) == 0
  {
  }

  /** Moving the topmost block b into the first free block, for more than b's payload. */
  lemma PastBreak(s: State, b: Block, sz: nat, f: Block)
    requires Inv(s) && Sound(s, sz) && s.alloc == [b] && s.free == [f] && b.End() == s.brk && 0 < sz
    requires FirstFit(s.free, RequiredSize(sz)) == 0 && b.size - HEADER < sz && f.addr != b.addr
    ensures b.Payload() != 0 && LivePtr(s, b.Payload()) && BlockAt(s, b.Payload()) == b
    ensures Realloc(s, b.Payload(), sz).ptr == f.Payload()
    ensures b.Payload() + CopyLength(b, sz) > s.brk
  {
    hide Inv, Sound, RequiredSize, InsertAlloc;
    Findable(s, b);
    FreeAbove(s);
    assert Malloc(s, sz).ptr == f.Payload();
    MallocKeeps(s, sz, b);
    MallocInv(s, sz);
    Findable(Malloc(s, sz).st, b);
    ShapedFree(s, 0);
    hide Malloc;
  }
}
