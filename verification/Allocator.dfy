/** The user-space allocator: its global list heads, tails and counters, and the
    byte memory in which the lists live. Each call is proved against HeapSpec. */
module Allocator {
  import opened Words
  import opened Blocks
  import opened HeapSpec
  import opened HeapInvariant
  import opened HeapMemory
  import opened HeapFacts
  import opened HeapLaws
  import opened HeapCounts

  /** What heap_info reports; the arrays are addresses of 8-byte entries. */
  datatype Info = Info(numAllocs: int, sizeArray: int, ptrArray: int, freeSpace: int, largestFreeChunk: int)

  /** The first n entries of the two arrays are the requests and payload addresses of s, pairwise. */
  ghost predicate Reports(m: Memory, sizeArray: int, ptrArray: int, s: seq<Block>, n: int)
    requires n <= |s|
  {
    forall i :: 0 <= i < n ==>
      ReadWord(m, sizeArray + 8 * i) == s[i].req && ReadWord(m, ptrArray + 8 * i) == s[i].Payload()
  }

  class Heap {
    var mem: Memory
    var freeHead: int
    var freeTail: int
    var allocHead: int
    var allocTail: int
    var freeListSize: int
    var allocListSize: int
    var brk: int
    const originalBreak: int
    ghost var st: State

    /** Memory spells out the two lists of st; loose blocks are in neither. */
    ghost predicate ValidWith(loose: multiset<Block>)
      reads this
    {
      && InvWith(st, loose) && |mem| == MEMSIZE_VIRTUAL && brk == st.brk && originalBreak == st.base
      && ListRep(mem, st.free, freeHead, freeTail, freeListSize)
      && ListRep(mem, st.alloc, allocHead, allocTail, allocListSize)
    }

    ghost predicate Valid()
      reads this
    {
      ValidWith(multiset{})
    }

    /** A process that has not allocated yet: empty lists, the break at the heap base. */
    constructor (m: Memory, start: int)
      requires |m| == MEMSIZE_VIRTUAL && 0 < start < MEMSIZE_VIRTUAL - PAGE && start % 8 == 0
      ensures Valid() && st == State([], [], start, start) && mem == m
    {
      mem, brk, originalBreak := m, start, start;
      freeHead, freeTail, allocHead, allocTail := 0, 0, 0, 0;
      freeListSize, allocListSize := 0, 0;
      st := State([], [], start, start);
    }

    // ----- header fields ---------------------------------------------------

    method SetSize(a: int, v: int)
      requires 0 <= a && a + HEADER <= |mem| && 0 <= v < U64
      modifies this`mem
      ensures HeaderSet(old(mem), mem, a, Hdr(old(mem), a).(size := v))
    {
      FieldWrite(mem, a, 0, v);
      mem := WriteWord(mem, a, v);
    }

    method SetReq(a: int, v: int)
      requires 0 <= a && a + HEADER <= |mem| && 0 <= v < U64
      modifies this`mem
      ensures HeaderSet(old(mem), mem, a, Hdr(old(mem), a).(req := v))
    {
      FieldWrite(mem, a, 8, v);
      mem := WriteWord(mem, a + 8, v);
    }

    method SetPrev(a: int, v: int)
      requires 0 <= a && a + HEADER <= |mem| && 0 <= v < U64
      modifies this`mem
      ensures HeaderSet(old(mem), mem, a, Hdr(old(mem), a).(prev := v))
    {
      FieldWrite(mem, a, 16, v);
      mem := WriteWord(mem, a + 16, v);
    }

    method SetNext(a: int, v: int)
      requires 0 <= a && a + HEADER <= |mem| && 0 <= v < U64
      modifies this`mem
      ensures HeaderSet(old(mem), mem, a, Hdr(old(mem), a).(next := v))
    {
      FieldWrite(mem, a, 24, v);
      mem := WriteWord(mem, a + 24, v);
    }

    /** Reading the header of a listed block. */
    function At(a: int): Header
      requires 0 < a && a + HEADER <= |mem|
      reads this`mem
    {
      Hdr(mem, a)
    }

    // ----- linking -----------------------------------------------------------

    /** Make the neighbours of block k of s skip it. */
    method Bypass(prev: int, next: int, ghost s: seq<Block>, ghost k: nat)
      requires |mem| == MEMSIZE_VIRTUAL && k < |s| && Spread(s)
      requires prev == Link(s, k - 1) && next == Link(s, k + 1)
      modifies this`mem
      ensures |mem| == |old(mem)| && Bypassed(old(mem), mem, s, k) && OnlyHeaders(old(mem), mem, s)
      ensures forall b {:trigger Hdr(mem, b)} ::
                (forall i :: 0 <= i < |s| && i != k ==> Away(s[i].addr, b)) ==> Hdr(mem, b) == Hdr(old(mem), b)
    {
      hide Hdr;
      assert 0 < k ==> Node(s[k - 1]);
      assert k + 1 < |s| ==> Node(s[k + 1]);
      if prev != 0 {
        SetNext(prev, next);
        OneHeader(old(mem), mem, s, k - 1);
      }
      label mid:
      if next != 0 {
        SetPrev(next, prev);
        OneHeader(old@mid(mem), mem, s, k + 1);
      }
      forall i | 0 <= i < |s| && i != k
        ensures var h := Hdr(old(mem), s[i].addr);
                Hdr(mem, s[i].addr) ==
                  if i == k - 1 then h.(next := Link(s, k + 1))
                  else if i == k + 1 then h.(prev := Link(s, k - 1)) else h
      {
        assert i < k - 1 ==> Apart(s[i], s[k - 1]);
        assert k - 1 < i && 0 < k ==> Apart(s[k - 1], s[i]);
        assert i < k + 1 < |s| ==> Apart(s[i], s[k + 1]);
        assert k + 1 < i ==> Apart(s[k + 1], s[i]);
      }
    }

    /** Hook node between its new neighbours, which are blocks k - 1 and k of s. */
    method LinkBetween(node: int, prev: int, next: int, ghost s: seq<Block>, ghost k: nat, ghost b: Block)
      requires |mem| == MEMSIZE_VIRTUAL && k <= |s| && Spread(s) && Node(b) && ApartFrom(b, s)
      requires node == b.addr && prev == Link(s, k - 1) && next == Link(s, k)
      modifies this`mem
      ensures |mem| == |old(mem)| && Hdr(mem, node) == Hdr(old(mem), node).(prev := prev, next := next)
      ensures Relinked(old(mem), mem, s, k, node, node)
      ensures OnlyHeaders(old(mem), mem, InsertAt(s, k, b))
      ensures forall a {:trigger Hdr(mem, a)} ::
                Away(b.addr, a) && (forall i :: 0 <= i < |s| ==> Away(s[i].addr, a)) ==>
                Hdr(mem, a) == Hdr(old(mem), a)
    {
      hide Hdr;
      ghost var r := InsertAt(s, k, b);
      assert 0 < k ==> Node(s[k - 1]) && Apart(s[k - 1], b) && r[k - 1] == s[k - 1];
      assert k < |s| ==> Node(s[k]) && Apart(s[k], b) && r[k + 1] == s[k];
      assert 0 < k < |s| ==> Apart(s[k - 1], s[k]);
      SetPrev(node, prev);
      OneHeader(old(mem), mem, r, k);
      label a1:
      SetNext(node, next);
      OneHeader(old@a1(mem), mem, r, k);
      label a2:
      if prev != 0 {
        SetNext(prev, node);
        OneHeader(old@a2(mem), mem, r, k - 1);
      }
      label a3:
      if next != 0 {
        SetPrev(next, node);
        OneHeader(old@a3(mem), mem, r, k + 1);
      }
      forall i | 0 <= i < |s|
        ensures var h := Hdr(old(mem), s[i].addr);
                Hdr(mem, s[i].addr) == if i == k - 1 then h.(next := node) else if i == k then h.(prev := node) else h
      {
        assert Apart(s[i], b) && Node(s[i]);
        assert i < k - 1 ==> Apart(s[i], s[k - 1]);
        assert k - 1 < i && 0 < k ==> Apart(s[k - 1], s[i]);
        assert i < k < |s| ==> Apart(s[i], s[k]);
        assert k < i ==> Apart(s[k], s[i]);
      }
    }

    // ----- remove_list ---------------------------------------------------------

    method RemoveFree(node: int, ghost k: nat, ghost loose: multiset<Block>)
      requires ValidWith(loose) && k < |st.free| && node == st.free[k].addr
      modifies this`mem, this`freeHead, this`freeTail, this`freeListSize, this`st
      ensures st == old(st).(free := RemoveAt(old(st).free, k))
      ensures ValidWith(loose + multiset{old(st).free[k]})
      ensures PayloadsKept(old(mem), mem, st.alloc)
    {
      hide Hdr, InvWith, RemoveAt, PayloadsKept, OnlyHeaders, Linked, Spread, ApartLists, Bypassed;
      ghost var f, a := st.free, st.alloc;
      Layout(st, loose);
      AtBlock(mem, f, k);
      var prev := At(node).prev;
      var next := At(node).next;
      if node == freeHead {
        freeHead := At(node).next;
      }
      if node == freeTail {
        freeTail := prev;
      }
      Bypass(prev, next, f, k);
      freeListSize := freeListSize - 1;
      RemoveLinked(old(mem), mem, f, k);
      OtherListKept(old(mem), mem, f, a);
      HeadersMissPayloads(old(mem), mem, f, a);
      UnlinkFree(st, k, loose);
      RemoveEnds(f, k);
      st := st.(free := RemoveAt(f, k));
    }

    method RemoveAlloc(node: int, ghost k: nat, ghost loose: multiset<Block>)
      requires ValidWith(loose) && k < |st.alloc| && node == st.alloc[k].addr
      modifies this`mem, this`allocHead, this`allocTail, this`allocListSize, this`st
      ensures st == old(st).(alloc := RemoveAt(old(st).alloc, k))
      ensures ValidWith(loose + multiset{old(st).alloc[k]})
      ensures PayloadsKept(old(mem), mem, old(st).alloc)
      ensures Hdr(mem, node) == Hdr(old(mem), node)
    {
      hide Hdr, InvWith, RemoveAt, PayloadsKept, OnlyHeaders, Linked, Spread, ApartLists, Bypassed;
      ghost var f, a := st.free, st.alloc;
      Layout(st, loose);
      AtBlock(mem, a, k);
      OthersAway(a, k);
      var prev := At(node).prev;
      var next := At(node).next;
      if node == allocHead {
        allocHead := At(node).next;
      }
      if node == allocTail {
        allocTail := prev;
      }
      Bypass(prev, next, a, k);
      allocListSize := allocListSize - 1;
      RemoveLinked(old(mem), mem, a, k);
      OtherListKept(old(mem), mem, a, f);
      HeadersMissPayloads(old(mem), mem, a, a);
      UnlinkAlloc(st, k, loose);
      RemoveEnds(a, k);
      st := st.(alloc := RemoveAt(a, k));
    }

    // ----- append_list_ordered ---------------------------------------------------

    /** Walk the free list to the last block not above node, and its successor. */
    method ScanFree(node: int, ghost f: seq<Block>) returns (p1: int, p2: int, ghost k: nat)
      requires |mem| == MEMSIZE_VIRTUAL && Linked(mem, f) && Spread(f)
      requires f != [] && freeHead == f[0].addr <= node
      ensures 1 <= k <= |f| && p1 == f[k - 1].addr && p2 == Link(f, k) && (p2 == 0 <==> k == |f|)
      ensures forall i :: 0 <= i < k ==> f[i].addr <= node
      ensures k < |f| ==> node < f[k].addr
    {
      hide Hdr, Linked, Spread;
      AtBlock(mem, f, 0);
      p1 := freeHead;
      p2 := At(p1).next;
      k := 1;
      while p2 != 0 && !(p1 <= node < p2)
        invariant 1 <= k <= |f| && p1 == f[k - 1].addr && p2 == Link(f, k)
        invariant forall i :: 0 <= i < k ==> f[i].addr <= node
        decreases |f| - k
      {
        AtBlock(mem, f, k);
        p1 := p2;
        p2 := At(p2).next;
        k := k + 1;
      }
      LinkNull(f, k);
    }

    /** Walk the allocated list to the last block of no smaller request, and its successor. */
    method ScanAlloc(allocBytes: int, ghost a: seq<Block>) returns (a1: int, a2: int, ghost k: nat)
      requires |mem| == MEMSIZE_VIRTUAL && Linked(mem, a) && Spread(a)
      requires a != [] && allocHead == a[0].addr && a[0].req >= allocBytes
      requires forall i :: 0 <= i < |a| ==> a[i].req != 0
      ensures 1 <= k <= |a| && a1 == a[k - 1].addr && a2 == Link(a, k) && (a2 == 0 <==> k == |a|)
      ensures forall i :: 0 <= i < k ==> a[i].req >= allocBytes
      ensures k < |a| ==> allocBytes > a[k].req
    {
      hide Hdr, Linked, Spread;
      AtBlock(mem, a, 0);
      a1 := allocHead;
      a2 := At(a1).next;
      k := 1;
      HeaderInBounds(mem, a, 1);
      while a2 != 0 && !(At(a1).req >= allocBytes > At(a2).req)
        invariant 1 <= k <= |a| && a1 == a[k - 1].addr && a2 == Link(a, k)
        invariant 0 < a1 && a1 + HEADER <= |mem| && 0 <= a2 && a2 + HEADER <= |mem|
        invariant Hdr(mem, a1).req == a[k - 1].req && (k < |a| ==> Hdr(mem, a2).req == a[k].req)
        invariant forall i :: 0 <= i < k ==> a[i].req >= allocBytes
        decreases |a| - k
      {
        AtBlock(mem, a, k);
        a1 := a2;
        a2 := At(a2).next;
        k := k + 1;
        HeaderInBounds(mem, a, k);
      }
      LinkNull(a, k);
    }

    /** The branch for free blocks: ascending addresses. */
    method AppendFree(node: int, size: int, ghost b: Block, ghost loose: multiset<Block>)
      requires b == Block(node, size, 0) && ValidWith(loose + multiset{b})
      modifies this`mem, this`freeHead, this`freeTail, this`freeListSize, this`st
      ensures st == old(st).(free := InsertFree(old(st).free, b))
      ensures ValidWith(loose)
      ensures PayloadsKept(old(mem), mem, st.alloc)
    {
      hide Hdr, InvWith, InsertAt, PayloadsKept, OnlyHeaders, Linked, Spread, ApartLists, ApartFrom, Relinked;
      ghost var f, a := st.free, st.alloc;
      Layout(st, loose + multiset{b});
      LooseLayout(st, b, loose);
      SetSize(node, size);
      FieldKeepsList(old(mem), mem, b, f);
      label sized:
      ghost var k := 0;
      freeListSize := freeListSize + 1;
      if freeHead == 0 {
        EmptyOrHead(f);
        freeHead := node;
        freeTail := node;
        LinkBetween(node, 0, 0, f, 0, b);
      } else if node < freeHead {
        LinkBetween(node, 0, freeHead, f, 0, b);
        freeHead := node;
      } else {
        EmptyOrHead(f);
        var p1, p2;
        p1, p2, k := ScanFree(node, f);
        LinkBetween(node, p1, p2, f, k, b);
        if p2 == 0 {
          freeTail := node;
        }
      }
      assert k == FreePos(f, b);
      LinkFree(st, b, loose);
      InsertEnds(f, k, b);
      st := st.(free := InsertFree(f, b));
      Layout(st, loose);
      AppendDone(old(mem), old@sized(mem), mem, f, a, k, b);
    }

    /** The branch for allocated blocks: descending requests, new ones after equal ones. */
    method AppendAlloc(node: int, size: int, allocBytes: int, ghost b: Block, ghost loose: multiset<Block>)
      requires b == Block(node, size, allocBytes) && 0 < allocBytes && ValidWith(loose + multiset{b})
      modifies this`mem, this`allocHead, this`allocTail, this`allocListSize, this`st
      ensures st == old(st).(alloc := InsertAlloc(old(st).alloc, b))
      ensures ValidWith(loose)
      ensures PayloadsKept(old(mem), mem, old(st).alloc)
    {
      hide Hdr, InvWith, InsertAt, PayloadsKept, OnlyHeaders, Linked, Spread, ApartLists, ApartFrom, Relinked;
      ghost var f, a := st.free, st.alloc;
      Layout(st, loose + multiset{b});
      LooseLayout(st, b, loose);
      LooseRequest(st, b, loose);
      SetSize(node, size);
      SetReq(node, allocBytes);
      FieldsKeepHeader(old(mem), mem, b);
      FieldKeepsList(old(mem), mem, b, a);
      label sized:
      ghost var k := 0;
      allocListSize := allocListSize + 1;
      EmptyOrHead(a);
      if allocHead == 0 {
        allocHead := node;
        allocTail := node;
        LinkBetween(node, 0, 0, a, 0, b);
      } else {
        AtBlock(mem, a, 0);
        ListedRequest(st, loose + multiset{b});
        if allocBytes > At(allocHead).req {
          LinkBetween(node, 0, allocHead, a, 0, b);
          allocHead := node;
        } else {
          var a1, a2;
          a1, a2, k := ScanAlloc(allocBytes, a);
          LinkBetween(node, a1, a2, a, k, b);
          if a2 == 0 {
            allocTail := node;
          }
        }
      }
      assert k == AllocPos(a, b);
      LinkAlloc(st, b, loose);
      InsertEnds(a, k, b);
      st := st.(alloc := InsertAlloc(a, b));
      Layout(st, loose);
      AppendDone(old(mem), old@sized(mem), mem, a, f, k, b);
    }

    // ----- the calls ---------------------------------------------------------------

    /** First fit over the free list, NULL when nothing fits. */
    method SearchFree(size: int) returns (p: int, ghost k: nat)
      requires Valid()
      ensures p == Link(st.free, FirstFit(st.free, size)) && k == FirstFit(st.free, size)
      ensures p == 0 <==> k == |st.free|
    {
      hide Hdr, InvWith, Linked, Spread, ApartLists;
      Layout(st, multiset{});
      p := freeHead;
      k := 0;
      HeaderInBounds(mem, st.free, 0);
      LinkNull(st.free, 0);
      while p != 0
        invariant k <= |st.free| && p == Link(st.free, k) && (p == 0 <==> k == |st.free|)
        invariant forall i :: 0 <= i < k ==> st.free[i].size < size
        decreases |st.free| - k
      {
        AtBlock(mem, st.free, k);
        if At(p).size >= size {
          break;
        }
        p := At(p).next;
        k := k + 1;
        LinkNull(st.free, k);
      }
    }

    /** The system call: the old break, or -1 when the new one is out of range. */
    method Sbrk(difference: int) returns (r: int)
      requires Valid() && -U64 / 2 <= difference < U64 / 2
      modifies this`brk
      ensures var newBreak := old(brk) + difference;
              && r == (if BreakAllowed(st, newBreak) then old(brk) else -1)
              && brk == if BreakAllowed(st, newBreak) then newBreak else old(brk)
    {
      hide Linked, Tiles;
      NewBreak(st, difference);
      var newBreak := (brk + difference) % U64;
      if newBreak >= MEMSIZE_VIRTUAL - PAGE || newBreak < originalBreak {
        return -1;
      }
      r := brk;
      brk := newBreak;
    }

    /** The sizes, the search and the system call: malloc's decision, for every request. */
    method Begin(numbytes: nat) returns (need: nat, p: int, ghost k: nat, chunkSize: nat, chunkRet: int)
      requires Valid() && 0 < numbytes < U64
      modifies this`brk
      ensures need == RequiredSize(numbytes) && chunkSize == ChunkSize(need) && k == FirstFit(st.free, need)
      ensures match Decide(st, numbytes)
              case Refused => p == 0 && chunkRet == -1 && brk == old(brk) && k == |st.free|
              case Taken(j) => p == st.free[j].addr != 0 && j == k < |st.free| && brk == old(brk)
              case Grown(chunk, newBreak) =>
                p == 0 && chunkSize == chunk && chunkRet == old(brk) != -1 && brk == newBreak && k == |st.free|
    {
      hide InvWith, Linked, RoundUp64;
      SmallBlocks(st);
      need := RequiredSize(numbytes);
      chunkSize := ChunkSize(need);
      p, k := SearchFree(need);
      ChunkBound(need);
      hide RequiredSize, ChunkSize, FirstFit;
      chunkRet := -1;
      if p == 0 {
        NoSuchBreak(st, chunkSize);
        NewBreak(st, AsSigned(chunkSize));
        chunkRet := Sbrk(AsSigned(chunkSize));
      }
    }

    /** List the free remainder of a split, then the allocation. */
    method ListBoth(p: int, need: int, n: int, freePart: int, rest: int, ghost x: Block, ghost y: Block)
      requires x == Block(p, need, n) && y == Block(freePart, rest, 0) && 0 < n
      requires ValidWith(multiset{x} + multiset{y})
      modifies this`mem, this`freeHead, this`freeTail, this`freeListSize, this`st
      modifies this`allocHead, this`allocTail, this`allocListSize
      ensures Valid()
      ensures st == old(st).(free := InsertFree(old(st).free, y), alloc := InsertAlloc(old(st).alloc, x))
      ensures PayloadsKept(old(mem), mem, old(st).alloc)
    {
      hide Hdr, InvWith, Linked, Spread, ApartLists, InsertFree, InsertAlloc, PayloadsKept;
      AppendFree(freePart, rest, y, multiset{x});
      label split:
      assert multiset{x} == multiset{} + multiset{x};
      AppendAlloc(p, need, n, x, multiset{});
      PayloadsTwice(old(mem), old@split(mem), mem, old(st).alloc);
    }

    /** Turn the found free block into an allocation: the tail of malloc. */
    method Take(p: int, need: nat, n: nat, ghost k: nat) returns (payload: int)
      requires Valid() && 0 < n < U64 && HEADER + n <= need && need % 8 == 0
      requires k < |st.free| && st.free[k].size >= need && p == st.free[k].addr
      modifies this`mem, this`freeHead, this`freeTail, this`freeListSize, this`st
      modifies this`allocHead, this`allocTail, this`allocListSize
      ensures Valid() && st == Carve(old(st), k, need, n) && payload == old(st).free[k].Payload() != 0
      ensures PayloadsKept(old(mem), mem, old(st).alloc)
    {
      hide Hdr, InvWith, Linked, Spread, ApartLists, InsertFree, InsertAlloc, RemoveAt, PayloadsKept, Describes;
      ghost var b, a := st.free[k], st.alloc;
      ListShape(st, k);
      BlockInMemory(mem, st.free, k, st);
      var initialFreeBlockSize := At(p).size;
      var allocStart := p;
      RemoveFree(p, k, multiset{});
      label removed:
      if initialFreeBlockSize - need >= HEADER {
        var freePart := allocStart + need;
        ghost var x, y := Block(p, need, n), Block(freePart, initialFreeBlockSize - need, 0);
        SplitLoose(st, b, x, y);
        ListBoth(p, need, n, freePart, initialFreeBlockSize - need, x, y);
      } else {
        ghost var x := b.(req := n);
        TagLoose(st, b, x);
        assert multiset{x} == multiset{} + multiset{x};
        AppendAlloc(p, initialFreeBlockSize, n, x, multiset{});
      }
      PayloadsTwice(old(mem), old@removed(mem), mem, a);
      payload := allocStart + HEADER;
    }

    method Malloc(numbytes: int) returns (p: int)
      requires Valid() && 0 <= numbytes && Sound(st, numbytes)
      modifies this
      ensures Valid() && Outcome(st, p) == HeapSpec.Malloc(old(st), numbytes) && MallocLaw(old(st), numbytes, st, p)
      ensures PayloadsKept(old(mem), mem, old(st).alloc)
      ensures p == 0 ==> mem == old(mem)
    {
      hide Hdr, InvWith, Linked, InsertFree, Carve, PayloadsKept, RoundUp64, FirstFit, MallocLaw;
      MallocObeys(st, numbytes);
      PayloadsSame(mem, st.alloc);
      if numbytes == 0 {
        return 0;
      }
      ghost var s0 := st;
      SoundDecision(st, numbytes);
      var need, chunkSize, chunkRet;
      ghost var k;
      need, p, k, chunkSize, chunkRet := Begin(numbytes);
      RequestArithmetic(numbytes);
      hide RequiredSize, ChunkSize, Decide, Sound;
      if p == 0 {
        if chunkRet == -1 {
          return 0;
        }
        GrowthFits(st, numbytes, k);
        ghost var c := Block(chunkRet, chunkSize, 0);
        st := st.(brk := c.End());
        AppendFree(chunkRet, chunkSize, c, multiset{});
        label grown:
        p, k := SearchFree(need);
        assert k < |st.free|;
        p := Take(p, need, numbytes, k);
        PayloadsTwice(old(mem), old@grown(mem), mem, old(st).alloc);
      } else {
        p := Take(p, need, numbytes, k);
      }
    }

    method Free(firstbyte: int)
      requires Valid() && LivePtr(st, firstbyte)
      modifies this
      ensures Valid() && st == HeapSpec.Free(old(st), firstbyte) && FreeLaw(old(st), firstbyte, st)
      ensures PayloadsKept(old(mem), mem, st.alloc)
    {
      hide Hdr, InvWith, Linked, InsertFree, RemoveAt, PayloadsKept, Spread, ApartLists, FreeLaw;
      FreeObeys(st, firstbyte);
      PayloadsSame(mem, st.alloc);
      if firstbyte == 0 {
        return;
      }
      var entireBlock := firstbyte - HEADER;
      ghost var k := IndexOf(st.alloc, firstbyte);
      ghost var b := st.alloc[k];
      Layout(st, multiset{});
      AtBlock(mem, st.alloc, k);
      RemoveAlloc(entireBlock, k, multiset{});
      label removed:
      PayloadsSubset(old(mem), mem, old(st).alloc, k);
      TagLoose(st, b, b.(req := 0));
      AppendFree(entireBlock, At(entireBlock).size, b.(req := 0), multiset{});
      PayloadsTwice(old(mem), old@removed(mem), mem, st.alloc);
    }

    method Memset(p: int, c: Byte, n: int)
      requires 0 <= p && 0 <= n && p + n <= |mem|
      modifies this`mem
      ensures SameOutside(old(mem), mem, p, p + n)
      ensures Filled(mem, p, p + n, c)
    {
      var i := p;
      while i < p + n
        invariant p <= i <= p + n && SameOutside(old(mem), mem, p, p + n)
        invariant Filled(mem, p, i, c)
      {
        mem := mem[i := c];
        i := i + 1;
      }
    }

    method Memcpy(dst: int, src: int, n: int)
      requires 0 <= n && 0 <= dst && dst + n <= |mem| && 0 <= src && src + n <= |mem|
      requires dst + n <= src || src + n <= dst
      modifies this`mem
      ensures SameOutside(old(mem), mem, dst, dst + n)
      ensures Copied(old(mem), src, mem, dst, n)
    {
      var i := 0;
      while i < n
        invariant 0 <= i <= n && SameOutside(old(mem), mem, dst, dst + i)
        invariant Copied(old(mem), src, mem, dst, i)
      {
        mem := mem[dst + i := mem[src + i]];
        i := i + 1;
      }
    }

    method Calloc(num: nat, sz: nat) returns (p: int)
      requires Valid() && num < U64 && sz < U64 && SoundProduct(st, num, sz)
      modifies this
      ensures Valid() && Outcome(st, p) == HeapSpec.Calloc(old(st), num, sz) && CallocLaw(old(st), num, sz, st, p)
      ensures PayloadsKept(old(mem), mem, old(st).alloc)
      ensures p != 0 ==> Filled(mem, p, p + num * sz, 0)
      ensures p == 0 ==> mem == old(mem)
    {
      hide Hdr, InvWith, Linked, PayloadsKept, HeapSpec.Malloc, Sound, CallocLaw;
      CallocObeys(st, num, sz);
      PayloadsSame(mem, st.alloc);
      if num == 0 || sz == 0 {
        return 0;
      }
      if sz > (U64 - 1) / num {
        return 0;
      }
      p := MallocZeroed(num * sz);
    }

    /** malloc, then clear what was asked for. */
    method MallocZeroed(n: int) returns (p: int)
      requires Valid() && 0 <= n && Sound(st, n)
      modifies this
      ensures Valid() && Outcome(st, p) == HeapSpec.Malloc(old(st), n)
      ensures PayloadsKept(old(mem), mem, old(st).alloc)
      ensures p != 0 ==> Filled(mem, p, p + n, 0)
      ensures p == 0 ==> mem == old(mem)
    {
      hide Hdr, InvWith, Linked, PayloadsKept, HeapSpec.Malloc;
      p := Malloc(n);
      if p == 0 {
        return 0;
      }
      label made:
      MallocAdds(old(st), n);
      ghost var c := BlockAt(st, p);
      AddedListed(old(st), st, c);
      BreakInMemory(st);
      Memset(p, 0, n);
      PayloadWrite(st, old@made(mem), mem, c);
      OthersKept(old(mem), old@made(mem), mem, old(st).alloc, st.alloc, c);
    }

    /** The copying half of realloc: at most the size the old header records, which
        counts that header, so the read may run 32 bytes past the old block. */
    method CopyPayload(ptr: int, p: int, sz: int, ghost b: Block, ghost c: Block)
      requires Valid() && b in st.alloc && c in st.alloc && b != c
      requires ptr == b.Payload() && p == c.Payload() && 0 <= sz && Fits(c, sz)
      modifies this`mem
      ensures Valid()
      ensures forall z :: z in st.alloc && z != c ==> SamePayload(old(mem), mem, z)
      ensures SameOutside(old(mem), mem, p, p + CopyLength(b, sz)) && Copied(old(mem), ptr, mem, p, CopyLength(b, sz))
      ensures Copied(old(mem), ptr, mem, p, Min(b.size - HEADER, sz))
    {
      hide Hdr, InvWith, Linked;
      TwoLive(st, b, c);
      BreakInMemory(st);
      HeaderOfLive(mem, st, b);
      var originalHeader := ptr - HEADER;
      var newsize;
      if At(originalHeader).size < sz {
        newsize := At(originalHeader).size;
      } else {
        newsize := sz;
      }
      Memcpy(p, ptr, newsize);
      PayloadWrite(st, old(mem), mem, c);
    }

    method Realloc(ptr: int, sz: int) returns (p: int)
      requires Valid() && LivePtr(st, ptr) && 0 <= sz && Sound(st, sz)
      modifies this
      ensures Valid() && Outcome(st, p) == HeapSpec.Realloc(old(st), ptr, sz) && ReallocLaw(old(st), ptr, sz, st, p)
      ensures forall z :: z in st.alloc && z in old(st).alloc ==> SamePayload(old(mem), mem, z)
      ensures ptr != 0 && p != 0 ==>
                Copied(old(mem), ptr, mem, p, Min(BlockAt(old(st), ptr).size - HEADER, sz))
      ensures p == 0 && sz != 0 ==> mem == old(mem)
    {
      hide Hdr, InvWith, Linked, SameBytes, Copied, WellShaped, InsertAlloc, HeapSpec.Malloc, HeapSpec.Free;
      hide MallocLaw, FreeLaw, ReallocLaw;
      ReallocObeys(st, ptr, sz);
      if ptr == 0 {
        p := Malloc(sz);
        return;
      }
      if sz == 0 {
        Free(ptr);
        return 0;
      }
      p := Malloc(sz);
      if p == 0 {
        return 0;
      }
      label made:
      ghost var b := BlockAt(old(st), ptr);
      MallocAdds(old(st), sz);
      ghost var c := BlockAt(st, p);
      AddedListed(old(st), st, c);
      StillLive(old(st), st, ptr);
      CopyPayload(ptr, p, sz, b, c);
      label copied:
      Free(ptr);
      FreeRemoves(old@copied(st), ptr);
      MoveDone(old(mem), old@made(mem), old@copied(mem), mem, b, c, Min(b.size - HEADER, sz));
      forall z | z in st.alloc && z in old(st).alloc
        ensures SamePayload(old(mem), mem, z)
      {
        SameThrice(old(mem), old@made(mem), old@copied(mem), mem, z);
      }
    }

    /** Let block k absorb the block after it. The enlarged size is stored once
        the absorbed block is off the list. */
    method Absorb(p1: int, p2: int, ghost k: nat)
      requires Valid() && k + 1 < |st.free| && p1 == st.free[k].addr && p2 == st.free[k + 1].addr
      requires st.free[k].End() == p2
      modifies this`mem, this`freeHead, this`freeTail, this`freeListSize, this`st
      ensures Valid() && st == old(st).(free := MergeAt(old(st).free, k))
      ensures PayloadsKept(old(mem), mem, st.alloc)
    {
      hide Hdr, InvWith, Linked, RemoveAt, PayloadsKept, Spread, ApartLists, OnlyHeaders;
      ghost var f, a := st.free, st.alloc;
      Layout(st, multiset{});
      AtBlock(mem, f, k);
      AtBlock(mem, f, k + 1);
      MergeInv(st, k);
      var size := At(p1).size + At(p2).size;
      RemoveFree(p2, k + 1, multiset{});
      label removed:
      Layout(st, multiset{} + multiset{f[k + 1]});
      MergeIsResize(f, k);
      SetSize(p1, size);
      ResizeLinked(old@removed(mem), mem, st.free, k, size);
      OtherListKept(old@removed(mem), mem, st.free, a);
      OneHeader(old@removed(mem), mem, st.free, k);
      HeadersMissPayloads(old@removed(mem), mem, st.free, a);
      PayloadsTwice(old(mem), old@removed(mem), mem, a);
      st := st.(free := MergeAt(f, k));
    }

    method Defrag()
      requires Valid()
      modifies this`mem, this`freeHead, this`freeTail, this`freeListSize, this`st
      ensures Valid() && st == HeapSpec.Defrag(old(st))
      ensures PayloadsKept(old(mem), mem, st.alloc)
    {
      hide Hdr, InvWith, Linked, PayloadsKept, Spread, ApartLists, MergeAt, Coalesce;
      PayloadsSame(mem, st.alloc);
      Layout(st, multiset{});
      LinkNull(st.free, 0);
      CoalesceWhole(st.free);
      if freeHead == 0 {
        CoalesceShort(st.free, 0);
        return;
      }
      AtBlock(mem, st.free, 0);
      var p1 := freeHead;
      var p2 := At(p1).next;
      ghost var k := 0;
      LinkNull(st.free, 1);
      while p2 != 0
        invariant Valid() && k < |st.free| && st == old(st).(free := st.free)
        invariant p1 == st.free[k].addr && p2 == Link(st.free, k + 1) && (p2 == 0 <==> k + 1 == |st.free|)
        invariant st.free[..k] + Coalesce(st.free[k..]) == Coalesce(old(st).free)
        invariant PayloadsKept(old(mem), mem, st.alloc)
        decreases |st.free| - k
      {
        ghost var m, f := mem, st.free;
        Layout(st, multiset{});
        AtBlock(mem, st.free, k);
        AtBlock(mem, st.free, k + 1);
        if p2 - p1 == At(p1).size {
          MergeAtCoalesces(f, k);
          Absorb(p1, p2, k);
          PayloadsTwice(old(mem), m, mem, st.alloc);
          Layout(st, multiset{});
          MergeIsResize(f, k);
          AtBlock(mem, st.free, k);
          p2 := At(p1).next;
        } else {
          StepCoalesces(f, k);
          p1 := p2;
          p2 := At(p2).next;
          k := k + 1;
        }
        LinkNull(st.free, k + 1);
      }
      CoalesceShort(st.free, k);
    }

    /** The caller writes a byte of a live payload: no allocator data is disturbed. */
    method StoreByte(p: int, i: int, v: Byte)
      requires Valid() && p != 0 && LivePtr(st, p) && 0 <= i < BlockAt(st, p).req
      modifies this`mem
      ensures Valid()
      ensures p + i < |mem| && mem == old(mem)[p + i := v]
      ensures forall z :: z in st.alloc && z != BlockAt(st, p) ==> SamePayload(old(mem), mem, z)
    {
      hide Hdr, InvWith, Linked;
      ghost var b := BlockAt(st, p);
      Findable(st, b);
      BreakInMemory(st);
      mem := mem[p + i := v];
      PayloadWrite(st, old(mem), mem, b);
    }

    // ----- heap_info -------------------------------------------------------------------

    method FreeStats() returns (freeSpace: int, largest: int)
      requires Valid()
      ensures freeSpace == TotalSize(st.free) && largest == MaxSize(st.free)
    {
      hide Hdr, InvWith, Linked, Spread, ApartLists, TotalSize, MaxSize;
      Layout(st, multiset{});
      StatsEmpty(st.free);
      var f1 := freeHead;
      freeSpace, largest := 0, 0;
      ghost var k := 0;
      LinkNull(st.free, 0);
      while f1 != 0
        invariant k <= |st.free| && f1 == Link(st.free, k) && (f1 == 0 <==> k == |st.free|)
        invariant freeSpace == TotalSize(st.free[..k]) && largest == MaxSize(st.free[..k])
        decreases |st.free| - k
      {
        AtBlock(mem, st.free, k);
        StatStep(st.free, k);
        freeSpace := freeSpace + At(f1).size;
        if At(f1).size >= largest {
          largest := At(f1).size;
        }
        f1 := At(f1).next;
        k := k + 1;
        LinkNull(st.free, k);
      }
      assert st.free[..k] == st.free;
    }

    /** Store entry i: a word in each array's payload. */
    method StoreEntry(sizeArray: int, ptrArray: int, i: int, size: int, ptr: int,
                      ghost c: Block, ghost d: Block, ghost s: seq<Block>)
      requires Valid() && c in st.alloc && d in st.alloc && c != d
      requires sizeArray == c.Payload() && ptrArray == d.Payload()
      requires 0 <= i < |s| && 8 * |s| <= c.size - HEADER && 8 * |s| <= d.size - HEADER
      requires size == s[i].req && ptr == s[i].Payload() && 0 <= size < U64 && 0 <= ptr < U64
      requires Reports(mem, sizeArray, ptrArray, s, i)
      modifies this`mem
      ensures Valid() && Reports(mem, sizeArray, ptrArray, s, i + 1)
      ensures forall z :: z in st.alloc && z != c && z != d ==> SamePayload(old(mem), mem, z)
    {
      hide Hdr, InvWith, Linked, WriteWord, ReadWord;
      TwoLive(st, c, d);
      BreakInMemory(st);
      WriteWordReads(mem, sizeArray + 8 * i, size);
      mem := WriteWord(mem, sizeArray + 8 * i, size);
      PayloadWrite(st, old(mem), mem, c);
      label half:
      WriteWordReads(mem, ptrArray + 8 * i, ptr);
      mem := WriteWord(mem, ptrArray + 8 * i, ptr);
      PayloadWrite(st, old@half(mem), mem, d);
      forall z | z in st.alloc && z != c && z != d
        ensures SamePayload(old(mem), mem, z)
      {
        assert SamePayload(old(mem), old@half(mem), z) && SamePayload(old@half(mem), mem, z);
      }
    }

    /** The reporting loop: walk the allocated list, skipping the two arrays. */
    method FillArrays(sizeArray: int, ptrArray: int, ghost s: seq<Block>, ghost t: seq<Block>, ghost c: Block,
                      ghost d: Block)
      requires Valid() && s != [] && t == InsertAlloc(s, c) && st.alloc == InsertAlloc(t, d)
      requires c !in s && d !in t && c in st.alloc && d in st.alloc && c != d
      requires sizeArray == c.Payload() && ptrArray == d.Payload()
      requires 8 * |s| <= c.size - HEADER && 8 * |s| <= d.size - HEADER
      modifies this`mem
      ensures Valid() && Reports(mem, sizeArray, ptrArray, s, |s|)
      ensures forall z :: z in st.alloc && z != c && z != d ==> SamePayload(old(mem), mem, z)
    {
      hide Hdr, InvWith, Linked, Spread, ApartLists, InsertAlloc, Reports;
      var sizeArrayAddr := sizeArray - HEADER;
      var ptrArrayAddr := ptrArray - HEADER;
      ghost var a := st.alloc;
      Layout(st, multiset{});
      LinkNull(a, 0);
      var x1 := allocHead;
      var i := 0;
      ghost var j := 0;
      ReportsNone(mem, sizeArray, ptrArray, s);
      SkipRank(s, t, a, c, d, 0);
      while x1 != 0
        invariant Valid() && a == st.alloc && j <= |a| && x1 == Link(a, j) && (x1 == 0 <==> j == |a|)
        invariant i == Rank(s, t, c, d, j) && 0 <= i <= |s| && Reports(mem, sizeArray, ptrArray, s, i)
        invariant forall z :: z in a && z != c && z != d ==> SamePayload(old(mem), mem, z)
        decreases |a| - j
      {
        ghost var m := mem;
        AtBlock(mem, a, j);
        ListedRequest(st, multiset{});
        SkipRank(s, t, a, c, d, j);
        SameNode(st, a[j], c);
        SameNode(st, a[j], d);
        LiveWords(st, a[j]);
        if x1 != sizeArrayAddr && x1 != ptrArrayAddr {
          StoreEntry(sizeArray, ptrArray, i, At(x1).req, x1 + HEADER, c, d, s);
          i := i + 1;
          forall z | z in a && z != c && z != d
            ensures SamePayload(old(mem), mem, z)
          {
            assert SamePayload(old(mem), m, z) && SamePayload(m, mem, z);
          }
        }
        AtBlock(mem, a, j);
        x1 := At(x1).next;
        j := j + 1;
        LinkNull(a, j);
      }
      SkipRank(s, t, a, c, d, j);
    }

    /** Returns 0 and the report, or -1 with the arrays of info0 kept; the first
        array stays allocated when the second cannot be. */
    method HeapInfo(info0: Info) returns (r: int, info: Info)
      requires Valid()
      modifies this
      ensures Valid() && st == HeapSpec.HeapInfo(old(st)) && HeapInfoLaw(old(st), st, r == -1)
      ensures PayloadsKept(old(mem), mem, old(st).alloc)
      ensures info.numAllocs == |old(st).alloc|
      ensures info.freeSpace == TotalSize(old(st).free) && info.largestFreeChunk == MaxSize(old(st).free)
      ensures r == if HeapInfoFails(old(st)) then -1 else 0
      ensures r == -1 ==> info.sizeArray == info0.sizeArray && info.ptrArray == info0.ptrArray
      ensures r == 0 && old(st).alloc == [] ==> info.sizeArray == info.ptrArray == 0
      ensures r == 0 && old(st).alloc != [] ==>
                && LivePtr(st, info.sizeArray) && LivePtr(st, info.ptrArray)
                && Reports(mem, info.sizeArray, info.ptrArray, old(st).alloc, |old(st).alloc|)
    {
      hide Hdr, InvWith, Linked, PayloadsKept, InsertAlloc, HeapSpec.Malloc, Reports, SameBytes, HeapInfoLaw, MallocLaw;
      HeapInfoObeys(st);
      PayloadsSame(mem, st.alloc);
      ghost var s := st.alloc;
      var freeSpace, largest := FreeStats();
      info := info0.(numAllocs := allocListSize, freeSpace := freeSpace, largestFreeChunk := largest);
      if info.numAllocs == 0 {
        return 0, info.(sizeArray := 0, ptrArray := 0);
      }
      AllocCount(st);
      SmallSound(st, 8 * |s|);
      var sizeArray := Malloc(info.numAllocs * 8);
      if sizeArray == 0 {
        return -1, info;
      }
      label one:
      MallocAdds(old(st), 8 * |s|);
      ghost var c := BlockAt(st, sizeArray);
      AddedListed(old(st), st, c);
      SmallSound(st, 8 * |s|);
      var ptrArray := Malloc(info.numAllocs * 8);
      PayloadsOfSome(old@one(mem), mem, old@one(st).alloc, s);
      PayloadsTwice(old(mem), old@one(mem), mem, s);
      if ptrArray == 0 {
        return -1, info;
      }
      label two:
      MallocAdds(old@one(st), 8 * |s|);
      ghost var d := BlockAt(st, ptrArray);
      AddedListed(old@one(st), st, d);
      FillArrays(sizeArray, ptrArray, s, old@one(st).alloc, c, d);
      KeptThrough(old(mem), old@two(mem), mem, s, st.alloc, c, d);
      Findable(st, c);
      Findable(st, d);
      return 0, info.(sizeArray := sizeArray, ptrArray := ptrArray);
    }
  }

  /** sbrk's wrapped test accepts exactly the unbounded sums in range. */
  lemma NewBreak(s: State, difference: int)
    requires Inv(s) && -U64 / 2 <= difference < U64 / 2
    ensures var newBreak := (s.brk + difference) % U64;
            && (BreakAllowed(s, newBreak) <==> BreakAllowed(s, s.brk + difference))
            && (BreakAllowed(s, newBreak) ==> newBreak == s.brk + difference)
            && 0 <= newBreak
  {
    SmallBlocks(s);
    hide InvWith;
    var d := s.brk + difference;
    if d < 0 {
      assert d % U64 == d + U64;
    } else {
      assert d % U64 == d;
    }
  }

  lemma ChunkBound(need: nat)
    ensures ChunkSize(need) < U64
  {
  }

  /** A sound request's decision is the specification's. */
  lemma SoundDecision(s: State, n: nat)
    requires Inv(s) && 0 < n && Sound(s, n)
    ensures var need := RequiredSize(n);
            var k := FirstFit(s.free, need);
            match Decide(s, n)
            case Refused => HeapSpec.Malloc(s, n) == Outcome(s, 0)
            case Taken(j) => n <= MAX_REQUEST && j == k < |s.free|
            case Grown(chunk, newBreak) =>
              n <= MAX_REQUEST && CanGrow(s, need) && chunk == ChunkSize(need) && newBreak == s.brk + chunk
              && k == |s.free|
  {
    hide RequiredSize, ChunkSize, InvWith, HeapSpec.Malloc, FirstFit;
    if n > MAX_REQUEST {
      LargeRefused(s, n);
    } else {
      RequestArithmetic(n);
      SmallBlocks(s);
      NoSuchBreak(s, ChunkSize(RequiredSize(n)));
      if Decide(s, n) == Refused {
        RefusedSmall(s, n);
      }
    }
  }

  lemma RefusedSmall(s: State, n: nat)
    requires n == 0 || (FirstFit(s.free, RequiredSize(n)) == |s.free| && !CanGrow(s, RequiredSize(n)))
    ensures HeapSpec.Malloc(s, n) == Outcome(s, 0)
  {
    hide RequiredSize, ChunkSize, FirstFit;
  }

  lemma StatsEmpty(s: seq<Block>)
    ensures TotalSize(s[..0]) == 0 && MaxSize(s[..0]) == 0
  {
  }

  lemma ReportsNone(m: Memory, sizeArray: int, ptrArray: int, s: seq<Block>)
    ensures Reports(m, sizeArray, ptrArray, s, 0)
  {
  }

  lemma PayloadsOfSome(m: Memory, m2: Memory, t: seq<Block>, s: seq<Block>)
    requires PayloadsKept(m, m2, t) && forall z :: z in s ==> z in t
    ensures PayloadsKept(m, m2, s)
  {
  }

  lemma KeptThrough(m: Memory, m1: Memory, m2: Memory, s: seq<Block>, a: seq<Block>, c: Block, d: Block)
    requires PayloadsKept(m, m1, s) && c !in s && d !in s && forall z :: z in s ==> z in a
    requires forall z :: z in a && z != c && z != d ==> SamePayload(m1, m2, z)
    ensures PayloadsKept(m, m2, s)
  {
    forall z | z in s
      ensures SamePayload(m, m2, z)
    {
      assert SamePayload(m, m1, z) && SamePayload(m1, m2, z);
    }
  }

  lemma SameNode(s: State, x: Block, c: Block)
    requires Inv(s) && x in s.alloc && c in s.alloc
    ensures x.addr == c.addr <==> x == c
  {
    if x.addr == c.addr {
      SameStart(s, x, c);
    }
  }

  lemma LiveWords(s: State, x: Block)
    requires Inv(s) && x in s.alloc
    ensures 0 < x.Payload() < U64 && 0 < x.req < U64
  {
    Shaped(s, multiset{}, x);
  }

  /** How many of the first j blocks of s with c and then d inserted belong to s. */
  function Rank(s: seq<Block>, t: seq<Block>, c: Block, d: Block, j: int): int
  {
    var k, l := AllocPos(s, c), AllocPos(t, d);
    var j1 := if l < j then j - 1 else j;
    if k < j1 then j1 - 1 else j1
  }

  /** Block j is d, or c, or the entry of s that its rank names. */
  lemma SkipRank(s: seq<Block>, t: seq<Block>, a: seq<Block>, c: Block, d: Block, j: nat)
    requires t == InsertAlloc(s, c) && a == InsertAlloc(t, d) && c !in s && d !in t && j <= |a|
    ensures 0 <= Rank(s, t, c, d, j) <= |s| && |a| == |s| + 2
    ensures j == |a| ==> Rank(s, t, c, d, j) == |s|
    ensures j == 0 ==> Rank(s, t, c, d, j) == 0
    ensures j < |a| ==>
              if a[j] == c || a[j] == d then Rank(s, t, c, d, j + 1) == Rank(s, t, c, d, j)
              else Rank(s, t, c, d, j + 1) == Rank(s, t, c, d, j) + 1 <= |s| && a[j] == s[Rank(s, t, c, d, j)]
  {
    hide InsertAt, AllocPos;
    var k, l := AllocPos(s, c), AllocPos(t, d);
    InsertIndex(s, k, c);
    InsertIndex(t, l, d);
    if j < |a| && j != l {
      var i := if j < l then j else j - 1;
      assert a[j] == t[i] && a[j] != d;
      if i != k {
        assert t[i] == s[if i < k then i else i - 1] && t[i] != c;
      }
    }
  }

  lemma InsertIndex(s: seq<Block>, k: nat, b: Block)
    requires k <= |s| && b !in s
    ensures var r := InsertAt(s, k, b);
            && |r| == |s| + 1 && r[k] == b
            && forall i :: 0 <= i < |r| && i != k ==> r[i] == s[if i < k then i else i - 1] && r[i] != b
  {
  }

  lemma MergeIsResize(s: seq<Block>, k: nat)
    requires k + 1 < |s|
    ensures var r := RemoveAt(s, k + 1);
            && k < |r| && r[k] == s[k] && |r| == |s| - 1
            && MergeAt(s, k) == r[k := s[k].(size := s[k].size + s[k + 1].size)]
            && Link(MergeAt(s, k), 0) == Link(r, 0)
            && Link(MergeAt(s, k), |r| - 1) == Link(r, |r| - 1)
            && |MergeAt(s, k)| == |r| && MergeAt(s, k)[k].addr == s[k].addr
  {
  }

  lemma CoalesceWhole(s: seq<Block>)
    ensures s[..0] + Coalesce(s[0..]) == Coalesce(s)
  {
    assert s[0..] == s;
  }

  lemma CoalesceShort(s: seq<Block>, k: nat)
    requires |s| < k + 2 && k <= |s|
    ensures s[..k] + Coalesce(s[k..]) == s
  {
  }

  lemma SameThrice(m: Memory, m1: Memory, m2: Memory, m3: Memory, z: Block)
    requires SamePayload(m, m1, z) && SamePayload(m1, m2, z) && SamePayload(m2, m3, z)
    ensures SamePayload(m, m3, z)
  {
  }

  /** Copying b's payload between two steps that keep it, and then keep the copy. */
  lemma MoveDone(m: Memory, m1: Memory, m2: Memory, m3: Memory, b: Block, c: Block, n: int)
    requires SamePayload(m, m1, b) && SamePayload(m2, m3, c) && n <= b.size - HEADER && n <= c.size - HEADER
    requires Copied(m1, b.Payload(), m2, c.Payload(), n)
    ensures Copied(m, b.Payload(), m3, c.Payload(), n)
  {
  }

  lemma AddedListed(s: State, t: State, c: Block)
    requires t.alloc == InsertAlloc(s.alloc, c) && c !in s.alloc
    ensures forall z :: z in t.alloc <==> z in s.alloc || z == c
  {
    InsertAtMembers(s.alloc, AllocPos(s.alloc, c), c);
  }

  lemma BreakInMemory(s: State)
    requires Inv(s)
    ensures 0 < s.base && s.brk + HEADER < MEMSIZE_VIRTUAL
  {
  }

  lemma StillLive(s: State, t: State, p: int)
    requires Inv(s) && Inv(t) && p != 0 && LivePtr(s, p)
    requires forall z :: z in s.alloc ==> z in t.alloc
    ensures LivePtr(t, p) && BlockAt(t, p) == BlockAt(s, p)
  {
    Findable(t, BlockAt(s, p));
  }

  lemma TwoLive(s: State, b: Block, c: Block)
    requires Inv(s) && b in s.alloc && c in s.alloc && b != c
    ensures Apart(b, c) && WellShaped(b, s.base, s.brk) && WellShaped(c, s.base, s.brk)
  {
    ListedApart(s, c, b);
    Shaped(s, multiset{}, b);
    Shaped(s, multiset{}, c);
  }

  lemma HeaderOfLive(m: Memory, s: State, b: Block)
    requires Inv(s) && b in s.alloc && Linked(m, s.alloc)
    ensures Hdr(m, b.addr).size == b.size
  {
    hide Hdr, InvWith;
    var i :| 0 <= i < |s.alloc| && s.alloc[i] == b;
    assert Describes(Hdr(m, s.alloc[i].addr), s.alloc, i);
  }

  lemma OthersKept(m: Memory, m1: Memory, m2: Memory, s: seq<Block>, t: seq<Block>, c: Block)
    requires PayloadsKept(m, m1, s) && c !in s && forall z :: z in s ==> z in t
    requires forall z :: z in t && z != c ==> SamePayload(m1, m2, z)
    ensures PayloadsKept(m, m2, s)
  {
    forall z | z in s
      ensures SamePayload(m, m2, z)
    {
      assert SamePayload(m, m1, z) && SamePayload(m1, m2, z);
    }
  }

  lemma PayloadsSame(m: Memory, s: seq<Block>)
    ensures PayloadsKept(m, m, s)
  {
  }

  lemma PayloadsSubset(m: Memory, m2: Memory, s: seq<Block>, k: nat)
    requires k < |s| && PayloadsKept(m, m2, s)
    ensures PayloadsKept(m, m2, RemoveAt(s, k))
  {
    RemoveKeeps(s, k);
  }

  /** When nothing fits: if the heap can grow, the new chunk is a loose block, and
      the search after listing it succeeds. */
  lemma GrowthFits(s: State, n: nat, k: nat)
    requires Inv(s) && n <= MAX_REQUEST && k == FirstFit(s.free, RequiredSize(n)) == |s.free|
    ensures var c := Block(s.brk, ChunkSize(RequiredSize(n)), 0);
            CanGrow(s, RequiredSize(n)) ==>
              && InvWith(s.(brk := c.End()), multiset{} + multiset{c})
              && FirstFit(Grow(s, RequiredSize(n)).free, RequiredSize(n)) == |s.free|
              && |Grow(s, RequiredSize(n)).free| == |s.free| + 1
  {
    RequestArithmetic(n);
    hide RequiredSize, ChunkSize, InvWith, InsertFree;
    if CanGrow(s, RequiredSize(n)) {
      GrowFits(s, n);
      Extend(s, Block(s.brk, ChunkSize(RequiredSize(n)), 0));
      assert multiset{} + multiset{Block(s.brk, ChunkSize(RequiredSize(n)), 0)} ==
             multiset{Block(s.brk, ChunkSize(RequiredSize(n)), 0)};
    }
  }

  lemma ListShape(s: State, k: nat)
    requires Inv(s) && k < |s.free|
    ensures WellShaped(s.free[k], s.base, s.brk) && s.free[k].req == 0
  {
    ShapedFree(s, k);
  }

  lemma BlockInMemory(m: Memory, f: seq<Block>, k: nat, s: State)
    requires Inv(s) && f == s.free && k < |f| && Linked(m, f)
    ensures Node(f[k]) && Hdr(m, f[k].addr).size == f[k].size
  {
    hide Hdr, Tiles;
    Layout(s, multiset{});
    assert Node(f[k]) && Describes(Hdr(m, f[k].addr), f, k);
  }

  lemma SplitLoose(s: State, b: Block, x: Block, y: Block)
    requires InvWith(s, multiset{} + multiset{b})
    requires x.addr == b.addr && x.End() == y.addr && y.End() == b.End()
    requires WellShaped(x, x.addr, x.End()) && WellShaped(y, y.addr, y.End())
    ensures InvWith(s, multiset{x} + multiset{y})
  {
    assert b in All(s, multiset{} + multiset{b});
    TilesOne(b);
    TilesTwo(x, y);
    Reshape(s, multiset{b}, multiset{x, y}, b.addr, b.End(), multiset{});
    assert multiset{} + multiset{x, y} == multiset{x} + multiset{y};
  }

  lemma TagLoose(s: State, b: Block, x: Block)
    requires InvWith(s, multiset{} + multiset{b}) && x == b.(req := x.req) && 0 <= x.req <= b.size - HEADER
    ensures InvWith(s, multiset{} + multiset{x})
  {
    assert b in All(s, multiset{} + multiset{b});
    TilesOne(b);
    TilesOne(x);
    Reshape(s, multiset{b}, multiset{x}, b.addr, b.End(), multiset{});
  }

  lemma PayloadsTwice(m: Memory, m1: Memory, m2: Memory, s: seq<Block>)
    requires PayloadsKept(m, m1, s) && PayloadsKept(m1, m2, s)
    ensures PayloadsKept(m, m2, s)
  {
    forall z | z in s
      ensures SamePayload(m, m2, z)
    {
      assert SamePayload(m, m1, z) && SamePayload(m1, m2, z);
    }
  }

  /** Addresses of listed blocks are not NULL. */
  lemma LinkNull(s: seq<Block>, k: nat)
    requires Spread(s) && k <= |s|
    ensures Link(s, k) == 0 <==> k == |s|
  {
    assert k < |s| ==> Node(s[k]);
  }

  lemma EmptyOrHead(s: seq<Block>)
    requires Spread(s)
    ensures s == [] <==> Link(s, 0) == 0
  {
    if s != [] {
      assert Node(s[0]);
    }
  }

  lemma FieldKeepsList(m: Memory, m2: Memory, b: Block, s: seq<Block>)
    requires HeaderSet(m, m2, b.addr, Hdr(m2, b.addr))
    requires Linked(m, s) && Spread(s) && Node(b) && ApartFrom(b, s)
    ensures Linked(m2, s)
  {
    hide Hdr;
    forall j | 0 <= j < |s|
      ensures Hdr(m2, s[j].addr) == Hdr(m, s[j].addr)
    {
      assert Node(s[j]) && Apart(s[j], b);
    }
    LinkedElsewhere(m, m2, s);
  }

  /** Linking b into s leaves the headers of a list apart from both alone. */
  lemma NewNodeSparesList(m: Memory, m2: Memory, s: seq<Block>, b: Block, t: seq<Block>)
    requires Linked(m, t) && ApartLists(s, t) && ApartFrom(b, t) && Spread(s) && Spread(t) && Node(b)
    requires forall a {:trigger Hdr(m2, a)} ::
               Away(b.addr, a) && (forall i :: 0 <= i < |s| ==> Away(s[i].addr, a)) ==> Hdr(m2, a) == Hdr(m, a)
    ensures Linked(m2, t)
  {
    hide Hdr;
    forall j | 0 <= j < |t|
      ensures Hdr(m2, t[j].addr) == Hdr(m, t[j].addr)
    {
      assert Node(t[j]) && Apart(t[j], b);
      forall i | 0 <= i < |s|
        ensures Away(s[i].addr, t[j].addr)
      {
        assert Node(s[i]) && Apart(s[i], t[j]);
      }
    }
    LinkedElsewhere(m, m2, t);
  }

  lemma InsertEnds(s: seq<Block>, k: nat, b: Block)
    requires k <= |s|
    ensures var r := InsertAt(s, k, b);
            && |r| == |s| + 1
            && Link(r, 0) == (if k == 0 then b.addr else Link(s, 0))
            && Link(r, |r| - 1) == (if k == |s| then b.addr else Link(s, |s| - 1))
  {
  }

  /** Writing b's own header and then linking it in at k: both lists are spelled
      out afterwards, and no payload was touched. */
  lemma AppendDone(m: Memory, m1: Memory, m2: Memory, s: seq<Block>, t: seq<Block>, k: nat, b: Block)
    requires k <= |s| && Linked(m, s) && Linked(m, t)
    requires Spread(s) && Spread(t) && ApartLists(s, t) && Node(b) && ApartFrom(b, s) && ApartFrom(b, t)
    requires HeaderSet(m, m1, b.addr, Hdr(m1, b.addr))
    requires var h := Hdr(m1, b.addr); h.size == b.size && (b.req != 0 ==> h.req == b.req)
    requires Hdr(m2, b.addr) == Hdr(m1, b.addr).(prev := Link(s, k - 1), next := Link(s, k))
    requires Relinked(m1, m2, s, k, b.addr, b.addr) && OnlyHeaders(m1, m2, InsertAt(s, k, b))
    requires forall a {:trigger Hdr(m2, a)} ::
               Away(b.addr, a) && (forall i :: 0 <= i < |s| ==> Away(s[i].addr, a)) ==> Hdr(m2, a) == Hdr(m1, a)
    requires Spread(InsertAt(s, k, b)) && ApartLists(InsertAt(s, k, b), t)
    ensures Linked(m2, InsertAt(s, k, b)) && Linked(m2, t)
    ensures PayloadsKept(m, m2, s) && PayloadsKept(m, m2, t)
  {
    hide Hdr, Relinked, Linked, Spread, ApartLists, ApartFrom, PayloadsKept, OnlyHeaders;
    FieldKeepsList(m, m1, b, s);
    FieldKeepsList(m, m1, b, t);
    InsertLinked(m1, m2, s, k, b);
    NewNodeSparesList(m1, m2, s, b, t);
    HeaderThenLinks(m, m1, m2, s, k, b);
    HeadersMissPayloads(m, m2, InsertAt(s, k, b), t);
    HeadersMissPayloads(m, m2, InsertAt(s, k, b), InsertAt(s, k, b));
    PayloadsOfPart(m, m2, s, k, b);
  }

  lemma PayloadsOfPart(m: Memory, m2: Memory, s: seq<Block>, k: nat, b: Block)
    requires k <= |s| && PayloadsKept(m, m2, InsertAt(s, k, b))
    ensures PayloadsKept(m, m2, s)
  {
    InsertAtMembers(s, k, b);
  }

  lemma HeaderThenLinks(m: Memory, m1: Memory, m2: Memory, s: seq<Block>, k: nat, b: Block)
    requires k <= |s| && SameOutside(m, m1, b.addr, b.Payload()) && OnlyHeaders(m1, m2, InsertAt(s, k, b))
    ensures OnlyHeaders(m, m2, InsertAt(s, k, b))
  {
    assert InsertAt(s, k, b)[k] == b;
    OneHeader(m, m1, InsertAt(s, k, b), k);
  }

  /** Two field writes into b's header are one header write. */
  lemma FieldsKeepHeader(m: Memory, m2: Memory, b: Block)
    requires SameOutside(m, m2, b.addr, b.Payload())
    ensures HeaderSet(m, m2, b.addr, Hdr(m2, b.addr))
  {
    forall a | Away(b.addr, a)
      ensures Hdr(m2, a) == Hdr(m, a)
    {
      HeaderElsewhere(m, m2, b.addr, a);
    }
  }

  lemma HeaderInBounds(m: Memory, s: seq<Block>, k: nat)
    requires Spread(s) && Linked(m, s) && k <= |s|
    ensures 0 <= Link(s, k) <= MEMSIZE_VIRTUAL - HEADER
    ensures k < |s| ==> Describes(Hdr(m, s[k].addr), s, k)
  {
    assert k < |s| ==> Node(s[k]);
  }

  lemma LooseRequest(s: State, b: Block, loose: multiset<Block>)
    requires InvWith(s, loose + multiset{b})
    ensures 0 <= b.req <= b.size - HEADER
  {
    assert b in All(s, loose + multiset{b});
  }

  /** Every allocated block records a request. */
  lemma ListedRequest(s: State, loose: multiset<Block>)
    requires InvWith(s, loose)
    ensures forall i :: 0 <= i < |s.alloc| ==> s.alloc[i].req != 0
  {
  }

  /** The header at a listed block, and which positions its address singles out. */
  lemma AtBlock(m: Memory, s: seq<Block>, k: nat)
    requires Linked(m, s) && Spread(s) && k < |s|
    ensures Node(s[k]) && Describes(Hdr(m, s[k].addr), s, k)
    ensures s[k].addr == Link(s, 0) <==> k == 0
    ensures s[k].addr == Link(s, |s| - 1) <==> k == |s| - 1
  {
    hide Hdr;
    assert Node(s[0]) && Node(s[|s| - 1]);
    assert 0 < k ==> Apart(s[0], s[k]);
    assert k < |s| - 1 ==> Apart(s[k], s[|s| - 1]);
  }

  lemma RemoveEnds(s: seq<Block>, k: nat)
    requires k < |s|
    ensures var r := RemoveAt(s, k);
            && |r| == |s| - 1
            && Link(r, 0) == (if k == 0 then Link(s, 1) else Link(s, 0))
            && Link(r, |r| - 1) == (if k == |s| - 1 then Link(s, k - 1) else Link(s, |s| - 1))
  {
  }

  /** A relinking of s leaves the headers of a list apart from s alone. */
  lemma OtherListKept(m: Memory, m2: Memory, s: seq<Block>, t: seq<Block>)
    requires Linked(m, t) && ApartLists(s, t) && Spread(s) && Spread(t)
    requires forall b {:trigger Hdr(m2, b)} ::
               (forall i :: 0 <= i < |s| ==> Away(s[i].addr, b)) ==> Hdr(m2, b) == Hdr(m, b)
    ensures Linked(m2, t)
  {
    hide Hdr;
    forall j | 0 <= j < |t|
      ensures Hdr(m2, t[j].addr) == Hdr(m, t[j].addr)
    {
      assert Node(t[j]);
      forall i | 0 <= i < |s|
        ensures Away(s[i].addr, t[j].addr)
      {
        assert Node(s[i]) && Apart(s[i], t[j]);
      }
    }
    LinkedElsewhere(m, m2, t);
  }
}
