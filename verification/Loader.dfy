/** Loading one program segment: fresh pages, the image copied and the rest zeroed
    through the process's page table, write protection, and the initial breaks. */
module Loader {
  import opened Words
  import opened PageTables
  import opened VirtualMemory
  import opened KernelState
  import opened Isolation
  import opened KernelSpec
  import opened Kernel

  /** Pages [va, hi) of root are mapped with exactly the given flags. */
  ghost predicate PagesMapped(m: Memory, root: int, va: int, hi: int, flags: int)
  {
    forall v :: UserPage(v) && va <= v < hi ==>
      FrameAt(m, root, v) >= 0 && Leaf(m, root, v) == Some(FrameAt(m, root, v) * PAGE + flags)
  }

  /** The frames of pages [va, hi) were all free before. */
  ghost predicate PagesFresh(info: seq<PageInfo>, m: Memory, root: int, va: int, hi: int)
  {
    forall v :: UserPage(v) && va <= v < hi ==>
      0 <= FrameAt(m, root, v) < |info| && info[FrameAt(m, root, v)] == PageInfo(0, 0)
  }

  /** No page of [va, hi) is mapped. */
  ghost predicate PagesAbsent(m: Memory, root: int, va: int, hi: int)
  {
    forall v :: UserPage(v) && va <= v < hi ==> FrameAt(m, root, v) == -1
  }

  /** The bytes [va, va + n) read as the first n of src. */
  ghost predicate Reads(m: Memory, root: int, va: int, src: seq<Byte>, n: int)
    requires n <= |src|
  {
    forall v :: va <= v < va + n ==> ReadVirtual(m, root, v) == Some(src[v - va])
  }

  /** A store through pid's page table to a mapped user address. */
  method WriteVirtual(k: System, pid: int, v: int, b: Byte)
    requires k.Valid() && pid in k.tabs && PROC_START_ADDR <= v < MEMSIZE_VIRTUAL
    requires FrameAt(k.phys.mem, k.tabs[pid].root, PageOfAddr(v)) >= 0
    modifies k.phys
    ensures k.Valid()
    ensures var root, m, m2 := k.tabs[pid].root, old(k.phys.mem), k.phys.mem;
            && SameLeaves(m, m2, root) && ReadVirtual(m2, root, v) == Some(b)
            && (forall w :: PROC_START_ADDR <= w < MEMSIZE_VIRTUAL && w != v ==>
                  ReadVirtual(m2, root, w) == ReadVirtual(m, root, w))
            && OthersKept(m, m2, k.tabs, pid) && HeldKept(m, k.info, m2, k.info)
  {
    hide KInv, Leaf, FrameAt, ReadVirtual, UserKept, HeldKept;
    UserPageOf(v);
    StoreSeen(k.phys.mem, k.info, k.tabs, {}, pid, v, b);
    HeldByStore(k.phys.mem, k.info, k.tabs, {}, pid, v, b);
    var vmap := k.LookupPage(pid, PageOfAddr(v), {});
    k.phys.mem := k.phys.mem[vmap.pa + v % PAGE := b];
  }

  /** memcpy to, or memset of, n bytes at va through the page table: byte i becomes src[i]. */
  method StoreBytes(k: System, pid: int, va: int, src: seq<Byte>, n: int)
    requires k.Valid() && pid in k.tabs && 0 <= n <= |src|
    requires PROC_START_ADDR <= va && va + n <= MEMSIZE_VIRTUAL
    requires forall v :: UserPage(v) && PageOfAddr(va) <= v < va + n ==> FrameAt(k.phys.mem, k.tabs[pid].root, v) >= 0
    modifies k.phys
    ensures k.Valid()
    ensures var root, m, m2 := k.tabs[pid].root, old(k.phys.mem), k.phys.mem;
            SameLeaves(m, m2, root) && Reads(m2, root, va, src, n)
            && ElsewhereKept(m, m2, root, va, va + n) && OthersKept(m, m2, k.tabs, pid)
    ensures HeldKept(old(k.phys.mem), k.info, k.phys.mem, k.info)
  {
    hide KInv, Leaf, FrameAt, ReadVirtual, UserKept, HeldKept;
    ghost var root := k.tabs[pid].root;
    NothingKept(k.phys.mem, k.tabs, pid);
    NothingHeld(k.phys.mem, k.info);
    var i := 0;
    while i < n
      invariant 0 <= i <= n && k.Valid()
      invariant SameLeaves(old(k.phys.mem), k.phys.mem, root) && Reads(k.phys.mem, root, va, src, i)
      invariant ElsewhereKept(old(k.phys.mem), k.phys.mem, root, va, va + i)
      invariant OthersKept(old(k.phys.mem), k.phys.mem, k.tabs, pid)
      invariant HeldKept(old(k.phys.mem), k.info, k.phys.mem, k.info)
    {
      ghost var m := k.phys.mem;
      UserPageOf(va + i);
      PageBase(va + i, PageOfAddr(va));
      FrameSame(old(k.phys.mem), m, root, va + i);
      WriteVirtual(k, pid, va + i, src[i]);
      OthersTwice(old(k.phys.mem), m, k.phys.mem, k.tabs, pid);
      HeldTwice(old(k.phys.mem), k.info, m, k.info, k.phys.mem, k.info);
      i := i + 1;
    }
  }

  /** The pages from va, a page boundary, up to hi. */
  function PageCount(va: int, hi: int): nat
  {
    if hi <= va then 0 else (RoundUp(hi, PAGE) - va) / PAGE
  }

  lemma CountAbove(va: int, n: int, hi: int)
    requires va % PAGE == 0 && 0 <= n && va + n * PAGE < hi
    ensures n < PageCount(va, hi)
  {
    var q := (hi - va + PAGE - 1) / PAGE;
    PagesUp(va, hi, q);
    assert n < q;
  }

  lemma CountReached(va: int, n: int, hi: int)
    requires va % PAGE == 0 && 0 <= n && hi <= va + n * PAGE && (va + n * PAGE < hi + PAGE || n == 0)
    ensures n == PageCount(va, hi)
  {
    if va < hi {
      var q := (hi - va + PAGE - 1) / PAGE;
      PagesUp(va, hi, q);
      assert n == q;
    }
  }

  lemma PagesUp(va: int, hi: int, q: int)
    requires va % PAGE == 0 && va < hi && q == (hi - va + PAGE - 1) / PAGE
    ensures RoundUp(hi, PAGE) == va + q * PAGE && PageCount(va, hi) == q && 0 < q
    ensures hi <= va + q * PAGE < hi + PAGE
  {
    var v := va / PAGE;
    var r := (hi - va + PAGE - 1) % PAGE;
    assert va == v * PAGE && hi + PAGE - 1 == (v + q) * PAGE + r;
    PageQuotient(v + q, r);
    assert (hi + PAGE - 1) % PAGE == r;
    PageQuotient(q, 0);
  }

  /** What one palloc does to the number of free frames. */
  lemma OneTaken(info: seq<PageInfo>, pid: int)
    requires |info| == NPAGES && 0 < pid
    ensures var f := FirstFree(info, 1);
            if f == NPAGES then |FreeFrames(info)| == 0
            else |FreeFrames(info[f := PageInfo(pid, 1)])| == |FreeFrames(info)| - 1
  {
    var f := FirstFree(info, 1);
    if f == NPAGES {
      assert FreeFrames(info) == {};
    } else {
      assert f in FreeFrames(info) && FreeFrames(info[f := PageInfo(pid, 1)]) == FreeFrames(info) - {f};
    }
  }

  /** The allocation loop: a fresh frame for every page from va up to hi. */
  method AllocPages(k: System, pid: int, va: int, hi: int) returns (r: int)
    requires k.Valid() && pid in k.tabs && va % PAGE == 0 && PROC_START_ADDR <= va && hi <= MEMSIZE_VIRTUAL
    requires PagesAbsent(k.phys.mem, k.tabs[pid].root, va, hi)
    modifies k.phys, k`info
    ensures k.Valid() && OthersKept(old(k.phys.mem), k.phys.mem, k.tabs, pid)
    ensures HeldKept(old(k.phys.mem), old(k.info), k.phys.mem, k.info)
    ensures r == 0 ==>
              var root, m, m2 := k.tabs[pid].root, old(k.phys.mem), k.phys.mem;
              PagesMapped(m2, root, va, hi, 7) && PagesFresh(old(k.info), m2, root, va, hi)
              && ElsewhereKept(m, m2, root, va, RoundUp(hi, PAGE))
    ensures r == if PageCount(va, hi) <= |FreeFrames(old(k.info))| then 0 else -1
    ensures |FreeFrames(k.info)| == if r == 0 then |FreeFrames(old(k.info))| - PageCount(va, hi) else 0
  {
    hide FreeFrames, PageCount;
    hide KInv, Leaf, FrameAt, ReadVirtual, UserKept, Tree, LeafSet, OnlyLeafTables, PagesMapped, PagesFresh;
    hide PagesAbsent, ElsewhereKept, Filled, SameOutside, FirstFree, HeldKept;
    ghost var root, m0, i0 := k.tabs[pid].root, k.phys.mem, k.info;
    NothingKept(k.phys.mem, k.tabs, pid);
    NothingHeld(k.phys.mem, k.info);
    NoPages(k.info, k.phys.mem, root, va);
    var addr := va;
    ghost var n := 0;
    while addr < hi
      invariant va <= addr && addr % PAGE == 0 && (addr < hi + PAGE || addr == va) && k.Valid()
      invariant 0 <= n && addr == va + n * PAGE && |FreeFrames(k.info)| + n == |FreeFrames(old(k.info))|
      invariant PagesMapped(k.phys.mem, root, va, addr, 7) && PagesFresh(old(k.info), k.phys.mem, root, va, addr)
      invariant PagesAbsent(k.phys.mem, root, addr, hi)
      invariant OnlyTaken(old(k.info), k.info)
      invariant ElsewhereKept(m0, k.phys.mem, root, va, addr) && OthersKept(m0, k.phys.mem, k.tabs, pid)
      invariant HeldKept(m0, i0, k.phys.mem, k.info)
      decreases hi - addr
    {
      ghost var m, i := k.phys.mem, k.info;
      AbsentAt(m, root, addr, hi);
      var pa := k.Palloc(pid, {});
      OneTaken(i, pid);
      if pa == 0 {
        CountAbove(va, n, hi);
        OthersTwice(m0, m, k.phys.mem, k.tabs, pid);
        HeldTwice(m0, i0, m, i, k.phys.mem, k.info);
        return -1;
      }
      label taken:
      FrameAtSame(m, k.phys.mem, root, addr);
      assert {} + {pa / PAGE} == {pa / PAGE} && {pa / PAGE} - {pa / PAGE} == {};
      var mapped := k.MapPage(pid, addr, pa, {pa / PAGE});
      LeafSetAfter(m, old@taken(k.phys.mem), k.phys.mem, root, addr, pa + 7);
      OthersTwice(m, old@taken(k.phys.mem), k.phys.mem, k.tabs, pid);
      OthersTwice(m0, m, k.phys.mem, k.tabs, pid);
      HeldTwice(m, i, old@taken(k.phys.mem), k.info, k.phys.mem, k.info);
      HeldTwice(m0, i0, m, i, k.phys.mem, k.info);
      PagesStep(m, k.phys.mem, old(k.info), i, k.info, root, pid, va, addr, hi, pa);
      ElsewhereOne(m, old@taken(k.phys.mem), k.phys.mem, k.tabs, k.info, {pa / PAGE}, pid, addr, pa);
      ElsewhereAfter(m0, m, k.phys.mem, root, va, addr, addr + PAGE);
      addr := addr + PAGE;
      n := n + 1;
    }
    CountReached(va, n, hi);
    AllocDone(old(k.info), m0, k.phys.mem, root, va, addr, hi);
    return 0;
  }

  /** Frames free now were free before. */
  ghost predicate OnlyTaken(info: seq<PageInfo>, info2: seq<PageInfo>)
  {
    |info| == |info2| && forall f :: 0 <= f < |info| && info2[f] == PageInfo(0, 0) ==> info[f] == PageInfo(0, 0)
  }

  lemma NoPages(info: seq<PageInfo>, m: Memory, root: int, va: int)
    ensures PagesMapped(m, root, va, va, 7) && PagesFresh(info, m, root, va, va) && ElsewhereKept(m, m, root, va, va)
  {
  }

  lemma AbsentAt(m: Memory, root: int, addr: int, hi: int)
    requires PagesAbsent(m, root, addr, hi) && UserPage(addr) && addr < hi
    ensures FrameAt(m, root, addr) == -1
  {
    hide FrameAt;
  }

  /** One more page, mapped to a frame that was free. */
  lemma PagesStep(m: Memory, m2: Memory, info0: seq<PageInfo>, info: seq<PageInfo>, info2: seq<PageInfo>,
                  root: int, pid: int, va: int, addr: int, hi: int, pa: int)
    requires UserPage(addr) && va <= addr < hi && pa % PAGE == 0 && 0 < pa && pa / PAGE < |info|
    requires info[pa / PAGE] == PageInfo(0, 0) && info2 == info[pa / PAGE := PageInfo(pid, 1)] && OnlyTaken(info0, info)
    requires LeafSet(m, m2, root, addr, pa + 7) && 0 < pid
    requires PagesMapped(m, root, va, addr, 7) && PagesFresh(info0, m, root, va, addr) && PagesAbsent(m, root, addr, hi)
    ensures PagesMapped(m2, root, va, addr + PAGE, 7) && PagesFresh(info0, m2, root, va, addr + PAGE)
    ensures PagesAbsent(m2, root, addr + PAGE, hi)
    ensures OnlyTaken(info0, info2)
  {
    hide FrameAt, FrameOf, Leaf, LeafSet;
    FramesAfter(m, m2, root, addr, pa + 7);
    FrameSeven(pa);
    LeafSetLeaves(m, m2, root, addr, pa + 7);
  }

  lemma FrameSeven(pa: int)
    requires pa % PAGE == 0 && 0 < pa
    ensures FrameOf(pa + 7) == pa / PAGE && pa / PAGE * PAGE == pa
  {
  }

  lemma LeafSetLeaves(m: Memory, m2: Memory, root: int, va: int, e: int)
    requires LeafSet(m, m2, root, va, e) && UserPage(va)
    ensures Leaf(m2, root, va) == Some(e)
    ensures forall v :: UserPage(v) && v != va ==> Leaf(m2, root, v) == Leaf(m, root, v)
  {
    hide Leaf;
  }

  lemma ElsewhereAfter(m: Memory, m1: Memory, m2: Memory, root: int, va: int, lo: int, hi: int)
    requires ElsewhereKept(m, m1, root, va, lo) && ElsewhereKept(m1, m2, root, lo, hi) && va <= lo <= hi
    ensures ElsewhereKept(m, m2, root, va, hi)
  {
    hide Leaf, ReadVirtual;
  }

  lemma AllocDone(info: seq<PageInfo>, m: Memory, m2: Memory, root: int, va: int, addr: int, hi: int)
    requires va <= addr && hi <= addr && (addr < hi + PAGE || addr == va) && addr % PAGE == 0
    requires PagesMapped(m2, root, va, addr, 7) && PagesFresh(info, m2, root, va, addr)
    requires ElsewhereKept(m, m2, root, va, addr)
    ensures PagesMapped(m2, root, va, hi, 7) && PagesFresh(info, m2, root, va, hi)
    ensures ElsewhereKept(m, m2, root, va, RoundUp(hi, PAGE))
  {
    hide Leaf, ReadVirtual, FrameAt;
  }

  /** Between m and m2 the process reads the same everywhere and no page changed frame. */
  ghost predicate SameReads(m: Memory, m2: Memory, root: int)
  {
    && (forall v :: UserPage(v) ==> FrameAt(m2, root, v) == FrameAt(m, root, v))
    && forall v :: PROC_START_ADDR <= v < MEMSIZE_VIRTUAL ==> ReadVirtual(m2, root, v) == ReadVirtual(m, root, v)
  }

  /** Outside [va, hi) the leaves are the same. */
  ghost predicate LeavesOutside(m: Memory, m2: Memory, root: int, va: int, hi: int)
  {
    forall v :: PROC_START_ADDR <= v < MEMSIZE_VIRTUAL && !(va <= v < hi) ==> Leaf(m2, root, v) == Leaf(m, root, v)
  }

  /** The write-protect pass: pages from va up to hi lose W and keep their translation. */
  method WriteProtect(k: System, pid: int, va: int, hi: int)
    requires k.Valid() && pid in k.tabs && va % PAGE == 0 && PROC_START_ADDR <= va && hi <= MEMSIZE_VIRTUAL
    requires PagesMapped(k.phys.mem, k.tabs[pid].root, va, hi, 7)
    modifies k.phys
    ensures k.Valid() && OthersKept(old(k.phys.mem), k.phys.mem, k.tabs, pid)
    ensures var root, m, m2 := k.tabs[pid].root, old(k.phys.mem), k.phys.mem;
            && PagesMapped(m2, root, va, hi, 5) && SameReads(m, m2, root)
            && LeavesOutside(m, m2, root, va, RoundUp(hi, PAGE))
            && HeldKept(m, k.info, m2, k.info)
  {
    hide KInv, Leaf, FrameAt, ReadVirtual, UserKept, Tree, LeafSet, OnlyLeafTables, PagesMapped, SameReads;
    hide LeavesOutside, HeldKept;
    ghost var root, m0 := k.tabs[pid].root, k.phys.mem;
    NothingKept(m0, k.tabs, pid);
    NothingHeld(m0, k.info);
    NoProtection(m0, root, va);
    var addr := va;
    while addr < hi
      invariant va <= addr && addr % PAGE == 0 && (addr < hi + PAGE || addr == va) && k.Valid()
      invariant PagesMapped(k.phys.mem, root, va, addr, 5) && PagesMapped(k.phys.mem, root, addr, hi, 7)
      invariant SameReads(m0, k.phys.mem, root) && LeavesOutside(m0, k.phys.mem, root, va, addr)
      invariant OthersKept(m0, k.phys.mem, k.tabs, pid) && HeldKept(m0, k.info, k.phys.mem, k.info)
      decreases hi - addr
    {
      ghost var m := k.phys.mem;
      MappedAt(m, root, addr, hi);
      var mapping := k.LookupPage(pid, addr, {});
      FrameFive(mapping.pa);
      var r := k.SetPage(pid, addr, mapping.pa, 5, {});
      Remap(m, k.phys.mem, k.info, k.tabs, {}, pid, addr, mapping.pa + 5);
      TableWriteUnseen(m, k.phys.mem, k.info, k.tabs, {}, pid);
      HeldByTables(m, k.phys.mem, k.info, k.tabs, {}, pid);
      HeldTwice(m0, k.info, m, k.info, k.phys.mem, k.info);
      OthersTwice(m0, m, k.phys.mem, k.tabs, pid);
      ProtectPages(m, k.phys.mem, root, va, addr, hi, mapping.pa);
      ProtectReads(m0, m, k.phys.mem, k.info, k.tabs, pid, va, addr, mapping.pa);
      addr := addr + PAGE;
    }
    ProtectDone(m0, k.phys.mem, root, va, addr, hi);
  }

  lemma NoProtection(m: Memory, root: int, va: int)
    ensures PagesMapped(m, root, va, va, 5) && SameReads(m, m, root) && LeavesOutside(m, m, root, va, va)
  {
  }

  lemma MappedAt(m: Memory, root: int, addr: int, hi: int)
    requires PagesMapped(m, root, addr, hi, 7) && UserPage(addr) && addr < hi
    ensures FrameAt(m, root, addr) >= 0
  {
    hide FrameAt, Leaf;
  }

  lemma FrameFive(pa: int)
    requires pa % PAGE == 0 && 0 <= pa
    ensures FrameOf(pa + 5) == pa / PAGE && NewEntry(pa, 5, 0) == pa + 5 && pa / PAGE * PAGE == pa
  {
    FiveAbove(pa / PAGE);
    hide FrameOf;
    assert Present(5);
  }

  lemma FiveAbove(f: int)
    ensures FrameOf(f * PAGE + 5) == f
  {
    assert f * PAGE + 5 == 2 * (f * 2048 + 2) + 1;
    Halve(f * 2048 + 2, 1);
    PageQuotient(f, 5);
  }

  lemma PageQuotient(q: int, r: int)
    requires 0 <= r < PAGE
    ensures (q * PAGE + r) / PAGE == q
  {
  }

  lemma ProtectPages(m: Memory, m2: Memory, root: int, va: int, addr: int, hi: int, pa: int)
    requires UserPage(addr) && va <= addr < hi && pa % PAGE == 0 && 0 <= pa
    requires FrameAt(m, root, addr) == pa / PAGE && LeafSet(m, m2, root, addr, pa + 5)
    requires PagesMapped(m, root, va, addr, 5) && PagesMapped(m, root, addr, hi, 7)
    ensures PagesMapped(m2, root, va, addr + PAGE, 5) && PagesMapped(m2, root, addr + PAGE, hi, 7)
  {
    hide FrameAt, FrameOf, Leaf, LeafSet;
    FramesAfter(m, m2, root, addr, pa + 5);
    FrameFive(pa);
    LeafSetLeaves(m, m2, root, addr, pa + 5);
  }

  lemma ProtectReads(m0: Memory, m: Memory, m2: Memory, info: seq<PageInfo>, tabs: map<int, Tables>, pid: int,
                     va: int, addr: int, pa: int)
    requires KInv(m, info, tabs, {}) && pid in tabs && UserPage(addr) && va <= addr && pa % PAGE == 0 && 0 <= pa
    requires FrameAt(m, tabs[pid].root, addr) == pa / PAGE && LeafSet(m, m2, tabs[pid].root, addr, pa + 5)
    requires OnlyLeafTables(m, m2, tabs[pid].lay)
    requires SameReads(m0, m, tabs[pid].root) && LeavesOutside(m0, m, tabs[pid].root, va, addr)
    ensures SameReads(m0, m2, tabs[pid].root) && LeavesOutside(m0, m2, tabs[pid].root, va, addr + PAGE)
  {
    hide FrameAt, FrameOf, Leaf, LeafSet, KInv, OnlyLeafTables, ReadVirtual;
    var root := tabs[pid].root;
    FramesAfter(m, m2, root, addr, pa + 5);
    FrameFive(pa);
    forall v | PROC_START_ADDR <= v < MEMSIZE_VIRTUAL
      ensures ReadVirtual(m2, root, v) == ReadVirtual(m, root, v)
      ensures !(addr <= v < addr + PAGE) ==> Leaf(m2, root, v) == Leaf(m, root, v)
    {
      if addr <= v < addr + PAGE {
        ProtectByte(m, m2, info, tabs, pid, addr, v);
      } else {
        LeafSetElsewhere(m, m2, root, addr, pa + 5, v);
        UserByteKept(m, m2, info, tabs, {}, pid, v);
      }
    }
  }

  /** A byte of the protected page: same frame, and the frame is not a table. */
  lemma ProtectByte(m: Memory, m2: Memory, info: seq<PageInfo>, tabs: map<int, Tables>, pid: int, addr: int, v: int)
    requires KInv(m, info, tabs, {}) && pid in tabs && UserPage(addr) && addr <= v < addr + PAGE
    requires FrameAt(m2, tabs[pid].root, addr) == FrameAt(m, tabs[pid].root, addr) >= 0
    requires OnlyLeafTables(m, m2, tabs[pid].lay)
    ensures ReadVirtual(m2, tabs[pid].root, v) == ReadVirtual(m, tabs[pid].root, v)
  {
    hide FrameAt, Leaf, KInv, OnlyLeafTables, ReadVirtual;
    var root := tabs[pid].root;
    assert PageOfAddr(v) == addr;
    SizeOf(m, info, tabs, {});
    OwnedFrame(m, info, tabs, {}, pid, v);
    FrameClear(m, m2, info, tabs, {}, pid, FrameAt(m, root, addr));
    ReadIs(m, root, v);
    ReadIs(m2, root, v);
  }

  lemma ProtectDone(m: Memory, m2: Memory, root: int, va: int, addr: int, hi: int)
    requires va <= addr && hi <= addr && (addr < hi + PAGE || addr == va) && addr % PAGE == 0
    requires PagesMapped(m2, root, va, addr, 5) && LeavesOutside(m, m2, root, va, addr)
    ensures PagesMapped(m2, root, va, hi, 5) && LeavesOutside(m, m2, root, va, RoundUp(hi, PAGE))
  {
    hide Leaf, FrameAt;
  }

  // ----- the whole segment ------------------------------------------------------------------

  /** program_load_segment. The image is copied to the page boundary below p_va, so
      byte v of the file part reads as src[v - va]. */
  method LoadSegment(k: System, pid: int, pva: int, filesz: int, memsz: int, writable: bool, src: seq<Byte>)
    returns (r: int)
    requires k.Valid() && pid in k.tabs && k.procs[pid].state != Runnable
    requires 0 <= filesz <= memsz && PROC_START_ADDR <= pva && pva + memsz <= MEMSIZE_VIRTUAL
    requires filesz + pva % PAGE <= |src|
    requires PagesAbsent(k.phys.mem, k.tabs[pid].root, RoundDown(pva, PAGE), pva + memsz)
    modifies k.phys, k`info, k`procs
    ensures k.Valid() && OthersKept(old(k.phys.mem), k.phys.mem, k.tabs, pid)
    ensures HeldKept(old(k.phys.mem), old(k.info), k.phys.mem, k.info)
    ensures r == 0 ==>
              var root, m, m2, va := k.tabs[pid].root, old(k.phys.mem), k.phys.mem, RoundDown(pva, PAGE);
              var brk := RoundUp(pva + memsz, PAGE);
              && PagesFresh(old(k.info), m2, root, va, pva + memsz)
              && PagesMapped(m2, root, va, pva + memsz, if writable then 7 else 5)
              && Reads(m2, root, va, src, pva + filesz - va)
              && (Reads(m2, root, pva, src, filesz) <==> Unshifted(src, pva % PAGE, filesz))
              && (forall v :: pva + filesz <= v < pva + memsz ==> ReadVirtual(m2, root, v) == Some(0))
              && ElsewhereKept(m, m2, root, va, brk)
              && k.procs == old(k.procs)[pid := old(k.procs)[pid].(originalBreak := brk, programBreak := brk)]
    ensures r != 0 ==> k.procs == old(k.procs)
    ensures var need := PageCount(RoundDown(pva, PAGE), pva + memsz);
            && r == (if need <= |FreeFrames(old(k.info))| then 0 else -1)
            && |FreeFrames(k.info)| == if r == 0 then |FreeFrames(old(k.info))| - need else 0
  {
    hide FreeFrames, PageCount, Unshifted;
    hide KInv, Leaf, FrameAt, ReadVirtual, UserKept, PagesMapped, PagesFresh, PagesAbsent, ElsewhereKept;
    hide SameLeaves, FirstFree, SameReads, LeavesOutside, HeldKept;
    var endFile := pva + filesz;
    var endMem := pva + memsz;
    var va := RoundDown(pva, PAGE);
    ghost var root, m0, i0 := k.tabs[pid].root, k.phys.mem, k.info;
    r := AllocPages(k, pid, va, endMem);
    if r != 0 {
      return;
    }
    ghost var m1 := k.phys.mem;
    PagesUsable(m1, root, va, endMem);
    StoreBytes(k, pid, va, src, endFile - va);
    ghost var m2 := k.phys.mem;
    OthersTwice(m0, m1, m2, k.tabs, pid);
    HeldTwice(m0, i0, m1, k.info, m2, k.info);
    Stored(m0, m1, m2, old(k.info), root, va, va, endFile, endMem);
    PagesUsable(m2, root, va, endMem);
    PageOrder(va, endFile);
    var zeros: seq<Byte> := seq(endMem - endFile, _ => 0);
    StoreBytes(k, pid, endFile, zeros, endMem - endFile);
    ghost var m3 := k.phys.mem;
    OthersTwice(m0, m2, m3, k.tabs, pid);
    HeldTwice(m0, i0, m2, k.info, m3, k.info);
    Stored(m0, m2, m3, old(k.info), root, va, endFile, endMem, endMem);
    BytesPlaced(m2, m3, root, va, src, endFile, zeros, endMem);
    if !writable {
      WriteProtect(k, pid, va, endMem);
      OthersTwice(m0, m3, k.phys.mem, k.tabs, pid);
      HeldTwice(m0, i0, m3, k.info, k.phys.mem, k.info);
      Protected(m0, m3, k.phys.mem, old(k.info), root, va, src, endFile, endMem);
    }
    ImageReads(k.phys.mem, root, pva, src, filesz);
    var brk := RoundUp(endMem, PAGE);
    k.procs := k.procs[pid := k.procs[pid].(originalBreak := brk, programBreak := brk)];
    return 0;
  }

  lemma PageOrder(va: int, v: int)
    requires va % PAGE == 0 && va <= v
    ensures va <= PageOfAddr(v)
  {
  }

  lemma PagesUsable(m: Memory, root: int, va: int, hi: int)
    requires PagesMapped(m, root, va, hi, 7)
    ensures forall v :: UserPage(v) && va <= v < hi ==> FrameAt(m, root, v) >= 0
  {
    hide FrameAt, Leaf;
  }

  /** Storing bytes inside the segment keeps what the allocation established. */
  lemma Stored(m0: Memory, m1: Memory, m2: Memory, info: seq<PageInfo>, root: int, va: int, lo: int, hi: int,
               endMem: int)
    requires va <= lo <= hi <= endMem && SameLeaves(m1, m2, root) && ElsewhereKept(m1, m2, root, lo, hi)
    requires PagesMapped(m1, root, va, endMem, 7) && PagesFresh(info, m1, root, va, endMem)
    requires ElsewhereKept(m0, m1, root, va, RoundUp(endMem, PAGE))
    ensures PagesMapped(m2, root, va, endMem, 7) && PagesFresh(info, m2, root, va, endMem)
    ensures ElsewhereKept(m0, m2, root, va, RoundUp(endMem, PAGE))
  {
    SameLeavesFrames(m1, m2, root);
    hide FrameAt, Leaf, ReadVirtual;
  }

  lemma SameLeavesFrames(m: Memory, m2: Memory, root: int)
    requires SameLeaves(m, m2, root)
    ensures forall v :: UserPage(v) ==>
              FrameAt(m2, root, v) == FrameAt(m, root, v) && Leaf(m2, root, v) == Leaf(m, root, v)
  {
    hide Leaf;
  }

  /** The zero fill keeps the copied bytes. */
  lemma BytesPlaced(m2: Memory, m3: Memory, root: int, va: int, src: seq<Byte>, endFile: int, zeros: seq<Byte>,
                    endMem: int)
    requires PROC_START_ADDR <= va <= endFile <= endMem <= MEMSIZE_VIRTUAL && endFile - va <= |src|
    requires |zeros| == endMem - endFile && forall i :: 0 <= i < |zeros| ==> zeros[i] == 0
    requires Reads(m2, root, va, src, endFile - va) && Reads(m3, root, endFile, zeros, endMem - endFile)
    requires ElsewhereKept(m2, m3, root, endFile, endMem)
    ensures Reads(m3, root, va, src, endFile - va)
    ensures forall v :: endFile <= v < endMem ==> ReadVirtual(m3, root, v) == Some(0)
  {
    hide Leaf, ReadVirtual;
  }

  /** Write protection changes no byte and no frame. */
  lemma Protected(m0: Memory, m3: Memory, m4: Memory, info: seq<PageInfo>, root: int, va: int, src: seq<Byte>,
                  endFile: int, endMem: int)
    requires PROC_START_ADDR <= va <= endFile <= endMem <= MEMSIZE_VIRTUAL && endFile - va <= |src|
    requires SameReads(m3, m4, root) && LeavesOutside(m3, m4, root, va, RoundUp(endMem, PAGE))
    requires PagesFresh(info, m3, root, va, endMem) && ElsewhereKept(m0, m3, root, va, RoundUp(endMem, PAGE))
    requires Reads(m3, root, va, src, endFile - va)
    requires forall v :: endFile <= v < endMem ==> ReadVirtual(m3, root, v) == Some(0)
    ensures PagesFresh(info, m4, root, va, endMem) && ElsewhereKept(m0, m4, root, va, RoundUp(endMem, PAGE))
    ensures Reads(m4, root, va, src, endFile - va)
    ensures forall v :: endFile <= v < endMem ==> ReadVirtual(m4, root, v) == Some(0)
  {
    hide Leaf, ReadVirtual, FrameAt;
  }

  /** Byte i of the file part is also byte i + off, for every i. */
  ghost predicate Unshifted(src: seq<Byte>, off: nat, filesz: nat)
    requires filesz + off <= |src|
  {
    forall i :: 0 <= i < filesz ==> src[i + off] == src[i]
  }

  /** With the image placed from the page boundary on, its first filesz bytes read at p_va exactly
      when it is unchanged by the shift. */
  lemma ImageReads(m: Memory, root: int, pva: int, src: seq<Byte>, filesz: nat)
    requires 0 <= pva && filesz + pva % PAGE <= |src|
    requires Reads(m, root, RoundDown(pva, PAGE), src, pva + filesz - RoundDown(pva, PAGE))
    ensures Reads(m, root, pva, src, filesz) <==> Unshifted(src, pva % PAGE, filesz)
  {
    hide ReadVirtual;
    var off := pva % PAGE;
    assert forall v :: pva <= v < pva + filesz ==> ReadVirtual(m, root, v) == Some(src[v - RoundDown(pva, PAGE)]);
    assert RoundDown(pva, PAGE) == pva - off;
    if Reads(m, root, pva, src, filesz) {
      forall i | 0 <= i < filesz
        ensures src[i + off] == src[i]
      {
        assert ReadVirtual(m, root, pva + i) == Some(src[pva + i - pva]);
      }
    }
  }

  /** So the documented promise, the image's first filesz bytes at p_va, is met for every image
      exactly when p_va is page-aligned or the file part is empty. */
  lemma ImageInPlace(pva: int, filesz: nat)
    requires 0 <= pva
    ensures (forall src: seq<Byte> :: filesz + pva % PAGE <= |src| ==> Unshifted(src, pva % PAGE, filesz)) <==>
            pva % PAGE == 0 || filesz == 0
  {
    var off := pva % PAGE;
    if off != 0 && filesz != 0 {
      var src := MarkedImage(off, filesz);
      assert src[0 + off] != src[0];
      assert !Unshifted(src, off, filesz);
    }
  }

  /** An image of zeros but for a one at the offset. */
  function MarkedImage(off: nat, filesz: nat): (src: seq<Byte>)
    requires off != 0 && filesz != 0
    ensures |src| == off + filesz && src[0] == 0 && src[off] == 1
  {
    seq(off + filesz, i => if i == off then 1 else 0)
  }

  /** Such a segment: loaded at an unaligned p_va, its first byte is not the image's. */
  method MisplaceImage(k: System, pid: int, pva: int, filesz: int, memsz: int, writable: bool)
    returns (r: int, src: seq<Byte>)
    requires k.Valid() && pid in k.tabs && k.procs[pid].state != Runnable
    requires 0 < filesz <= memsz && PROC_START_ADDR <= pva && pva + memsz <= MEMSIZE_VIRTUAL && pva % PAGE != 0
    requires PagesAbsent(k.phys.mem, k.tabs[pid].root, RoundDown(pva, PAGE), pva + memsz)
    modifies k.phys, k`info, k`procs
    ensures k.Valid() && |src| == filesz + pva % PAGE
    ensures r == 0 ==> ReadVirtual(k.phys.mem, k.tabs[pid].root, pva) == Some(1) && src[0] == 0
  {
    hide KInv, ReadVirtual, PagesAbsent, PagesMapped, PagesFresh, ElsewhereKept, FreeFrames, OthersKept;
    src := MarkedImage(pva % PAGE, filesz);
    r := LoadSegment(k, pid, pva, filesz, memsz, writable, src);
  }
}
