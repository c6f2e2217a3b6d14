/** What one process reads is out of reach of the steps taken for another. */
module Isolation {
  import opened Words
  import opened PageTables
  import opened VirtualMemory
  import opened KernelState

  /** The byte a process reads at v, if v is mapped. */
  function ReadVirtual(m: Memory, root: int, v: int): Option<Byte>
  {
    match Leaf(m, root, v)
    case None => None
    case Some(e) =>
      var a := PteAddr(e) + v % PAGE;
      if Present(e) && 0 <= a < |m| then Some(m[a]) else None
  }

  function PageOfAddr(v: int): int
  {
    v - v % PAGE
  }

  lemma PageBase(v: int, i: int)
    requires i % PAGE == 0
    ensures v / PAGE == i / PAGE <==> PageOfAddr(v) == i
    ensures PageOfAddr(v) == i || PageOfAddr(v) < i || i + PAGE <= PageOfAddr(v)
  {
  }

  lemma LeafNat(m: Memory, root: int, va: int)
    ensures Leaf(m, root, va).Some? ==> Leaf(m, root, va).value >= 0
  {
    hide Walk;
  }

  lemma EntrySplit(e: nat)
    ensures PteAddr(e) == e / PAGE * PAGE
  {
  }

  /** All of pid's user addresses have the same leaves and read the same bytes. */
  ghost predicate UserKept(m: Memory, m2: Memory, root: int)
  {
    forall v :: PROC_START_ADDR <= v < MEMSIZE_VIRTUAL ==>
      Leaf(m2, root, v) == Leaf(m, root, v) && ReadVirtual(m2, root, v) == ReadVirtual(m, root, v)
  }

  ghost predicate OthersKept(m: Memory, m2: Memory, tabs: map<int, Tables>, pid: int)
  {
    forall q :: q in tabs && q != pid ==> UserKept(m, m2, tabs[q].root)
  }

  lemma OthersTwice(m: Memory, m1: Memory, m2: Memory, tabs: map<int, Tables>, pid: int)
    requires OthersKept(m, m1, tabs, pid) && OthersKept(m1, m2, tabs, pid)
    ensures OthersKept(m, m2, tabs, pid)
  {
    hide Leaf, ReadVirtual;
    forall q | q in tabs && q != pid
      ensures UserKept(m, m2, tabs[q].root)
    {
      assert UserKept(m, m1, tabs[q].root) && UserKept(m1, m2, tabs[q].root);
    }
  }

  /** An unchanged leaf over an unchanged frame reads the same byte. */
  lemma ReadKept(m: Memory, m2: Memory, root: int, v: int)
    requires 0 <= v < VA_LIMIT && |m| == |m2| && Leaf(m2, root, v) == Leaf(m, root, v)
    requires var f := FrameAt(m, root, PageOfAddr(v)); f >= 0 ==> SameBytes(m, m2, f * PAGE, f * PAGE + PAGE)
    ensures ReadVirtual(m2, root, v) == ReadVirtual(m, root, v)
  {
    PageStart(v);
    SamePageLeaf(m, root, v, PageOfAddr(v));
    LeafNat(m, root, v);
    hide Leaf, PageOfAddr;
    if Leaf(m, root, v).Some? {
      SameFrameSameByte(m, m2, Leaf(m, root, v).value, v);
    }
  }

  lemma PageStart(v: int)
    requires 0 <= v < VA_LIMIT
    ensures 0 <= PageOfAddr(v) < VA_LIMIT && v / PAGE == PageOfAddr(v) / PAGE
  {
  }

  lemma SameFrameSameByte(m: Memory, m2: Memory, e: nat, v: int)
    requires |m| == |m2| && (Present(e) ==> SameBytes(m, m2, e / PAGE * PAGE, e / PAGE * PAGE + PAGE))
    ensures var a := PteAddr(e) + v % PAGE;
            Present(e) && 0 <= a < |m| ==> m2[a] == m[a]
  {
    EntrySplit(e);
    assert 0 <= v % PAGE < PAGE;
    hide PteAddr, Present;
  }

  lemma OwnedFrame(m: Memory, info: seq<PageInfo>, tabs: map<int, Tables>, loose: set<int>, q: int, v: int)
    requires KInv(m, info, tabs, loose) && q in tabs && PROC_START_ADDR <= v < MEMSIZE_VIRTUAL
    ensures UserPage(PageOfAddr(v))
    ensures var f := FrameAt(m, tabs[q].root, PageOfAddr(v));
            f >= 0 ==> f < NPAGES && info[f] == PageInfo(q, 1) && f * PAGE !in tabs[q].lay && f !in loose
  {
    hide FrameAt, Tree, TablesOwned, PagesDistinct, Covers, LowIdentity, Accounted, LooseOwned, FreeTogether;
    UserPageOf(v);
    assert ProcInv(m, info, q, tabs[q], loose);
  }

  lemma UserPageOf(v: int)
    requires PROC_START_ADDR <= v < MEMSIZE_VIRTUAL
    ensures UserPage(PageOfAddr(v))
  {
  }

  /** Filling a free frame is seen by no process. */
  lemma FillUnseen(m: Memory, m2: Memory, info: seq<PageInfo>, tabs: map<int, Tables>, loose: set<int>, f: int)
    requires KInv(m, info, tabs, loose) && 0 <= f < NPAGES && info[f] == PageInfo(0, 0)
    requires SameOutside(m, m2, f * PAGE, f * PAGE + PAGE)
    requires forall q, v :: q in tabs && 0 <= v < VA_LIMIT ==> Leaf(m2, tabs[q].root, v) == Leaf(m, tabs[q].root, v)
    ensures forall q :: q in tabs ==> UserKept(m, m2, tabs[q].root)
  {
    forall q | q in tabs
      ensures UserKept(m, m2, tabs[q].root)
    {
      hide KInv, Leaf, ReadVirtual, FrameAt;
      forall v | PROC_START_ADDR <= v < MEMSIZE_VIRTUAL
        ensures ReadVirtual(m2, tabs[q].root, v) == ReadVirtual(m, tabs[q].root, v)
      {
        OwnedFrame(m, info, tabs, loose, q, v);
        OwnerPositive(m, info, tabs, loose, q);
        FrameApart(m, m2, FrameAt(m, tabs[q].root, PageOfAddr(v)), f);
        ReadKept(m, m2, tabs[q].root, v);
      }
    }
  }

  lemma OwnerPositive(m: Memory, info: seq<PageInfo>, tabs: map<int, Tables>, loose: set<int>, q: int)
    requires KInv(m, info, tabs, loose) && q in tabs
    ensures 0 < q
  {
    assert ProcInv(m, info, q, tabs[q], loose);
  }

  lemma FrameApart(m: Memory, m2: Memory, g: int, f: int)
    requires SameOutside(m, m2, f * PAGE, f * PAGE + PAGE) && g != f
    ensures SameBytes(m, m2, g * PAGE, g * PAGE + PAGE)
  {
  }

  /** Writes into pid's leaf tables are seen by no other process. */
  lemma TableWriteUnseen(m: Memory, m2: Memory, info: seq<PageInfo>, tabs: map<int, Tables>, loose: set<int>, pid: int)
    requires KInv(m, info, tabs, loose) && pid in tabs && OnlyLeafTables(m, m2, tabs[pid].lay)
    ensures OthersKept(m, m2, tabs, pid)
  {
    forall q | q in tabs && q != pid
      ensures UserKept(m, m2, tabs[q].root)
    {
      TableWriteUnseenBy(m, m2, info, tabs, loose, pid, q);
    }
  }

  lemma TableWriteUnseenBy(m: Memory, m2: Memory, info: seq<PageInfo>, tabs: map<int, Tables>, loose: set<int>,
                           pid: int, q: int)
    requires KInv(m, info, tabs, loose) && pid in tabs && q in tabs && q != pid
    requires OnlyLeafTables(m, m2, tabs[pid].lay)
    ensures UserKept(m, m2, tabs[q].root)
  {
    assert ProcInv(m, info, pid, tabs[pid], loose) && ProcInv(m, info, q, tabs[q], loose);
    hide Leaf, FrameAt, Tree, Accounted, LooseOwned, Covers, LowIdentity, PagesDistinct, PagesOwned;
    hide OnlyLeafTables, ReadVirtual;
    OtherProc(m, m2, info, info, pid, tabs[pid], q, tabs[q], loose, loose);
    forall v | PROC_START_ADDR <= v < MEMSIZE_VIRTUAL
      ensures ReadVirtual(m2, tabs[q].root, v) == ReadVirtual(m, tabs[q].root, v)
    {
      OwnedFrame(m, info, tabs, loose, q, v);
      FrameClear(m, m2, info, tabs, loose, pid, FrameAt(m, tabs[q].root, PageOfAddr(v)));
      ReadKept(m, m2, tabs[q].root, v);
    }
  }

  /** A frame that is not one of pid's tables is untouched by writes into those. */
  lemma FrameClear(m: Memory, m2: Memory, info: seq<PageInfo>, tabs: map<int, Tables>, loose: set<int>, pid: int,
                   f: int)
    requires KInv(m, info, tabs, loose) && pid in tabs && OnlyLeafTables(m, m2, tabs[pid].lay)
    requires 0 <= f < NPAGES ==> info[f] != PageInfo(pid, 1) || f * PAGE !in tabs[pid].lay
    ensures 0 <= f < NPAGES ==> SameBytes(m, m2, f * PAGE, f * PAGE + PAGE)
    ensures |m2| == |m|
  {
    assert ProcInv(m, info, pid, tabs[pid], loose);
    if 0 <= f < NPAGES {
      assert f * PAGE / PAGE == f;
      assert f * PAGE !in tabs[pid].lay;
      forall a | 0 <= a < |m| && f * PAGE <= a < f * PAGE + PAGE
        ensures m2[a] == m[a]
      {
        NotInTable(tabs[pid].lay, m, f, a);
      }
    }
  }

  lemma NotInTable(lay: Layout, m: Memory, f: int, a: int)
    requires TablePages(m, lay) && f * PAGE !in lay && f * PAGE <= a < f * PAGE + PAGE
    ensures !InLeafTable(lay, a)
  {
    forall t | t in lay && lay[t].0 == 3
      ensures !(t <= a < t + PAGE)
    {
      PagesApart(t, f * PAGE);
    }
  }

  /** pid's own user bytes lie outside its tables: an unchanged leaf reads the same byte. */
  lemma UserByteKept(m: Memory, m2: Memory, info: seq<PageInfo>, tabs: map<int, Tables>, loose: set<int>, pid: int,
                     v: int)
    requires KInv(m, info, tabs, loose) && pid in tabs && PROC_START_ADDR <= v < MEMSIZE_VIRTUAL
    requires OnlyLeafTables(m, m2, tabs[pid].lay) && Leaf(m2, tabs[pid].root, v) == Leaf(m, tabs[pid].root, v)
    ensures ReadVirtual(m2, tabs[pid].root, v) == ReadVirtual(m, tabs[pid].root, v)
  {
    hide KInv, Leaf, FrameAt, OnlyLeafTables, ReadVirtual;
    OwnedFrame(m, info, tabs, loose, pid, v);
    FrameClear(m, m2, info, tabs, loose, pid, FrameAt(m, tabs[pid].root, PageOfAddr(v)));
    ReadKept(m, m2, tabs[pid].root, v);
  }

  // ----- a write through the page table ------------------------------------------------

  /** Outside [va, hi) user addresses have the same leaf and read the same byte. */
  ghost predicate ElsewhereKept(m: Memory, m2: Memory, root: int, va: int, hi: int)
  {
    forall v :: PROC_START_ADDR <= v < MEMSIZE_VIRTUAL && !(va <= v < hi) ==>
      Leaf(m2, root, v) == Leaf(m, root, v) && ReadVirtual(m2, root, v) == ReadVirtual(m, root, v)
  }

  ghost predicate SameLeaves(m: Memory, m2: Memory, root: int)
  {
    forall v :: 0 <= v < VA_LIMIT ==> Leaf(m2, root, v) == Leaf(m, root, v)
  }

  lemma LeafSetElsewhere(m: Memory, m2: Memory, root: int, va: int, e: int, v: int)
    requires LeafSet(m, m2, root, va, e) && UserPage(va) && 0 <= v < VA_LIMIT && !(va <= v < va + PAGE)
    ensures Leaf(m2, root, v) == Leaf(m, root, v)
  {
    hide Leaf;
  }

  /** Mapping a fresh page leaves the process's other addresses alone. */
  lemma ElsewhereOne(m: Memory, m1: Memory, m2: Memory, tabs: map<int, Tables>, info2: seq<PageInfo>,
                     loose: set<int>, pid: int, addr: int, pa: int)
    requires pid in tabs && UserPage(addr)
    requires LeafSet(m, m2, tabs[pid].root, addr, pa + 7) && UserKept(m, m1, tabs[pid].root)
    requires KInv(m1, info2, tabs, loose) && OnlyLeafTables(m1, m2, tabs[pid].lay)
    ensures ElsewhereKept(m, m2, tabs[pid].root, addr, addr + PAGE)
  {
    hide FrameAt, Leaf, LeafSet, KInv, OnlyLeafTables, ReadVirtual;
    var root := tabs[pid].root;
    forall v | PROC_START_ADDR <= v < MEMSIZE_VIRTUAL && !(addr <= v < addr + PAGE)
      ensures Leaf(m2, root, v) == Leaf(m, root, v) && ReadVirtual(m2, root, v) == ReadVirtual(m, root, v)
    {
      LeafSetElsewhere(m, m2, root, addr, pa + 7, v);
      UserByteKept(m1, m2, info2, tabs, loose, pid, v);
    }
  }

  // ----- frames no process has ------------------------------------------------------------

  /** The frames the kernel holds and the reserved ones, whose owners are negative, keep their
      bytes and their entries. */
  ghost predicate HeldKept(m: Memory, info: seq<PageInfo>, m2: Memory, info2: seq<PageInfo>)
  {
    && |m2| == |m| && |info2| == |info|
    && forall f :: 0 <= f < |info| && info[f].owner < 0 ==>
         info2[f] == info[f] && SameBytes(m, m2, f * PAGE, f * PAGE + PAGE)
  }

  lemma NothingHeld(m: Memory, info: seq<PageInfo>)
    ensures HeldKept(m, info, m, info)
  {
  }

  lemma HeldTwice(m: Memory, info: seq<PageInfo>, m1: Memory, info1: seq<PageInfo>, m2: Memory, info2: seq<PageInfo>)
    requires HeldKept(m, info, m1, info1) && HeldKept(m1, info1, m2, info2)
    ensures HeldKept(m, info, m2, info2)
  {
    hide SameBytes;
    forall f | 0 <= f < |info| && info[f].owner < 0
      ensures SameBytes(m, m2, f * PAGE, f * PAGE + PAGE)
    {
      SameTwice(m, m1, m2, f * PAGE, f * PAGE + PAGE);
    }
  }

  lemma SameTwice(m: Memory, m1: Memory, m2: Memory, lo: int, hi: int)
    requires SameBytes(m, m1, lo, hi) && SameBytes(m1, m2, lo, hi)
    ensures SameBytes(m, m2, lo, hi)
  {
  }

  /** Writes into a process's leaf tables. */
  lemma HeldByTables(m: Memory, m2: Memory, info: seq<PageInfo>, tabs: map<int, Tables>, loose: set<int>, pid: int)
    requires KInv(m, info, tabs, loose) && pid in tabs && OnlyLeafTables(m, m2, tabs[pid].lay)
    ensures HeldKept(m, info, m2, info)
  {
    OwnerPositive(m, info, tabs, loose, pid);
    SizeOf(m, info, tabs, loose);
    assert |m2| == |m|;
    hide KInv, OnlyLeafTables, SameBytes;
    forall f | 0 <= f < |info| && info[f].owner < 0
      ensures SameBytes(m, m2, f * PAGE, f * PAGE + PAGE)
    {
      FrameClear(m, m2, info, tabs, loose, pid, f);
    }
  }

  /** Writes into one frame that is a process's or free, whatever becomes of its entry. */
  lemma HeldByFrame(m: Memory, info: seq<PageInfo>, m2: Memory, info2: seq<PageInfo>, f: int)
    requires 0 <= f < |info| == |info2| && 0 <= info[f].owner && SameOutside(m, m2, f * PAGE, f * PAGE + PAGE)
    requires forall g :: 0 <= g < |info| && g != f ==> info2[g] == info[g]
    ensures HeldKept(m, info, m2, info2)
  {
    hide SameBytes, SameOutside;
    assert |m2| == |m| by {
      OutsideSize(m, m2, f * PAGE, f * PAGE + PAGE);
    }
    forall g | 0 <= g < |info| && info[g].owner < 0
      ensures SameBytes(m, m2, g * PAGE, g * PAGE + PAGE)
    {
      FrameApart(m, m2, g, f);
    }
  }

  lemma OutsideSize(m: Memory, m2: Memory, lo: int, hi: int)
    requires SameOutside(m, m2, lo, hi)
    ensures |m2| == |m|
  {
  }

  /** A store into a frame its process has mapped. */
  lemma HeldByStore(m: Memory, info: seq<PageInfo>, tabs: map<int, Tables>, loose: set<int>, pid: int, v: int, b: Byte)
    requires KInv(m, info, tabs, loose) && pid in tabs && PROC_START_ADDR <= v < MEMSIZE_VIRTUAL
    requires FrameAt(m, tabs[pid].root, PageOfAddr(v)) >= 0
    ensures var a := PhysAddr(m, tabs[pid].root, v);
            0 <= a < |m| && HeldKept(m, info, m[a := b], info)
  {
    hide KInv, FrameAt;
    OwnedFrame(m, info, tabs, loose, pid, v);
    OwnerPositive(m, info, tabs, loose, pid);
    SizeOf(m, info, tabs, loose);
    ReadIs(m, tabs[pid].root, v);
    HeldByFrame(m, info, m[PhysAddr(m, tabs[pid].root, v) := b], info, FrameAt(m, tabs[pid].root, PageOfAddr(v)));
  }

  /** Where pid's mapped user address v lies in physical memory. */
  function PhysAddr(m: Memory, root: int, v: int): int
  {
    FrameAt(m, root, PageOfAddr(v)) * PAGE + v % PAGE
  }

  /** Distinct mapped user addresses of a process are distinct bytes. */
  lemma PhysDistinct(m: Memory, info: seq<PageInfo>, tabs: map<int, Tables>, loose: set<int>, pid: int, v: int, w: int)
    requires KInv(m, info, tabs, loose) && pid in tabs && v != w
    requires PROC_START_ADDR <= v < MEMSIZE_VIRTUAL && PROC_START_ADDR <= w < MEMSIZE_VIRTUAL
    requires FrameAt(m, tabs[pid].root, PageOfAddr(v)) >= 0 && FrameAt(m, tabs[pid].root, PageOfAddr(w)) >= 0
    ensures PhysAddr(m, tabs[pid].root, v) != PhysAddr(m, tabs[pid].root, w)
  {
    assert ProcInv(m, info, pid, tabs[pid], loose);
    OwnedFrame(m, info, tabs, loose, pid, v);
    OwnedFrame(m, info, tabs, loose, pid, w);
    var f, g := FrameAt(m, tabs[pid].root, PageOfAddr(v)), FrameAt(m, tabs[pid].root, PageOfAddr(w));
    hide FrameAt, Tree, Covers, LowIdentity, PagesOwned, TablesOwned;
    if f == g {
      assert PageOfAddr(v) == PageOfAddr(w);
    } else {
      assert f * PAGE + v % PAGE != g * PAGE + w % PAGE;
    }
  }

  lemma ReadIs(m: Memory, root: int, v: int)
    requires 0 <= v < VA_LIMIT && 0 <= FrameAt(m, root, PageOfAddr(v)) < NPAGES && |m| == MEMSIZE_PHYSICAL
    ensures 0 <= PhysAddr(m, root, v) < |m| && ReadVirtual(m, root, v) == Some(m[PhysAddr(m, root, v)])
  {
    PageStart(v);
    SamePageLeaf(m, root, v, PageOfAddr(v));
    LeafNat(m, root, v);
    hide Leaf, PageOfAddr;
    EntryByte(Leaf(m, root, v).value, v);
  }

  lemma EntryByte(e: nat, v: int)
    requires 0 <= FrameOf(e) < NPAGES
    ensures Present(e) && PteAddr(e) == FrameOf(e) * PAGE && 0 <= v % PAGE < PAGE
    ensures 0 <= FrameOf(e) * PAGE + v % PAGE < MEMSIZE_PHYSICAL
  {
    EntrySplit(e);
    hide PteAddr, Present;
  }

  /** pid's write of b at v is read back there, changes nothing else it reads, and is
      seen by no other process. */
  lemma StoreSeen(m: Memory, info: seq<PageInfo>, tabs: map<int, Tables>, loose: set<int>, pid: int, v: int, b: Byte)
    requires KInv(m, info, tabs, loose) && pid in tabs && PROC_START_ADDR <= v < MEMSIZE_VIRTUAL
    requires FrameAt(m, tabs[pid].root, PageOfAddr(v)) >= 0
    ensures var a := PhysAddr(m, tabs[pid].root, v);
            && 0 <= a < |m|
            && var m2 := m[a := b];
            && KInv(m2, info, tabs, loose)
            && (forall q, w :: q in tabs && 0 <= w < VA_LIMIT ==> Leaf(m2, tabs[q].root, w) == Leaf(m, tabs[q].root, w))
            && ReadVirtual(m2, tabs[pid].root, v) == Some(b)
            && (forall w :: PROC_START_ADDR <= w < MEMSIZE_VIRTUAL && w != v ==>
                  ReadVirtual(m2, tabs[pid].root, w) == ReadVirtual(m, tabs[pid].root, w))
            && OthersKept(m, m2, tabs, pid)
  {
    hide KInv, Leaf, FrameAt, ReadVirtual;
    SizeOf(m, info, tabs, loose);
    var root := tabs[pid].root;
    OwnedFrame(m, info, tabs, loose, pid, v);
    ReadIs(m, root, v);
    var a := PhysAddr(m, root, v);
    var m2 := m[a := b];
    WriteFrame(m, m2, info, tabs, loose, pid, PageOfAddr(v));
    FrameSame(m, m2, root, v);
    ReadIs(m2, root, v);
    forall w | PROC_START_ADDR <= w < MEMSIZE_VIRTUAL && w != v
      ensures ReadVirtual(m2, root, w) == ReadVirtual(m, root, w)
    {
      StoreElsewhere(m, m2, info, tabs, loose, pid, v, w);
    }
    forall q | q in tabs && q != pid
      ensures UserKept(m, m2, tabs[q].root)
    {
      forall w | PROC_START_ADDR <= w < MEMSIZE_VIRTUAL
        ensures ReadVirtual(m2, tabs[q].root, w) == ReadVirtual(m, tabs[q].root, w)
      {
        OwnedFrame(m, info, tabs, loose, q, w);
        FrameApart(m, m2, FrameAt(m, tabs[q].root, PageOfAddr(w)), FrameAt(m, root, PageOfAddr(v)));
        ReadKept(m, m2, tabs[q].root, w);
      }
    }
  }

  /** The same for several bytes within one page. */
  lemma {:induction false} SpliceSeen(m: Memory, info: seq<PageInfo>, tabs: map<int, Tables>, loose: set<int>, pid: int,
                                      v: int, bs: seq<Byte>)
    requires KInv(m, info, tabs, loose) && pid in tabs && PROC_START_ADDR <= v < MEMSIZE_VIRTUAL
    requires v % PAGE + |bs| <= PAGE && FrameAt(m, tabs[pid].root, PageOfAddr(v)) >= 0
    ensures var m2 := Splice(m, PhysAddr(m, tabs[pid].root, v), bs);
            && KInv(m2, info, tabs, loose) && SameLeaves(m, m2, tabs[pid].root)
            && (forall w :: PROC_START_ADDR <= w < MEMSIZE_VIRTUAL ==>
                  ReadVirtual(m2, tabs[pid].root, w) ==
                    if v <= w < v + |bs| then Some(bs[w - v]) else ReadVirtual(m, tabs[pid].root, w))
            && OthersKept(m, m2, tabs, pid) && HeldKept(m, info, m2, info)
    decreases |bs|
  {
    hide KInv, Leaf, FrameAt, ReadVirtual, HeldKept, UserKept, Splice;
    var root, a := tabs[pid].root, PhysAddr(m, tabs[pid].root, v);
    if bs == [] {
      SpliceNone(m, a);
      NothingHeld(m, info);
      NothingKept(m, tabs, pid);
    } else {
      StoreSeen(m, info, tabs, loose, pid, v, bs[0]);
      HeldByStore(m, info, tabs, loose, pid, v, bs[0]);
      SpliceOne(m, a, bs);
      var m1 := m[a := bs[0]];
      if |bs| == 1 {
        SpliceNone(m1, a + 1);
        return;
      }
      NextByte(m, m1, root, v);
      SpliceSeen(m1, info, tabs, loose, pid, v + 1, bs[1..]);
      var m2 := Splice(m1, a + 1, bs[1..]);
      OthersTwice(m, m1, m2, tabs, pid);
      HeldTwice(m, info, m1, info, m2, info);
    }
  }

  lemma NothingKept(m: Memory, tabs: map<int, Tables>, pid: int)
    ensures OthersKept(m, m, tabs, pid)
  {
    hide Leaf, ReadVirtual;
  }

  /** What the page table lets a process reach: the console page, and frames of its own that are no tables. */
  lemma UserReach(m: Memory, info: seq<PageInfo>, tabs: map<int, Tables>, loose: set<int>, pid: int, v: int)
    requires KInv(m, info, tabs, loose) && pid in tabs && 0 <= v < VA_LIMIT
    requires var o := Leaf(m, tabs[pid].root, v); o.Some? && Present(o.value) && User(o.value)
    ensures if PageOfAddr(v) == CONSOLE_ADDR then PteAddr(Leaf(m, tabs[pid].root, v).value) == CONSOLE_ADDR
            else
              && PROC_START_ADDR <= v < MEMSIZE_VIRTUAL
              && var f := FrameAt(m, tabs[pid].root, PageOfAddr(v));
              0 <= f < NPAGES && info[f] == PageInfo(pid, 1) && f * PAGE !in tabs[pid].lay
  {
    LeafNat(m, tabs[pid].root, v);
    SizeOf(m, info, tabs, loose);
    if v < PROC_START_ADDR {
      LowReach(m, info, tabs, loose, pid, v);
    } else if v < MEMSIZE_VIRTUAL {
      PageStart(v);
      SamePageLeaf(m, tabs[pid].root, v, PageOfAddr(v));
      OwnedFrame(m, info, tabs, loose, pid, v);
      hide KInv, Leaf, PteAddr;
    } else {
      assert ProcInv(m, info, pid, tabs[pid], loose);
      hide KInv, Leaf, Tree, LowIdentity, TablesOwned, PagesOwned, PagesDistinct;
      assert FrameAt(m, tabs[pid].root, v) == -1;
    }
  }

  lemma LowReach(m: Memory, info: seq<PageInfo>, tabs: map<int, Tables>, loose: set<int>, pid: int, v: int)
    requires KInv(m, info, tabs, loose) && pid in tabs && 0 <= v < PROC_START_ADDR
    requires var o := Leaf(m, tabs[pid].root, v); o.Some? && User(o.value)
    ensures PageOfAddr(v) == CONSOLE_ADDR == PteAddr(Leaf(m, tabs[pid].root, v).value)
  {
    assert ProcInv(m, info, pid, tabs[pid], loose);
    hide KInv, Leaf, Tree, Present, User, Writable, PteAddr, TablesOwned, PagesOwned, PagesDistinct, Covers;
  }

  /** The next address of a page is the next byte of its frame. */
  lemma NextByte(m: Memory, m1: Memory, root: int, v: int)
    requires v % PAGE + 2 <= PAGE && 0 <= v < MEMSIZE_VIRTUAL && SameLeaves(m, m1, root)
    ensures PageOfAddr(v + 1) == PageOfAddr(v) && (v + 1) % PAGE == v % PAGE + 1
    ensures FrameAt(m1, root, PageOfAddr(v + 1)) == FrameAt(m, root, PageOfAddr(v))
    ensures PhysAddr(m1, root, v + 1) == PhysAddr(m, root, v) + 1
  {
    hide Leaf;
    assert (v + 1) / PAGE == v / PAGE;
    FrameSame(m, m1, root, v);
  }

  lemma SizeOf(m: Memory, info: seq<PageInfo>, tabs: map<int, Tables>, loose: set<int>)
    requires KInv(m, info, tabs, loose)
    ensures |m| == MEMSIZE_PHYSICAL && |info| == NPAGES
  {
  }

  lemma FrameSame(m: Memory, m2: Memory, root: int, v: int)
    requires Leaf(m2, root, PageOfAddr(v)) == Leaf(m, root, PageOfAddr(v))
    ensures FrameAt(m2, root, PageOfAddr(v)) == FrameAt(m, root, PageOfAddr(v))
  {
    hide Leaf;
  }

  lemma StoreElsewhere(m: Memory, m2: Memory, info: seq<PageInfo>, tabs: map<int, Tables>, loose: set<int>,
                       pid: int, v: int, w: int)
    requires KInv(m, info, tabs, loose) && pid in tabs && w != v && |m| == |m2| == MEMSIZE_PHYSICAL
    requires PROC_START_ADDR <= v < MEMSIZE_VIRTUAL && PROC_START_ADDR <= w < MEMSIZE_VIRTUAL
    requires FrameAt(m, tabs[pid].root, PageOfAddr(v)) >= 0
    requires SameOutside(m, m2, PhysAddr(m, tabs[pid].root, v), PhysAddr(m, tabs[pid].root, v) + 1)
    requires forall u :: 0 <= u < VA_LIMIT ==> Leaf(m2, tabs[pid].root, u) == Leaf(m, tabs[pid].root, u)
    ensures ReadVirtual(m2, tabs[pid].root, w) == ReadVirtual(m, tabs[pid].root, w)
  {
    hide KInv, Leaf, FrameAt, ReadVirtual;
    var root := tabs[pid].root;
    FrameSame(m, m2, root, w);
    if FrameAt(m, root, PageOfAddr(w)) >= 0 {
      OwnedFrame(m, info, tabs, loose, pid, w);
      PhysDistinct(m, info, tabs, loose, pid, v, w);
      ReadIs(m, root, w);
      ReadIs(m2, root, w);
    } else {
      ReadKept(m, m2, root, w);
    }
  }
}
