/** Giving a process its page tables (process_config_tables, of which the repository
    has only the disassembly): where the tree shape comes from. */
module Setup {
  import opened Words
  import opened PageTables
  import opened VirtualMemory
  import opened KernelState
  import opened Isolation
  import opened KernelSpec
  import opened Kernel

  // ----- writes into frames nobody uses yet ------------------------------------------

  /** Only bytes of frames in s differ. */
  ghost predicate OnlyFrames(m: Memory, m2: Memory, s: set<int>)
  {
    |m2| == |m| && forall a :: 0 <= a < |m| && a / PAGE !in s ==> m2[a] == m[a]
  }

  lemma LooseWrite(m: Memory, m2: Memory, info: seq<PageInfo>, tabs: map<int, Tables>, loose: set<int>)
    requires KInv(m, info, tabs, loose) && OnlyFrames(m, m2, loose)
    ensures KInv(m2, info, tabs, loose)
    ensures forall q :: q in tabs ==> UserKept(m, m2, tabs[q].root)
  {
    assert |m2| == |m|;
    hide KInv, Leaf, FrameAt, ReadVirtual, OnlyFrames, ProcInv;
    forall q | q in tabs
      ensures ProcInv(m2, info, q, tabs[q], loose)
      ensures forall v :: UserPage(v) ==> FrameAt(m2, tabs[q].root, v) == FrameAt(m, tabs[q].root, v)
      ensures UserKept(m, m2, tabs[q].root)
    {
      LooseWriteProc(m, m2, info, tabs, loose, q);
    }
    LooseWriteAccounted(m, m2, info, tabs, loose);
  }

  lemma LooseWriteProc(m: Memory, m2: Memory, info: seq<PageInfo>, tabs: map<int, Tables>, loose: set<int>, q: int)
    requires KInv(m, info, tabs, loose) && OnlyFrames(m, m2, loose) && q in tabs
    ensures ProcInv(m2, info, q, tabs[q], loose)
    ensures forall v :: UserPage(v) ==> FrameAt(m2, tabs[q].root, v) == FrameAt(m, tabs[q].root, v)
    ensures UserKept(m, m2, tabs[q].root)
  {
    assert ProcInv(m, info, q, tabs[q], loose);
    forall p | p in tabs[q].lay
      ensures SameBytes(m, m2, p, p + PAGE)
    {
      TableNotLoose(m, info, tabs, loose, q, p);
      FrameNotWritten(m, m2, loose, p / PAGE);
    }
    hide KInv, Leaf, FrameAt, ReadVirtual, OnlyFrames, ProcInv;
    ProcFrame(m, m2, info, info, q, tabs[q], loose, loose);
    forall v | PROC_START_ADDR <= v < MEMSIZE_VIRTUAL
      ensures ReadVirtual(m2, tabs[q].root, v) == ReadVirtual(m, tabs[q].root, v)
    {
      OwnedFrame(m, info, tabs, loose, q, v);
      FrameNotWritten(m, m2, loose, FrameAt(m, tabs[q].root, PageOfAddr(v)));
      ReadKept(m, m2, tabs[q].root, v);
    }
  }

  lemma TableNotLoose(m: Memory, info: seq<PageInfo>, tabs: map<int, Tables>, loose: set<int>, q: int, p: int)
    requires KInv(m, info, tabs, loose) && q in tabs && p in tabs[q].lay
    ensures p % PAGE == 0 && p / PAGE !in loose
  {
    hide FrameAt, PagesOwned, PagesDistinct, Covers, LowIdentity, Accounted, FreeTogether, Entry;
    assert ProcInv(m, info, q, tabs[q], loose);
  }

  lemma FrameNotWritten(m: Memory, m2: Memory, s: set<int>, f: int)
    requires OnlyFrames(m, m2, s)
    ensures |m2| == |m| && (f !in s ==> SameBytes(m, m2, f * PAGE, f * PAGE + PAGE))
  {
    forall a | 0 <= a < |m| && f * PAGE <= a < f * PAGE + PAGE
      ensures a / PAGE == f
    {
    }
  }

  lemma LooseWriteAccounted(m: Memory, m2: Memory, info: seq<PageInfo>, tabs: map<int, Tables>, loose: set<int>)
    requires KInv(m, info, tabs, loose) && |m2| == |m|
    requires forall q :: q in tabs ==> ProcInv(m2, info, q, tabs[q], loose)
    requires forall q, v :: q in tabs && UserPage(v) ==> FrameAt(m2, tabs[q].root, v) == FrameAt(m, tabs[q].root, v)
    ensures KInv(m2, info, tabs, loose)
  {
    hide ProcInv, FrameAt;
    forall g | 0 <= g < |info| && info[g].owner > 0
      ensures g in loose || (info[g].owner in tabs && InUse(m2, g, tabs[info[g].owner]))
    {
      assert g !in loose ==> InUse(m, g, tabs[info[g].owner]);
    }
  }

  /** Giving back a frame that was handed out and not used. */
  lemma FreeLoose(m: Memory, info: seq<PageInfo>, tabs: map<int, Tables>, loose: set<int>, f: int)
    requires KInv(m, info, tabs, loose) && f in loose
    ensures 0 <= f < |info| && KInv(m, info[f := PageInfo(0, 0)], tabs, loose - {f})
  {
    hide FrameAt, Tree, Covers, LowIdentity, PagesDistinct;
    var info2 := info[f := PageInfo(0, 0)];
    forall q | q in tabs
      ensures ProcInv(m, info2, q, tabs[q], loose - {f})
    {
      assert ProcInv(m, info, q, tabs[q], loose);
      forall t | t in tabs[q].lay
        ensures info2[t / PAGE] == PageInfo(q, 1)
      {
        TableNotLoose(m, info, tabs, loose, q, t);
      }
    }
  }

  // ----- the tree ---------------------------------------------------------------------

  function SetupLayout(l1: int, l2: int, l3: int, l4: int, l5: int): Layout
  {
    map[l1 := (0, 0), l2 := (1, 0), l3 := (2, 0), l4 := (3, 0), l5 := (3, 1)]
  }

  predicate Distinct(l1: int, l2: int, l3: int, l4: int, l5: int)
  {
    && l1 != l2 && l1 != l3 && l1 != l4 && l1 != l5 && l2 != l3
    && l2 != l4 && l2 != l5 && l3 != l4 && l3 != l5 && l4 != l5
  }

  predicate PageAt(m: Memory, t: int)
  {
    t % PAGE == 0 && 0 < t && t + PAGE <= |m|
  }

  /** Entries from `from` on are zero. */
  ghost predicate ZeroFrom(m: Memory, t: int, from: int)
  {
    forall i :: from <= i < 512 ==> Entry(m, t, i) == 0
  }

  /** The links process_config_tables stores: one chain to two leaf tables. */
  ghost predicate Linked(m: Memory, l1: int, l2: int, l3: int, l4: int, l5: int)
  {
    && Entry(m, l1, 0) == l2 + 7 && ZeroFrom(m, l1, 1)
    && Entry(m, l2, 0) == l3 + 7 && ZeroFrom(m, l2, 1)
    && Entry(m, l3, 0) == l4 + 7 && Entry(m, l3, 1) == l5 + 7 && ZeroFrom(m, l3, 2)
    && ZeroFrom(m, l4, 0) && ZeroFrom(m, l5, 0)
  }

  lemma LinkEntry(t: int)
    requires t % PAGE == 0 && 0 < t
    ensures Present(t + 7) && Writable(t + 7) && User(t + 7) && PteAddr(t + 7) == t
  {
    Bits(t / 8, 1, 1, 1);
  }

  /** e is a good interior entry leading to `to` at the given place. */
  ghost predicate GoodLink(e: int, to: int, lay: Layout, level: int, prefix: int)
  {
    Present(e) && Writable(e) && User(e) && PteAddr(e) == to && to in lay && lay[to] == (level, prefix)
  }

  lemma SetupTree(m: Memory, l1: int, l2: int, l3: int, l4: int, l5: int)
    requires Distinct(l1, l2, l3, l4, l5)
    requires PageAt(m, l1) && PageAt(m, l2) && PageAt(m, l3) && PageAt(m, l4) && PageAt(m, l5)
    requires Linked(m, l1, l2, l3, l4, l5)
    ensures Tree(m, l1, SetupLayout(l1, l2, l3, l4, l5))
  {
    LinkEntry(l2);
    LinkEntry(l3);
    LinkEntry(l4);
    LinkEntry(l5);
    hide Entry, PteAddr, Present, Writable, User;
    var lay := SetupLayout(l1, l2, l3, l4, l5);
    assert lay[l1] == (0, 0) && lay[l2] == (1, 0) && lay[l3] == (2, 0) && lay[l4] == (3, 0) && lay[l5] == (3, 1);
    forall t, i | t in lay && lay[t].0 < 3 && 0 <= i < 512 && Entry(m, t, i) != 0
      ensures GoodLink(Entry(m, t, i), PteAddr(Entry(m, t, i)), lay, lay[t].0 + 1, lay[t].1 * 512 + i)
    {
      if t == l1 {
        assert i == 0;
      } else if t == l2 {
        assert i == 0;
      } else {
        assert t == l3 && (i == 0 || i == 1);
      }
    }
  }

  /** User and low addresses walk to the two leaf tables. */
  lemma SetupWalk(m: Memory, l1: int, l2: int, l3: int, l4: int, l5: int, v: int)
    requires PageAt(m, l1) && PageAt(m, l2) && PageAt(m, l3) && PageAt(m, l4) && PageAt(m, l5)
    requires Linked(m, l1, l2, l3, l4, l5) && 0 <= v < MEMSIZE_VIRTUAL
    ensures Walk(m, l1, v, 3) == Some(if v < 0x20_0000 then l4 else l5)
    ensures Leaf(m, l1, v) == Some(0)
  {
    LinkEntry(l2);
    LinkEntry(l3);
    LinkEntry(l4);
    LinkEntry(l5);
    LowIndices(v);
    hide Entry, PteAddr, Present, PageIndex;
    assert Walk(m, l1, v, 1) == Some(l2);
    assert Walk(m, l1, v, 2) == Some(l3);
  }

  /** Addresses above walk to an absent or zero entry. */
  lemma SetupAbove(m: Memory, l1: int, l2: int, l3: int, l4: int, l5: int, v: int)
    requires PageAt(m, l1) && PageAt(m, l2) && PageAt(m, l3) && PageAt(m, l4) && PageAt(m, l5)
    requires Linked(m, l1, l2, l3, l4, l5) && MEMSIZE_VIRTUAL <= v < VA_LIMIT
    ensures FrameAt(m, l1, v) == -1
  {
    LinkEntry(l2);
    LinkEntry(l3);
    LinkEntry(l4);
    LinkEntry(l5);
    ZeroAbsent();
    HighIndices(v);
    hide Entry, PteAddr, Present, PageIndex;
    var a, b, c, d := PageIndex(v, 0), PageIndex(v, 1), PageIndex(v, 2), PageIndex(v, 3);
    assert Walk(m, l1, v, 1) == if a == 0 then Some(l2) else None;
    assert Walk(m, l1, v, 2) == if a == 0 && b == 0 then Some(l3) else None;
    if a == 0 && b == 0 {
      assert Walk(m, l1, v, 3) == if c == 0 then Some(l4) else if c == 1 then Some(l5) else None;
      hide Walk;
    }
  }

  lemma HighIndices(v: int)
    ensures forall l: nat :: l <= 3 ==> 0 <= PageIndex(v, l) < 512
  {
    assert forall l: nat :: l <= 3 ==> 0 <= (v / Span(l)) % 512 < 512;
  }

  lemma LowIndices(v: int)
    requires 0 <= v < MEMSIZE_VIRTUAL
    ensures PageIndex(v, 0) == 0 && PageIndex(v, 1) == 0
    ensures PageIndex(v, 2) == (if v < 0x20_0000 then 0 else 1)
    ensures 0 <= PageIndex(v, 3) < 512
  {
  }

  // ----- building the five pages -----------------------------------------------------------

  lemma {:induction false} DecodeZeros(bs: seq<Byte>)
    requires forall i :: 0 <= i < |bs| ==> bs[i] == 0
    ensures Decode(bs) == 0
  {
    if bs != [] {
      DecodeZeros(bs[1..]);
    }
  }

  lemma ZeroPage(m: Memory, t: int)
    requires Filled(m, t, t + PAGE, 0)
    ensures ZeroFrom(m, t, 0)
  {
    forall i | 0 <= i < 512
      ensures Entry(m, t, i) == 0
    {
      DecodeZeros(m[t + 8 * i..t + 8 * i + 8]);
    }
  }

  /** A page of zeros stays one when bytes outside it change. */
  lemma ZeroKept(m: Memory, m2: Memory, t: int, from: int)
    requires ZeroFrom(m, t, from) && SameBytes(m, m2, t, t + PAGE) && 0 <= from
    ensures ZeroFrom(m2, t, from)
  {
    forall i | from <= i < 512
      ensures Entry(m2, t, i) == 0
    {
      EntryFrame(m, m2, t, i);
    }
  }

  /** Storing entry i of page t: that entry reads back, the others of every page stay. */
  lemma LinkWrite(m: Memory, t: int, i: int, e: int)
    requires PageAt(m, t) && 0 <= i < 512 && 0 <= e < U64
    ensures var m2 := WriteWord(m, t + 8 * i, e);
            && |m2| == |m| && SameOutside(m, m2, t, t + PAGE) && Entry(m2, t, i) == e
            && (forall u, j :: u % PAGE == 0 && 0 <= j < 512 && !(u == t && j == i) ==>
                  Entry(m2, u, j) == Entry(m, u, j))
  {
    WriteWordReads(m, t + 8 * i, e);
    hide WriteWord, ReadWord;
    var m2 := WriteWord(m, t + 8 * i, e);
    forall u, j | u % PAGE == 0 && 0 <= j < 512 && !(u == t && j == i)
      ensures Entry(m2, u, j) == Entry(m, u, j)
    {
      PagesApart(t, u);
    }
  }

  lemma FrameWrite(m: Memory, m2: Memory, t: int, s: set<int>)
    requires t % PAGE == 0 && t / PAGE in s && SameOutside(m, m2, t, t + PAGE)
    ensures OnlyFrames(m, m2, s)
  {
  }

  lemma FramesTwice(m: Memory, m1: Memory, m2: Memory, s: set<int>)
    requires OnlyFrames(m, m1, s) && OnlyFrames(m1, m2, s)
    ensures OnlyFrames(m, m2, s)
  {
  }

  /** memset of one table page. */
  method ZeroTable(ram: PhysicalMemory, t: int, ghost zeroed: set<int>, ghost s: set<int>)
    requires PageAt(ram.mem, t) && t !in zeroed && t / PAGE in s
    requires forall u :: u in zeroed ==> u % PAGE == 0 && ZeroFrom(ram.mem, u, 0)
    modifies ram
    ensures |ram.mem| == |old(ram.mem)| && OnlyFrames(old(ram.mem), ram.mem, s)
    ensures forall u :: u in zeroed + {t} ==> ZeroFrom(ram.mem, u, 0)
  {
    ram.Fill(t, 0, PAGE);
    hide Entry, ZeroFrom;
    FrameWrite(old(ram.mem), ram.mem, t, s);
    ZeroPage(ram.mem, t);
    forall u | u in zeroed
      ensures ZeroFrom(ram.mem, u, 0)
    {
      PagesApart(u, t);
      ZeroKept(old(ram.mem), ram.mem, u, 0);
    }
  }

  lemma {:induction false} LinkOne(m: Memory, t: int, i: int, e: int, s: set<int>)
    requires PageAt(m, t) && 0 <= i < 512 && 0 <= e < U64 && t / PAGE in s
    ensures var m2 := WriteWord(m, t + 8 * i, e);
            && |m2| == |m| && OnlyFrames(m, m2, s) && Entry(m2, t, i) == e
            && (forall u, j :: u % PAGE == 0 && 0 <= j < 512 && !(u == t && j == i) ==>
                  Entry(m2, u, j) == Entry(m, u, j))
  {
    LinkWrite(m, t, i, e);
    hide WriteWord, Entry;
    FrameWrite(m, WriteWord(m, t + 8 * i, e), t, s);
  }

  /** Zero the five pages and link them: the memory part of process_config_tables. */
  method BuildTables(ram: PhysicalMemory, l1: int, l2: int, l3: int, l4: int, l5: int, ghost s: set<int>)
    requires |ram.mem| == MEMSIZE_PHYSICAL && Distinct(l1, l2, l3, l4, l5)
    requires PageAt(ram.mem, l1) && PageAt(ram.mem, l2) && PageAt(ram.mem, l3) && PageAt(ram.mem, l4)
    requires PageAt(ram.mem, l5)
    requires s == {l1 / PAGE, l2 / PAGE, l3 / PAGE, l4 / PAGE, l5 / PAGE}
    modifies ram
    ensures OnlyFrames(old(ram.mem), ram.mem, s) && Linked(ram.mem, l1, l2, l3, l4, l5)
  {
    hide Entry, WriteWord, OnlyFrames, ZeroFrom;
    ghost var m := ram.mem;
    ZeroTable(ram, l1, {}, s);
    ghost var z := ram.mem;
    ZeroTable(ram, l2, {} + {l1}, s);
    FramesTwice(m, z, ram.mem, s);
    z := ram.mem;
    ZeroTable(ram, l3, {l1, l2}, s);
    FramesTwice(m, z, ram.mem, s);
    z := ram.mem;
    ZeroTable(ram, l4, {l1, l2, l3}, s);
    FramesTwice(m, z, ram.mem, s);
    z := ram.mem;
    ZeroTable(ram, l5, {l1, l2, l3, l4}, s);
    FramesTwice(m, z, ram.mem, s);
    z := ram.mem;
    LinkTables(ram, l1, l2, l3, l4, l5, s);
    FramesTwice(m, z, ram.mem, s);
  }

  /** The four links. */
  method LinkTables(ram: PhysicalMemory, l1: int, l2: int, l3: int, l4: int, l5: int, ghost s: set<int>)
    requires |ram.mem| == MEMSIZE_PHYSICAL && Distinct(l1, l2, l3, l4, l5)
    requires PageAt(ram.mem, l1) && PageAt(ram.mem, l2) && PageAt(ram.mem, l3) && PageAt(ram.mem, l4)
    requires PageAt(ram.mem, l5)
    requires l1 / PAGE in s && l2 / PAGE in s && l3 / PAGE in s
    requires forall t :: t in {l1, l2, l3, l4, l5} ==> ZeroFrom(ram.mem, t, 0)
    modifies ram
    ensures |ram.mem| == MEMSIZE_PHYSICAL && OnlyFrames(old(ram.mem), ram.mem, s) && Linked(ram.mem, l1, l2, l3, l4, l5)
  {
    hide Entry, WriteWord, OnlyFrames;
    ghost var m := ram.mem;
    LinkOne(m, l1, 0, l2 + 7, s);
    ram.mem := WriteWord(ram.mem, l1, l2 + 7);
    ghost var m1 := ram.mem;
    LinkOne(m1, l2, 0, l3 + 7, s);
    ram.mem := WriteWord(ram.mem, l2, l3 + 7);
    ghost var m2 := ram.mem;
    FramesTwice(m, m1, m2, s);
    LinkOne(m2, l3, 0, l4 + 7, s);
    ram.mem := WriteWord(ram.mem, l3, l4 + 7);
    ghost var m3 := ram.mem;
    FramesTwice(m, m2, m3, s);
    LinkOne(m3, l3, 1, l5 + 7, s);
    ram.mem := WriteWord(ram.mem, l3 + 8, l5 + 7);
    FramesTwice(m, m3, ram.mem, s);
    forall u, j | u % PAGE == 0 && 0 <= j < 512 && !(j == 0 && (u == l1 || u == l2 || u == l3)) && !(j == 1 && u == l3)
      ensures Entry(ram.mem, u, j) == Entry(m, u, j)
    {
      assert Entry(ram.mem, u, j) == Entry(m3, u, j) == Entry(m2, u, j) == Entry(m1, u, j);
    }
    assert Entry(ram.mem, l1, 0) == Entry(m3, l1, 0) == Entry(m2, l1, 0) == l2 + 7;
    assert Entry(ram.mem, l2, 0) == Entry(m3, l2, 0) == l3 + 7;
    LinksMade(m, ram.mem, l1, l2, l3, l4, l5);
  }

  lemma LinksMade(m: Memory, m4: Memory, l1: int, l2: int, l3: int, l4: int, l5: int)
    requires Distinct(l1, l2, l3, l4, l5)
    requires PageAt(m, l1) && PageAt(m, l2) && PageAt(m, l3) && PageAt(m, l4) && PageAt(m, l5)
    requires forall t :: t in {l1, l2, l3, l4, l5} ==> ZeroFrom(m, t, 0)
    requires Entry(m4, l1, 0) == l2 + 7 && Entry(m4, l2, 0) == l3 + 7
    requires Entry(m4, l3, 0) == l4 + 7 && Entry(m4, l3, 1) == l5 + 7
    requires forall u, j ::
               (u % PAGE == 0 && 0 <= j < 512 && !(j == 0 && (u == l1 || u == l2 || u == l3)) && !(j == 1 && u == l3))
               ==> Entry(m4, u, j) == Entry(m, u, j)
    ensures Linked(m4, l1, l2, l3, l4, l5)
  {
    hide Entry;
    assert ZeroFrom(m, l1, 0) && ZeroFrom(m, l2, 0) && ZeroFrom(m, l3, 0) && ZeroFrom(m, l4, 0) && ZeroFrom(m, l5, 0);
  }

  // ----- the new process -------------------------------------------------------------------

  /** A finished, accounted-for set of tables turns its loose frames into a process. */
  lemma AddProcess(m: Memory, info: seq<PageInfo>, tabs: map<int, Tables>, loose: set<int>, pid: int, t: Tables)
    requires KInv(m, info, tabs, loose) && pid !in tabs && 0 < pid
    requires Tree(m, t.root, t.lay) && Covers(m, t.root) && LowIdentity(m, t.root)
    requires forall v :: UserPage(v) ==> FrameAt(m, t.root, v) == -1
    requires forall p :: p in t.lay ==> p / PAGE in loose && info[p / PAGE].owner == pid
    requires forall f :: f in loose ==> f * PAGE in t.lay
    ensures KInv(m, info, tabs[pid := t], {})
  {
    hide FrameAt, Tree, Covers, LowIdentity, ProcInv, Accounted, LooseOwned, InUse;
    var tabs2 := tabs[pid := t];
    forall q | q in tabs2
      ensures ProcInv(m, info, q, tabs2[q], {})
    {
      if q == pid {
        NewProc(m, info, tabs, loose, pid, t);
      } else {
        NoneLooseProc(m, info, q, tabs[q], loose);
      }
    }
    AddAccounted(m, info, tabs, loose, pid, t);
    NoneLoose(info, tabs2);
  }

  lemma NewProc(m: Memory, info: seq<PageInfo>, tabs: map<int, Tables>, loose: set<int>, pid: int, t: Tables)
    requires LooseOwned(info, tabs, loose) && 0 < pid
    requires Tree(m, t.root, t.lay) && Covers(m, t.root) && LowIdentity(m, t.root)
    requires forall v :: UserPage(v) ==> FrameAt(m, t.root, v) == -1
    requires forall p :: p in t.lay ==> p / PAGE in loose && info[p / PAGE].owner == pid
    ensures ProcInv(m, info, pid, t, {})
  {
    hide FrameAt, Tree, Covers, LowIdentity;
  }

  lemma NoneLooseProc(m: Memory, info: seq<PageInfo>, q: int, t: Tables, loose: set<int>)
    requires ProcInv(m, info, q, t, loose)
    ensures ProcInv(m, info, q, t, {})
  {
    hide FrameAt, Tree, Covers, LowIdentity;
  }

  lemma AddAccounted(m: Memory, info: seq<PageInfo>, tabs: map<int, Tables>, loose: set<int>, pid: int, t: Tables)
    requires Accounted(m, info, tabs, loose) && LooseOwned(info, tabs, loose) && pid !in tabs
    requires forall p :: p in t.lay ==> p / PAGE in loose && info[p / PAGE].owner == pid
    requires forall f :: f in loose ==> f * PAGE in t.lay
    ensures Accounted(m, info, tabs[pid := t], {})
  {
    hide FrameAt;
    var tabs2 := tabs[pid := t];
    forall f | 0 <= f < |info| && info[f].owner > 0
      ensures info[f].refcount == 1 && info[f].owner in tabs2 && InUse(m, f, tabs2[info[f].owner])
    {
      if f in loose {
        assert f * PAGE in t.lay && f * PAGE / PAGE == f;
      } else {
        assert InUse(m, f, tabs[info[f].owner]);
        NotPid(info, tabs, loose, f, pid, m);
      }
    }
  }

  lemma NotPid(info: seq<PageInfo>, tabs: map<int, Tables>, loose: set<int>, f: int, pid: int, m: Memory)
    requires Accounted(m, info, tabs, loose) && pid !in tabs && 0 <= f < |info| && info[f].owner > 0 && f !in loose
    ensures info[f].owner != pid
  {
  }

  /** Low memory identity mapped with P|W, then the console page with P|W|U; nothing else is mapped. */
  ghost predicate LowMapped(m: Memory, root: int)
  {
    NothingAbove(m, root) &&
    forall v :: 0 <= v < MEMSIZE_VIRTUAL ==>
      Leaf(m, root, v) ==
        if v < PROC_START_ADDR
        then Some(PageOfAddr(v) + (if PageOfAddr(v) == CONSOLE_ADDR then 7 else 3)) else Some(0)
  }

  lemma LowMappedMeans(m: Memory, root: int)
    requires LowMapped(m, root)
    ensures Covers(m, root) && LowIdentity(m, root)
    ensures forall v :: UserPage(v) ==> FrameAt(m, root, v) == -1
  {
    hide Leaf;
    forall v | 0 <= v < PROC_START_ADDR
      ensures Present(PageOfAddr(v) + 3) && Writable(PageOfAddr(v) + 3) && PteAddr(PageOfAddr(v) + 3) == PageOfAddr(v)
      ensures Present(PageOfAddr(v) + 7) && Writable(PageOfAddr(v) + 7) && PteAddr(PageOfAddr(v) + 7) == PageOfAddr(v)
      ensures !User(PageOfAddr(v) + 3) && User(PageOfAddr(v) + 7)
    {
      PageFlags(PageOfAddr(v));
    }
    hide Present, Writable, User, PteAddr, PageOfAddr;
    assert forall v :: 0 <= v < MEMSIZE_VIRTUAL ==> PageOfAddr(v) == v - v % PAGE by {
      PageOfAddrIs();
    }
    assert !Present(0) by { ZeroAbsent(); }
  }

  lemma PageOfAddrIs()
    ensures forall v :: 0 <= v < MEMSIZE_VIRTUAL ==> PageOfAddr(v) == v - v % PAGE
  {
  }

  lemma ZeroAbsent()
    ensures !Present(0)
  {
  }

  lemma PageFlags(p: int)
    requires p % PAGE == 0 && 0 <= p
    ensures Present(p + 3) && Writable(p + 3) && PteAddr(p + 3) == p && !User(p + 3)
    ensures Present(p + 7) && Writable(p + 7) && PteAddr(p + 7) == p && User(p + 7)
  {
    var f := p / PAGE;
    assert p == 8 * (512 * f);
    FrameTimes512(f);
    Bits(512 * f, 0, 1, 1);
    Bits(512 * f, 1, 1, 1);
    hide Present, Writable, User, PteAddr;
  }

  lemma FrameTimes512(f: int)
    ensures 512 * f / 512 == f
  {
  }

  /** The two mappings over fresh tables give the low half of the page map. */
  lemma TwoMappings(m: Memory, m1: Memory, m2: Memory, root: int)
    requires forall v :: 0 <= v < MEMSIZE_VIRTUAL ==> Leaf(m, root, v) == Some(0)
    requires MappedRange(m, m1, root, 0, PROC_START_ADDR / PAGE, 0, 3)
    requires MappedRange(m1, m2, root, CONSOLE_ADDR, 1, CONSOLE_ADDR, 7) && NothingAbove(m, root)
    ensures LowMapped(m2, root)
  {
    AboveKept(m, m1, root, 0, PROC_START_ADDR / PAGE, 0, 3);
    AboveKept(m1, m2, root, CONSOLE_ADDR, 1, CONSOLE_ADDR, 7);
    hide Leaf;
    forall v | 0 <= v < MEMSIZE_VIRTUAL
      ensures Leaf(m2, root, v) ==
        if v < PROC_START_ADDR
        then Some(PageOfAddr(v) + (if PageOfAddr(v) == CONSOLE_ADDR then 7 else 3)) else Some(0)
    {
      LowEntry(v);
    }
  }

  /** A mapping within the virtual memory maps nothing above it. */
  lemma AboveKept(m: Memory, m2: Memory, root: int, va: int, n: nat, pa: int, perm: int)
    requires NothingAbove(m, root) && MappedRange(m, m2, root, va, n, pa, perm)
    requires 0 <= va && va / PAGE + n <= MEMSIZE_VIRTUAL / PAGE
    ensures NothingAbove(m2, root)
  {
    hide Leaf, NewEntry, FrameOf;
    forall v | MEMSIZE_VIRTUAL <= v < VA_LIMIT
      ensures FrameAt(m2, root, v) == FrameAt(m, root, v)
    {
      assert MEMSIZE_VIRTUAL / PAGE <= v / PAGE;
    }
  }

  lemma LowEntry(v: int)
    requires 0 <= v < MEMSIZE_VIRTUAL
    ensures NewEntry(0, 3, v / PAGE) == PageOfAddr(v) + 3 && NewEntry(CONSOLE_ADDR, 7, 0) == CONSOLE_ADDR + 7
    ensures v < PROC_START_ADDR <==> v / PAGE < PROC_START_ADDR / PAGE
    ensures v / PAGE == CONSOLE_ADDR / PAGE <==> PageOfAddr(v) == CONSOLE_ADDR
  {
    assert Present(3) && Present(7);
  }

  /** Give back a frame taken by a failed set-up. */
  method Release(k: System, pa: int, ghost loose: set<int>)
    requires k.ValidWith(loose) && (pa == 0 || (pa % PAGE == 0 && 0 < pa && pa / PAGE in loose))
    modifies k`info
    ensures k.ValidWith(loose - Taken(pa))
    ensures |k.info| == |old(k.info)|
    ensures forall f :: 0 <= f < |k.info| ==> k.info[f] == if f in Taken(pa) then PageInfo(0, 0) else old(k.info)[f]
  {
    hide KInv;
    if pa != 0 {
      FreeLoose(k.phys.mem, k.info, k.tabs, loose, pa / PAGE);
      k.info := k.info[pa / PAGE := PageInfo(PO_FREE, 0)];
    } else {
      assert loose - Taken(pa) == loose;
    }
  }

  /** The frame an allocation took, none for NULL. */
  function Taken(pa: int): set<int>
  {
    if pa == 0 then {} else {pa / PAGE}
  }

  /** info2 is info with the frames of s, free before, handed to pid. */
  ghost predicate HandedOut(info: seq<PageInfo>, info2: seq<PageInfo>, s: set<int>, pid: int)
  {
    |info2| == |info| && (forall f :: f in s ==> 0 <= f < |info| && info[f] == PageInfo(0, 0))
    && forall f :: 0 <= f < |info| ==> info2[f] == if f in s then PageInfo(pid, 1) else info[f]
  }

  lemma NoneFree(info0: seq<PageInfo>, info: seq<PageInfo>, loose: set<int>, pid: int)
    requires HandedOut(info0, info, loose, pid) && 1 <= |info| && FirstFree(info, 1) == |info|
    ensures FreeFrames(info0) <= loose
  {
    forall f | f in FreeFrames(info0)
      ensures f in loose
    {
      assert info[f] != PageInfo(0, 0);
    }
  }

  /** Five pages were had exactly if five frames were free. */
  lemma FiveOrFewer(info: seq<PageInfo>, info2: seq<PageInfo>, m: Memory, l1: int, l2: int, l3: int, l4: int, l5: int,
                    pid: int)
    requires var loose := Taken(l1) + Taken(l2) + Taken(l3) + Taken(l4) + Taken(l5);
             && HandedOut(info, info2, loose, pid)
             && (l1 == 0 || l2 == 0 || l3 == 0 || l4 == 0 || l5 == 0 ==> FreeFrames(info) <= loose)
    requires PageOrNull(m, l1) && PageOrNull(m, l2) && PageOrNull(m, l3) && PageOrNull(m, l4) && PageOrNull(m, l5)
    requires Taken(l1) !! Taken(l2) !! Taken(l3) !! Taken(l4) !! Taken(l5)
    ensures l1 != 0 && l2 != 0 && l3 != 0 && l4 != 0 && l5 != 0 <==> TABLE_PAGES <= |FreeFrames(info)|
  {
    var loose := Taken(l1) + Taken(l2) + Taken(l3) + Taken(l4) + Taken(l5);
    TakenSizes(l1, l2, l3, l4, l5);
    if l1 == 0 || l2 == 0 || l3 == 0 || l4 == 0 || l5 == 0 {
      SubsetSize(FreeFrames(info), loose);
    } else {
      TakenFree(info, info2, m, l1, l2, l3, l4, l5, pid);
      SubsetSize(loose, FreeFrames(info));
    }
  }

  /** Five pages had are five free frames fewer. */
  lemma FiveFewer(info: seq<PageInfo>, info2: seq<PageInfo>, m: Memory, l1: int, l2: int, l3: int, l4: int, l5: int,
                  pid: int)
    requires 0 < pid && HandedOut(info, info2, Taken(l1) + Taken(l2) + Taken(l3) + Taken(l4) + Taken(l5), pid)
    requires PageOrNull(m, l1) && PageOrNull(m, l2) && PageOrNull(m, l3) && PageOrNull(m, l4) && PageOrNull(m, l5)
    requires Taken(l1) !! Taken(l2) !! Taken(l3) !! Taken(l4) !! Taken(l5)
    requires l1 != 0 && l2 != 0 && l3 != 0 && l4 != 0 && l5 != 0
    ensures |FreeFrames(info2)| == |FreeFrames(info)| - TABLE_PAGES
  {
    var loose := Taken(l1) + Taken(l2) + Taken(l3) + Taken(l4) + Taken(l5);
    TakenSizes(l1, l2, l3, l4, l5);
    TakenFree(info, info2, m, l1, l2, l3, l4, l5, pid);
    assert FreeFrames(info2) == FreeFrames(info) - loose;
    SubsetRest(loose, FreeFrames(info));
  }

  lemma SubsetRest(a: set<int>, b: set<int>)
    requires a <= b
    ensures |b - a| == |b| - |a|
  {
    assert b == a + (b - a) && a !! (b - a);
  }

  lemma TakenFree(info: seq<PageInfo>, info2: seq<PageInfo>, m: Memory, l1: int, l2: int, l3: int, l4: int, l5: int,
                  pid: int)
    requires HandedOut(info, info2, Taken(l1) + Taken(l2) + Taken(l3) + Taken(l4) + Taken(l5), pid)
    requires PageOrNull(m, l1) && PageOrNull(m, l2) && PageOrNull(m, l3) && PageOrNull(m, l4) && PageOrNull(m, l5)
    ensures Taken(l1) + Taken(l2) + Taken(l3) + Taken(l4) + Taken(l5) <= FreeFrames(info)
  {
    TakenPositive(m, l1);
    TakenPositive(m, l2);
    TakenPositive(m, l3);
    TakenPositive(m, l4);
    TakenPositive(m, l5);
  }

  lemma TakenPositive(m: Memory, t: int)
    requires PageOrNull(m, t)
    ensures forall f :: f in Taken(t) ==> 1 <= f
  {
  }

  lemma TakenSizes(l1: int, l2: int, l3: int, l4: int, l5: int)
    requires Taken(l1) !! Taken(l2) !! Taken(l3) !! Taken(l4) !! Taken(l5)
    ensures var n := |Taken(l1) + Taken(l2) + Taken(l3) + Taken(l4) + Taken(l5)|;
            n <= 5 && (n == 5 <==> l1 != 0 && l2 != 0 && l3 != 0 && l4 != 0 && l5 != 0)
  {
    var a := Taken(l1) + Taken(l2);
    var b := a + Taken(l3);
    var c := b + Taken(l4);
    assert |a| == |Taken(l1)| + |Taken(l2)|;
    assert |b| == |a| + |Taken(l3)|;
    assert |c| == |b| + |Taken(l4)|;
    assert |c + Taken(l5)| == |c| + |Taken(l5)|;
  }

  lemma SubsetSize(a: set<int>, b: set<int>)
    requires a <= b
    ensures |a| <= |b|
  {
    assert b == a + (b - a) && a !! (b - a);
  }

  predicate PageOrNull(m: Memory, t: int)
  {
    t == 0 || PageAt(m, t)
  }

  /** One palloc of the set-up sequence. */
  method Take(k: System, pid: int, ghost loose: set<int>, ghost info0: seq<PageInfo>) returns (pa: int)
    requires k.ValidWith(loose) && 0 < pid && HandedOut(info0, k.info, loose, pid)
    modifies k.phys, k`info
    ensures pa == 0 || (PageAt(k.phys.mem, pa) && pa / PAGE !in loose)
    ensures pa == 0 ==> FreeFrames(info0) <= loose
    ensures k.ValidWith(loose + Taken(pa)) && HandedOut(info0, k.info, loose + Taken(pa), pid)
    ensures forall q :: q in k.tabs ==> UserKept(old(k.phys.mem), k.phys.mem, k.tabs[q].root)
    ensures HeldKept(old(k.phys.mem), old(k.info), k.phys.mem, k.info)
  {
    hide KInv, UserKept, FirstFree, HeldKept;
    ghost var i := k.info;
    pa := k.Palloc(pid, loose);
    assert pa == 0 ==> loose + Taken(pa) == loose;
    if pa == 0 {
      NoneFree(info0, i, loose, pid);
    }
  }

  ghost predicate AllKept(m: Memory, m2: Memory, tabs: map<int, Tables>)
  {
    forall q :: q in tabs ==> UserKept(m, m2, tabs[q].root)
  }

  lemma AllTwice(m: Memory, m1: Memory, m2: Memory, tabs: map<int, Tables>)
    requires AllKept(m, m1, tabs) && AllKept(m1, m2, tabs)
    ensures AllKept(m, m2, tabs)
  {
    hide Leaf, ReadVirtual;
    forall q | q in tabs
      ensures UserKept(m, m2, tabs[q].root)
    {
      assert UserKept(m, m1, tabs[q].root) && UserKept(m1, m2, tabs[q].root);
    }
  }

  /** Five distinct frames, or fewer when memory runs out. */
  method TakeFive(k: System, pid: int) returns (l1: int, l2: int, l3: int, l4: int, l5: int, ghost loose: set<int>)
    requires k.Valid() && 0 < pid
    modifies k.phys, k`info
    ensures loose == Taken(l1) + Taken(l2) + Taken(l3) + Taken(l4) + Taken(l5)
    ensures k.ValidWith(loose) && HandedOut(old(k.info), k.info, loose, pid)
    ensures AllKept(old(k.phys.mem), k.phys.mem, k.tabs)
    ensures HeldKept(old(k.phys.mem), old(k.info), k.phys.mem, k.info)
    ensures PageOrNull(k.phys.mem, l1) && PageOrNull(k.phys.mem, l2) && PageOrNull(k.phys.mem, l3)
    ensures PageOrNull(k.phys.mem, l4) && PageOrNull(k.phys.mem, l5)
    ensures Taken(l1) !! Taken(l2) !! Taken(l3) !! Taken(l4) !! Taken(l5)
    ensures l1 == 0 || l2 == 0 || l3 == 0 || l4 == 0 || l5 == 0 ==> FreeFrames(old(k.info)) <= loose
  {
    hide KInv, UserKept, FreeFrames, HeldKept;
    ghost var m, i0 := k.phys.mem, k.info;
    l1 := Take(k, pid, {}, i0);
    loose := {} + Taken(l1);
    ghost var z2, j2 := k.phys.mem, k.info;
    l2 := Take(k, pid, loose, i0);
    loose := loose + Taken(l2);
    AllTwice(m, z2, k.phys.mem, k.tabs);
    HeldTwice(m, i0, z2, j2, k.phys.mem, k.info);
    ghost var z3, j3 := k.phys.mem, k.info;
    l3 := Take(k, pid, loose, i0);
    loose := loose + Taken(l3);
    AllTwice(m, z3, k.phys.mem, k.tabs);
    HeldTwice(m, i0, z3, j3, k.phys.mem, k.info);
    ghost var z4, j4 := k.phys.mem, k.info;
    l4 := Take(k, pid, loose, i0);
    loose := loose + Taken(l4);
    AllTwice(m, z4, k.phys.mem, k.tabs);
    HeldTwice(m, i0, z4, j4, k.phys.mem, k.info);
    ghost var z5, j5 := k.phys.mem, k.info;
    l5 := Take(k, pid, loose, i0);
    loose := loose + Taken(l5);
    AllTwice(m, z5, k.phys.mem, k.tabs);
    HeldTwice(m, i0, z5, j5, k.phys.mem, k.info);
    assert {} + Taken(l1) == Taken(l1);
  }

  method ReleaseFive(k: System, l1: int, l2: int, l3: int, l4: int, l5: int, ghost pid: int, ghost i0: seq<PageInfo>)
    requires k.ValidWith(Taken(l1) + Taken(l2) + Taken(l3) + Taken(l4) + Taken(l5))
    requires HandedOut(i0, k.info, Taken(l1) + Taken(l2) + Taken(l3) + Taken(l4) + Taken(l5), pid)
    requires PageOrNull(k.phys.mem, l1) && PageOrNull(k.phys.mem, l2) && PageOrNull(k.phys.mem, l3)
    requires PageOrNull(k.phys.mem, l4) && PageOrNull(k.phys.mem, l5)
    requires Taken(l1) !! Taken(l2) !! Taken(l3) !! Taken(l4) !! Taken(l5)
    modifies k`info
    ensures k.Valid() && k.info == i0
  {
    hide KInv;
    ghost var s := Taken(l1) + Taken(l2) + Taken(l3) + Taken(l4) + Taken(l5);
    Release(k, l1, s);
    Release(k, l2, s - Taken(l1));
    Release(k, l3, s - Taken(l1) - Taken(l2));
    Release(k, l4, s - Taken(l1) - Taken(l2) - Taken(l3));
    Release(k, l5, s - Taken(l1) - Taken(l2) - Taken(l3) - Taken(l4));
    assert s - Taken(l1) - Taken(l2) - Taken(l3) - Taken(l4) - Taken(l5) == {};
  }

  /** Fill in and link the five pages and map low memory. */
  method MapLow(ram: PhysicalMemory, l1: int, l2: int, l3: int, l4: int, l5: int, ghost loose: set<int>)
    requires |ram.mem| == MEMSIZE_PHYSICAL && Distinct(l1, l2, l3, l4, l5)
    requires PageAt(ram.mem, l1) && PageAt(ram.mem, l2) && PageAt(ram.mem, l3) && PageAt(ram.mem, l4)
    requires PageAt(ram.mem, l5)
    requires loose == {l1 / PAGE, l2 / PAGE, l3 / PAGE, l4 / PAGE, l5 / PAGE}
    modifies ram
    ensures OnlyFrames(old(ram.mem), ram.mem, loose) && LowMapped(ram.mem, l1)
    ensures Tree(ram.mem, l1, SetupLayout(l1, l2, l3, l4, l5))
  {
    hide Leaf, Walk, Tree, MappedRange, WalksKept, OnlyLeafTables, OnlyFrames, Linked, LowMapped, SetupLayout;
    hide NothingAbove;
    ghost var m, lay := ram.mem, SetupLayout(l1, l2, l3, l4, l5);
    BuildTables(ram, l1, l2, l3, l4, l5, loose);
    ghost var m1 := ram.mem;
    SizeKept(m, m1, loose);
    SetupTree(m1, l1, l2, l3, l4, l5);
    FreshLeaves(m1, l1, l2, l3, l4, l5);
    var r;
    ghost var done;
    r, done := ram.VirtualMemoryMap(l1, 0, 0, PROC_START_ADDR, 3, lay);
    ghost var m2 := ram.mem;
    MapSucceeds(m1, l1, 0, done, r);
    SetupFrames(m1, m2, l1, l2, l3, l4, l5, loose);
    StillThere(m1, m2, l1);
    r, done := ram.VirtualMemoryMap(l1, CONSOLE_ADDR, CONSOLE_ADDR, PAGE, 7, lay);
    MapSucceeds(m2, l1, CONSOLE_ADDR, done, r);
    SetupFrames(m2, ram.mem, l1, l2, l3, l4, l5, loose);
    TwoMappings(m1, m2, ram.mem, l1);
    FramesTwice(m, m1, m2, loose);
    FramesTwice(m, m2, ram.mem, loose);
  }

  /** virtual_memory_init: the kernel's own tables, five consecutive pages from root on, map all of
      physical memory to itself, for the user too. The checking loop's asserts hold. */
  method VirtualMemoryInit(ram: PhysicalMemory, root: int)
    requires |ram.mem| == MEMSIZE_PHYSICAL && root % PAGE == 0 && 0 < root && root + 5 * PAGE <= MEMSIZE_PHYSICAL
    modifies ram
    ensures |ram.mem| == MEMSIZE_PHYSICAL && SameOutside(old(ram.mem), ram.mem, root, root + 5 * PAGE)
    ensures Tree(ram.mem, root, SetupLayout(root, root + PAGE, root + 2 * PAGE, root + 3 * PAGE, root + 4 * PAGE))
    ensures forall va :: 0 <= va < MEMSIZE_PHYSICAL ==>
              Lookup(ram.mem, root, va) == Mapping(va / PAGE, va, 7)
  {
    hide Tree, SetupLayout, Lookup, SameOutside, Answers;
    MapPhysical(ram, root);
    ghost var m := ram.mem;
    var addr := 0;
    while addr < MEMSIZE_PHYSICAL
      invariant 0 <= addr && addr % PAGE == 0 && ram.mem == m
    {
      var vmap := ram.VirtualMemoryLookup(root, addr);
      assert vmap.pa == addr;
      assert vmap.perm == 7;
      addr := addr + PAGE;
    }
  }

  /** Link the five pages and fill in their leaves. */
  method MapPhysical(ram: PhysicalMemory, root: int)
    requires |ram.mem| == MEMSIZE_PHYSICAL && root % PAGE == 0 && 0 < root && root + 5 * PAGE <= MEMSIZE_PHYSICAL
    modifies ram
    ensures |ram.mem| == MEMSIZE_PHYSICAL && SameOutside(old(ram.mem), ram.mem, root, root + 5 * PAGE)
    ensures Tree(ram.mem, root, SetupLayout(root, root + PAGE, root + 2 * PAGE, root + 3 * PAGE, root + 4 * PAGE))
    ensures forall va :: 0 <= va < MEMSIZE_PHYSICAL ==>
              Lookup(ram.mem, root, va) == Mapping(va / PAGE, va, 7)
  {
    hide Leaf, Walk, Tree, MappedRange, WalksKept, OnlyLeafTables, OnlyFrames, Linked, SetupLayout, Follow, MappingOf;
    hide Lookup, SameOutside;
    var l2, l3, l4, l5 := root + PAGE, root + 2 * PAGE, root + 3 * PAGE, root + 4 * PAGE;
    ghost var s := {root / PAGE, l2 / PAGE, l3 / PAGE, l4 / PAGE, l5 / PAGE};
    ghost var lay := SetupLayout(root, l2, l3, l4, l5);
    ghost var m := ram.mem;
    BuildTables(ram, root, l2, l3, l4, l5, s);
    ghost var m1 := ram.mem;
    SizeKept(m, m1, s);
    SetupTree(m1, root, l2, l3, l4, l5);
    FreshLeaves(m1, root, l2, l3, l4, l5);
    var r;
    ghost var done;
    r, done := ram.VirtualMemoryMap(root, 0, 0, MEMSIZE_PHYSICAL, 7, lay);
    MapSucceeds(m1, root, 0, done, r);
    IdentityLookups(m1, ram.mem, root, lay);
    SetupFrames(m1, ram.mem, root, l2, l3, l4, l5, s);
    FramesTwice(m, m1, ram.mem, s);
    FivePages(m, ram.mem, root, s);
  }

  lemma FivePages(m: Memory, m2: Memory, root: int, s: set<int>)
    requires root % PAGE == 0 && OnlyFrames(m, m2, s)
    requires s == {root / PAGE, (root + PAGE) / PAGE, (root + 2 * PAGE) / PAGE, (root + 3 * PAGE) / PAGE,
                   (root + 4 * PAGE) / PAGE}
    ensures SameOutside(m, m2, root, root + 5 * PAGE)
  {
    forall a | 0 <= a < |m| && !(root <= a < root + 5 * PAGE)
      ensures a / PAGE !in s
    {
      var q := root / PAGE;
      assert root == q * PAGE;
    }
  }

  lemma IdentityLookups(m1: Memory, m2: Memory, root: int, lay: Layout)
    requires Tree(m2, root, lay) && forall v :: 0 <= v < MEMSIZE_VIRTUAL ==> Leaf(m1, root, v) == Some(0)
    requires MappedRange(m1, m2, root, 0, MEMSIZE_PHYSICAL / PAGE, 0, 7)
    ensures forall va :: 0 <= va < MEMSIZE_PHYSICAL ==>
              Lookup(m2, root, va) == Mapping(va / PAGE, va, 7)
  {
    hide Leaf, Tree, Follow, MappingOf, NewEntry;
    forall va | 0 <= va < MEMSIZE_PHYSICAL
      ensures Lookup(m2, root, va) == Mapping(va / PAGE, va, 7)
    {
      LookupTranslates(m2, root, lay, va);
      IdentityEntry(va);
    }
  }

  lemma IdentityEntry(va: int)
    requires 0 <= va < MEMSIZE_PHYSICAL
    ensures 0 <= va / PAGE < MEMSIZE_PHYSICAL / PAGE
    ensures MappingOf(NewEntry(0, 7, va / PAGE), va) == Mapping(va / PAGE, va, 7)
  {
    var f := va / PAGE;
    assert va == f * PAGE + va % PAGE;
    PageOf7(f);
    LowBits(2048 * f + 3, 1, 1024 * f + 1, 1, 512 * f, 1);
    hide Present;
  }

  lemma PageOf7(f: int)
    requires 0 <= f < 512
    ensures (f * PAGE + 7) / PAGE == f && (f * PAGE + 7) % PAGE == 7 && AsInt32(f) == f
  {
  }

  /** Five different frames of pid, handed out and not in use yet. */
  ghost predicate FiveLoose(k: System, pid: int, l1: int, l2: int, l3: int, l4: int, l5: int, loose: set<int>)
    reads k, k.phys
  {
    && k.ValidWith(loose) && Distinct(l1, l2, l3, l4, l5)
    && PageAt(k.phys.mem, l1) && PageAt(k.phys.mem, l2) && PageAt(k.phys.mem, l3)
    && PageAt(k.phys.mem, l4) && PageAt(k.phys.mem, l5)
    && loose == {l1 / PAGE, l2 / PAGE, l3 / PAGE, l4 / PAGE, l5 / PAGE}
    && forall f :: f in loose ==> 0 <= f < |k.info| && k.info[f] == PageInfo(pid, 1)
  }

  /** Writes into handed-out frames spare those the kernel holds. */
  lemma HeldByLoose(m: Memory, m2: Memory, info: seq<PageInfo>, tabs: map<int, Tables>, loose: set<int>)
    requires KInv(m, info, tabs, loose) && OnlyFrames(m, m2, loose)
    ensures HeldKept(m, info, m2, info)
  {
    assert |m2| == |m|;
    hide ProcInv, Accounted, SameBytes, OnlyFrames;
    forall f | 0 <= f < |info| && info[f].owner < 0
      ensures SameBytes(m, m2, f * PAGE, f * PAGE + PAGE)
    {
      FrameNotWritten(m, m2, loose, f);
    }
  }

  /** Turn them into the tables of an empty process. */
  method FillTables(k: System, ghost pid: int, l1: int, l2: int, l3: int, l4: int, l5: int, ghost loose: set<int>)
    requires FiveLoose(k, pid, l1, l2, l3, l4, l5, loose)
    modifies k.phys
    ensures k.ValidWith(loose) && AllKept(old(k.phys.mem), k.phys.mem, k.tabs)
    ensures HeldKept(old(k.phys.mem), k.info, k.phys.mem, k.info)
    ensures LowMapped(k.phys.mem, l1) && Tree(k.phys.mem, l1, SetupLayout(l1, l2, l3, l4, l5))
  {
    hide KInv, AllKept, Leaf, Tree, OnlyFrames, LowMapped, SetupLayout, HeldKept;
    ghost var m := k.phys.mem;
    MapLow(k.phys, l1, l2, l3, l4, l5, loose);
    SizeKept(m, k.phys.mem, loose);
    LooseWrite(m, k.phys.mem, k.info, k.tabs, loose);
    HeldByLoose(m, k.phys.mem, k.info, k.tabs, loose);
    AllKeptIs(m, k.phys.mem, k.tabs);
  }

  /** Hand the finished tables to the process. */
  method BuildProcess(k: System, pid: int, l1: int, l2: int, l3: int, l4: int, l5: int, ghost loose: set<int>)
    requires FiveLoose(k, pid, l1, l2, l3, l4, l5, loose)
    requires 0 < pid < NPROC && pid !in k.tabs && k.procs[pid].state == Free
    modifies k.phys, k`procs, k`tabs
    ensures k.Valid() && AllKept(old(k.phys.mem), k.phys.mem, old(k.tabs))
    ensures HeldKept(old(k.phys.mem), k.info, k.phys.mem, k.info)
    ensures k.procs == old(k.procs)[pid := old(k.procs)[pid].(pagetable := l1)]
    ensures k.tabs == old(k.tabs)[pid := Tables(l1, SetupLayout(l1, l2, l3, l4, l5))]
    ensures LowMapped(k.phys.mem, l1)
  {
    hide KInv, AllKept, LowMapped, SetupLayout, Tree, Leaf, Breaks, Distinct, HeldKept;
    FillTables(k, pid, l1, l2, l3, l4, l5, loose);
    ghost var t := Tables(l1, SetupLayout(l1, l2, l3, l4, l5));
    LayoutSize(l1, l2, l3, l4, l5);
    TablesReady(k.phys.mem, k.info, k.tabs, loose, pid, l1, l2, l3, l4, l5);
    hide FiveLoose;
    k.tabs := k.tabs[pid := t];
    k.procs := k.procs[pid := k.procs[pid].(pagetable := l1)];
  }

  lemma LayoutSize(l1: int, l2: int, l3: int, l4: int, l5: int)
    requires Distinct(l1, l2, l3, l4, l5)
    ensures |SetupLayout(l1, l2, l3, l4, l5)| == TABLE_PAGES
  {
    var lay := SetupLayout(l1, l2, l3, l4, l5);
    assert lay.Keys == {l1, l2, l3, l4, l5};
  }

  lemma TablesReady(m: Memory, info: seq<PageInfo>, tabs: map<int, Tables>, loose: set<int>, pid: int,
                    l1: int, l2: int, l3: int, l4: int, l5: int)
    requires KInv(m, info, tabs, loose) && pid !in tabs && 0 < pid && Distinct(l1, l2, l3, l4, l5)
    requires l1 % PAGE == 0 && l2 % PAGE == 0 && l3 % PAGE == 0 && l4 % PAGE == 0 && l5 % PAGE == 0
    requires loose == {l1 / PAGE, l2 / PAGE, l3 / PAGE, l4 / PAGE, l5 / PAGE}
    requires forall f :: f in loose ==> 0 <= f < |info| && info[f] == PageInfo(pid, 1)
    requires LowMapped(m, l1) && Tree(m, l1, SetupLayout(l1, l2, l3, l4, l5))
    ensures KInv(m, info, tabs[pid := Tables(l1, SetupLayout(l1, l2, l3, l4, l5))], {})
  {
    hide KInv, Leaf, Tree, SetupLayout;
    LowMappedMeans(m, l1);
    LoosePages(l1, l2, l3, l4, l5, loose);
    hide LowMapped;
    AddProcess(m, info, tabs, loose, pid, Tables(l1, SetupLayout(l1, l2, l3, l4, l5)));
  }

  lemma AllKeptIs(m: Memory, m2: Memory, tabs: map<int, Tables>)
    requires forall q :: q in tabs ==> UserKept(m, m2, tabs[q].root)
    ensures AllKept(m, m2, tabs)
  {
  }

  lemma SizeKept(m: Memory, m2: Memory, s: set<int>)
    requires OnlyFrames(m, m2, s)
    ensures |m2| == |m|
  {
  }

  lemma FreshLeaves(m: Memory, l1: int, l2: int, l3: int, l4: int, l5: int)
    requires PageAt(m, l1) && PageAt(m, l2) && PageAt(m, l3) && PageAt(m, l4) && PageAt(m, l5)
    requires Linked(m, l1, l2, l3, l4, l5)
    ensures forall v :: 0 <= v < MEMSIZE_VIRTUAL ==> Leaf(m, l1, v) == Some(0)
    ensures NothingAbove(m, l1)
  {
    forall v | 0 <= v < MEMSIZE_VIRTUAL
      ensures Leaf(m, l1, v) == Some(0)
    {
      SetupWalk(m, l1, l2, l3, l4, l5, v);
    }
    hide Linked, Leaf, FrameAt;
    forall v | MEMSIZE_VIRTUAL <= v < VA_LIMIT
      ensures FrameAt(m, l1, v) == -1
    {
      SetupAbove(m, l1, l2, l3, l4, l5, v);
    }
  }

  /** With a leaf for every page, the mapping cannot fail. */
  lemma MapSucceeds(m: Memory, root: int, va: int, done: int, r: int)
    requires forall v :: 0 <= v < MEMSIZE_VIRTUAL ==> Leaf(m, root, v).Some?
    requires r != 0 ==> 0 <= va + done * PAGE < MEMSIZE_VIRTUAL && Leaf(m, root, va + done * PAGE).None?
    ensures r == 0
  {
    hide Leaf;
  }

  lemma StillThere(m: Memory, m2: Memory, root: int)
    requires forall v :: 0 <= v < MEMSIZE_VIRTUAL ==> Leaf(m, root, v) == Some(0)
    requires MappedRange(m, m2, root, 0, PROC_START_ADDR / PAGE, 0, 3)
    ensures forall v :: 0 <= v < MEMSIZE_VIRTUAL ==> Leaf(m2, root, v).Some?
  {
    hide Leaf, NewEntry;
  }

  lemma SetupFrames(m: Memory, m2: Memory, l1: int, l2: int, l3: int, l4: int, l5: int, s: set<int>)
    requires OnlyLeafTables(m, m2, SetupLayout(l1, l2, l3, l4, l5)) && Distinct(l1, l2, l3, l4, l5)
    requires l4 % PAGE == 0 && l5 % PAGE == 0 && l4 / PAGE in s && l5 / PAGE in s
    ensures OnlyFrames(m, m2, s)
  {
    var lay := SetupLayout(l1, l2, l3, l4, l5);
    assert forall t :: t in lay && lay[t].0 == 3 ==> t == l4 || t == l5;
  }

  lemma LoosePages(l1: int, l2: int, l3: int, l4: int, l5: int, s: set<int>)
    requires l1 % PAGE == 0 && l2 % PAGE == 0 && l3 % PAGE == 0 && l4 % PAGE == 0 && l5 % PAGE == 0
    requires s == {l1 / PAGE, l2 / PAGE, l3 / PAGE, l4 / PAGE, l5 / PAGE}
    ensures forall p :: p in SetupLayout(l1, l2, l3, l4, l5) ==> p / PAGE in s
    ensures forall f :: f in s ==> f * PAGE in SetupLayout(l1, l2, l3, l4, l5)
  {
    assert l1 / PAGE * PAGE == l1 && l2 / PAGE * PAGE == l2 && l3 / PAGE * PAGE == l3;
    assert l4 / PAGE * PAGE == l4 && l5 / PAGE * PAGE == l5;
  }

  lemma HeldBack(m: Memory, info: seq<PageInfo>, m2: Memory, info2: seq<PageInfo>)
    requires HeldKept(m, info, m2, info2)
    ensures HeldKept(m, info, m2, info)
  {
    hide SameBytes;
  }

  /** process_config_tables: 0 and page tables for pid, or -1 and every frame given back. */
  method ConfigTables(k: System, pid: int) returns (r: int)
    requires k.Valid() && 0 < pid < NPROC && pid !in k.tabs && k.procs[pid].state == Free
    modifies k.phys, k`info, k`procs, k`tabs
    ensures k.Valid() && AllKept(old(k.phys.mem), k.phys.mem, old(k.tabs))
    ensures HeldKept(old(k.phys.mem), old(k.info), k.phys.mem, k.info)
    ensures r == 0 ==>
              var root := k.procs[pid].pagetable;
              && k.procs == old(k.procs)[pid := old(k.procs)[pid].(pagetable := root)]
              && pid in k.tabs && k.tabs == old(k.tabs)[pid := k.tabs[pid]] && k.tabs[pid].root == root
              && LowMapped(k.phys.mem, root)
              && |FreeFrames(k.info)| == |FreeFrames(old(k.info))| - TABLE_PAGES
    ensures r == if TABLE_PAGES <= |FreeFrames(old(k.info))| then 0 else -1
    ensures r != 0 ==> k.info == old(k.info) && k.procs == old(k.procs) && k.tabs == old(k.tabs)
  {
    hide KInv, AllKept, Leaf, FreeFrames, HeldKept;
    ghost var i0 := k.info;
    var l1, l2, l3, l4, l5;
    ghost var loose;
    l1, l2, l3, l4, l5, loose := TakeFive(k, pid);
    FiveOrFewer(i0, k.info, k.phys.mem, l1, l2, l3, l4, l5, pid);
    if l1 == 0 || l2 == 0 || l3 == 0 || l4 == 0 || l5 == 0 {
      HeldBack(old(k.phys.mem), i0, k.phys.mem, k.info);
      ReleaseFive(k, l1, l2, l3, l4, l5, pid, i0);
      return -1;
    }
    FiveFewer(i0, k.info, k.phys.mem, l1, l2, l3, l4, l5, pid);
    ghost var m := k.phys.mem;
    BuildProcess(k, pid, l1, l2, l3, l4, l5, loose);
    AllTwice(old(k.phys.mem), m, k.phys.mem, old(k.tabs));
    HeldTwice(old(k.phys.mem), i0, m, k.info, k.phys.mem, k.info);
    return 0;
  }
}
