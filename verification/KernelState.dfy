/** The kernel's memory accounting: page ownership, per-process page tables, and
    the invariant that ties each owned frame to its one use. */
module KernelState {
  import opened Words
  import opened PageTables
  import opened VirtualMemory

  const NPAGES := 512
  const PROC_START_ADDR := 0x100000
  const CONSOLE_ADDR := 0xb8000

  datatype PageInfo = PageInfo(owner: int, refcount: int)

  /** A process's table root and the layout of the pages below it. */
  datatype Tables = Tables(root: int, lay: Layout)

  predicate UserPage(v: int)
  {
    PROC_START_ADDR <= v < MEMSIZE_VIRTUAL && v % PAGE == 0
  }

  /** The frame an entry maps, -1 if it maps none. */
  function FrameOf(e: int): int
  {
    if Present(e) then e / PAGE else -1
  }

  /** The frame mapped at v, -1 if none. */
  function FrameAt(m: Memory, root: int, v: int): int
  {
    match Leaf(m, root, v)
    case None => -1
    case Some(e) => FrameOf(e)
  }

  /** Every table page of pid is owned by pid, once. */
  ghost predicate TablesOwned(info: seq<PageInfo>, pid: int, lay: Layout)
  {
    forall t :: t in lay ==> 0 <= t / PAGE < |info| && info[t / PAGE] == PageInfo(pid, 1)
  }

  /** Every frame mapped at a user page of pid is owned by pid, once, and is neither
      one of its tables nor waiting to be mapped. */
  ghost predicate PagesOwned(m: Memory, info: seq<PageInfo>, pid: int, t: Tables, loose: set<int>)
  {
    forall v :: UserPage(v) && FrameAt(m, t.root, v) >= 0 ==>
      var f := FrameAt(m, t.root, v);
      f < |info| && info[f] == PageInfo(pid, 1) && f * PAGE !in t.lay && f !in loose
  }

  /** No frame is mapped at two user pages. */
  ghost predicate PagesDistinct(m: Memory, root: int)
  {
    forall v, w :: UserPage(v) && UserPage(w) && FrameAt(m, root, v) == FrameAt(m, root, w) >= 0 ==> v == w
  }

  /** Leaf tables exist for the whole virtual memory, and nothing is mapped above it. */
  ghost predicate Covers(m: Memory, root: int)
  {
    && (forall v :: 0 <= v < MEMSIZE_VIRTUAL ==> Leaf(m, root, v).Some?)
    && NothingAbove(m, root)
  }

  ghost predicate NothingAbove(m: Memory, root: int)
  {
    forall v :: MEMSIZE_VIRTUAL <= v < VA_LIMIT ==> FrameAt(m, root, v) == -1
  }

  /** Low memory is identity mapped and writable, the console page alone for the process too. */
  ghost predicate LowIdentity(m: Memory, root: int)
  {
    forall v :: 0 <= v < PROC_START_ADDR ==>
      var o := Leaf(m, root, v);
      && o.Some? && Present(o.value) && Writable(o.value) && PteAddr(o.value) == v - v % PAGE
      && (User(o.value) <==> v - v % PAGE == CONSOLE_ADDR)
  }

  ghost predicate ProcInv(m: Memory, info: seq<PageInfo>, pid: int, t: Tables, loose: set<int>)
  {
    && 0 < pid && Tree(m, t.root, t.lay) && TablesOwned(info, pid, t.lay)
    && PagesOwned(m, info, pid, t, loose) && PagesDistinct(m, t.root)
    && Covers(m, t.root) && LowIdentity(m, t.root)
  }

  /** The frame f serves its owner: as a table or at some user page. */
  ghost predicate InUse(m: Memory, f: int, t: Tables)
  {
    f * PAGE in t.lay || exists v :: UserPage(v) && FrameAt(m, t.root, v) == f
  }

  ghost predicate Accounted(m: Memory, info: seq<PageInfo>, tabs: map<int, Tables>, loose: set<int>)
  {
    forall f :: 0 <= f < |info| && info[f].owner > 0 ==>
      info[f].refcount == 1 && (f in loose || (info[f].owner in tabs && InUse(m, f, tabs[info[f].owner])))
  }

  /** Owner and reference count are zero together. */
  ghost predicate FreeTogether(info: seq<PageInfo>)
  {
    forall f :: 0 <= f < |info| ==> (info[f].owner == 0 <==> info[f].refcount == 0)
  }

  /** Frames handed out and not mapped yet. */
  ghost predicate LooseOwned(info: seq<PageInfo>, tabs: map<int, Tables>, loose: set<int>)
  {
    forall f :: f in loose ==>
      0 < f < |info| && 0 < info[f].owner && info[f].refcount == 1
      && (info[f].owner in tabs ==> f * PAGE !in tabs[info[f].owner].lay)
  }

  ghost predicate KInv(m: Memory, info: seq<PageInfo>, tabs: map<int, Tables>, loose: set<int>)
  {
    && |m| == MEMSIZE_PHYSICAL && |info| == NPAGES && FreeTogether(info)
    && (forall pid :: pid in tabs ==> ProcInv(m, info, pid, tabs[pid], loose))
    && Accounted(m, info, tabs, loose) && LooseOwned(info, tabs, loose)
  }

  // ----- what a step leaves alone ------------------------------------------------

  /** A process whose table pages and frames are untouched keeps its invariant and page map. */
  lemma ProcFrame(m: Memory, m2: Memory, info: seq<PageInfo>, info2: seq<PageInfo>, pid: int, t: Tables,
                  loose: set<int>, loose2: set<int>)
    requires ProcInv(m, info, pid, t, loose) && |m| == |m2| && |info| == |info2|
    requires forall p :: p in t.lay ==> SameBytes(m, m2, p, p + PAGE)
    requires forall f :: 0 <= f < |info| && info[f].owner == pid ==> info2[f] == info[f] && (f in loose2 ==> f in loose)
    ensures ProcInv(m2, info2, pid, t, loose2)
    ensures forall v :: 0 <= v < VA_LIMIT ==> Leaf(m2, t.root, v) == Leaf(m, t.root, v)
    ensures forall v :: UserPage(v) ==> FrameAt(m2, t.root, v) == FrameAt(m, t.root, v)
  {
    TreeFrame(m, m2, t.root, t.lay);
    hide Tree, Leaf;
    SameMap(m, m2, t.root);
    hide Covers, LowIdentity;
  }

  /** The same page map covers the same addresses. */
  lemma SameMap(m: Memory, m2: Memory, root: int)
    requires Covers(m, root) && LowIdentity(m, root)
    requires forall v :: 0 <= v < VA_LIMIT ==> Leaf(m2, root, v) == Leaf(m, root, v)
    ensures Covers(m2, root) && LowIdentity(m2, root)
  {
    hide Leaf, Present, Writable, User, PteAddr, FrameOf;
    forall v | MEMSIZE_VIRTUAL <= v < VA_LIMIT
      ensures FrameAt(m2, root, v) == FrameAt(m, root, v)
    {
    }
  }

  /** A write outside every page in use by pid's tables spares them. */
  lemma TablesSpared(m: Memory, m2: Memory, info: seq<PageInfo>, pid: int, t: Tables, f: int, loose: set<int>)
    requires ProcInv(m, info, pid, t, loose) && 0 <= f < |info| && info[f] != PageInfo(pid, 1)
    requires SameOutside(m, m2, f * PAGE, f * PAGE + PAGE)
    ensures forall p :: p in t.lay ==> SameBytes(m, m2, p, p + PAGE)
  {
    forall p | p in t.lay
      ensures SameBytes(m, m2, p, p + PAGE)
    {
      assert p % PAGE == 0 && p / PAGE != f;
    }
  }

  lemma AllocProc(m: Memory, m2: Memory, info: seq<PageInfo>, q: int, t: Tables, loose: set<int>, f: int, pid: int)
    requires ProcInv(m, info, q, t, loose) && 0 < f < |info| && info[f] == PageInfo(0, 0)
    requires SameOutside(m, m2, f * PAGE, f * PAGE + PAGE)
    ensures ProcInv(m2, info[f := PageInfo(pid, 1)], q, t, loose + {f})
    ensures forall v :: 0 <= v < VA_LIMIT ==> Leaf(m2, t.root, v) == Leaf(m, t.root, v)
    ensures forall v :: UserPage(v) ==> FrameAt(m2, t.root, v) == FrameAt(m, t.root, v)
  {
    TablesSpared(m, m2, info, q, t, f, loose);
    ProcFrame(m, m2, info, info[f := PageInfo(pid, 1)], q, t, loose, loose + {f});
  }

  /** Handing frame f to pid and filling it keeps the accounting; f is now loose. */
  lemma AllocFrame(m: Memory, m2: Memory, info: seq<PageInfo>, tabs: map<int, Tables>, loose: set<int>, f: int,
                   pid: int)
    requires KInv(m, info, tabs, loose) && 0 < f < NPAGES && info[f] == PageInfo(0, 0) && 0 < pid
    requires SameOutside(m, m2, f * PAGE, f * PAGE + PAGE) && |m2| == |m|
    ensures KInv(m2, info[f := PageInfo(pid, 1)], tabs, loose + {f})
    ensures forall q, v :: q in tabs && 0 <= v < VA_LIMIT ==> Leaf(m2, tabs[q].root, v) == Leaf(m, tabs[q].root, v)
  {
    hide ProcInv, Leaf, FrameAt, Accounted, SameOutside;
    var info2, loose2 := info[f := PageInfo(pid, 1)], loose + {f};
    forall q | q in tabs
      ensures ProcInv(m2, info2, q, tabs[q], loose2)
      ensures forall v :: 0 <= v < VA_LIMIT ==> Leaf(m2, tabs[q].root, v) == Leaf(m, tabs[q].root, v)
      ensures forall v :: UserPage(v) ==> FrameAt(m2, tabs[q].root, v) == FrameAt(m, tabs[q].root, v)
    {
      AllocProc(m, m2, info, q, tabs[q], loose, f, pid);
    }
    if pid in tabs {
      NotATable(m, info, tabs, loose, f, pid);
    }
    InUseKept(m, m2, info, info2, tabs, loose, loose2, f);
  }

  lemma NotATable(m: Memory, info: seq<PageInfo>, tabs: map<int, Tables>, loose: set<int>, f: int, pid: int)
    requires KInv(m, info, tabs, loose) && pid in tabs && 0 <= f < NPAGES && info[f].owner != pid
    ensures f * PAGE !in tabs[pid].lay
  {
    assert ProcInv(m, info, pid, tabs[pid], loose);
    assert f * PAGE / PAGE == f;
  }

  lemma InUseKept(m: Memory, m2: Memory, info: seq<PageInfo>, info2: seq<PageInfo>, tabs: map<int, Tables>,
                  loose: set<int>, loose2: set<int>, f: int)
    requires Accounted(m, info, tabs, loose) && |info| == |info2| && loose <= loose2 && f in loose2
    requires forall g :: 0 <= g < |info| && g != f ==> info2[g] == info[g]
    requires 0 <= f < |info| && info2[f].refcount == 1
    requires forall q, v :: q in tabs && UserPage(v) ==> FrameAt(m2, tabs[q].root, v) == FrameAt(m, tabs[q].root, v)
    ensures Accounted(m2, info2, tabs, loose2)
  {
    hide FrameAt;
    forall g | 0 <= g < |info2| && info2[g].owner > 0
      ensures info2[g].refcount == 1
      ensures g in loose2 || (info2[g].owner in tabs && InUse(m2, g, tabs[info2[g].owner]))
    {
      if g != f && g !in loose {
        assert InUse(m, g, tabs[info[g].owner]);
      }
    }
  }

  // ----- changing one leaf of one process -------------------------------------------

  /** The page map of root differs between m and m2 at the page of va only, where it is e. */
  ghost predicate LeafSet(m: Memory, m2: Memory, root: int, va: int, e: int)
  {
    forall v :: 0 <= v < VA_LIMIT ==>
      Leaf(m2, root, v) == if v / PAGE == va / PAGE then Some(e) else Leaf(m, root, v)
  }

  lemma FramesAfter(m: Memory, m2: Memory, root: int, va: int, e: int)
    requires LeafSet(m, m2, root, va, e) && UserPage(va)
    ensures FrameAt(m2, root, va) == FrameOf(e)
    ensures forall v :: UserPage(v) && v != va ==> FrameAt(m2, root, v) == FrameAt(m, root, v)
  {
    hide Leaf, FrameOf;
  }

  /** The entry e may be put at va: its frame, if any, is pid's own, not a table, not
      loose and not mapped elsewhere. */
  ghost predicate MayMap(m: Memory, info: seq<PageInfo>, pid: int, t: Tables, loose: set<int>, va: int, e: int)
  {
    var f := FrameOf(e);
    f >= 0 ==>
      && f < |info| && info[f] == PageInfo(pid, 1) && f * PAGE !in t.lay && f !in loose
      && forall v :: UserPage(v) && v != va ==> FrameAt(m, t.root, v) != f
  }

  /** The process whose leaf changes keeps its invariant. */
  lemma SetProc(m: Memory, m2: Memory, info: seq<PageInfo>, info2: seq<PageInfo>, pid: int, t: Tables,
                loose: set<int>, loose2: set<int>, va: int, e: int)
    requires ProcInv(m, info, pid, t, loose) && Tree(m2, t.root, t.lay) && |info| == |info2| && UserPage(va)
    requires LeafSet(m, m2, t.root, va, e) && MayMap(m, info2, pid, t, loose2, va, e)
    requires TablesOwned(info2, pid, t.lay)
    requires forall v :: UserPage(v) && v != va && FrameAt(m, t.root, v) >= 0 ==>
      var f := FrameAt(m, t.root, v); f < |info| && info2[f] == info[f] && f !in loose2
    ensures ProcInv(m2, info2, pid, t, loose2)
  {
    FramesAfter(m, m2, t.root, va, e);
    hide Tree, FrameOf, FrameAt;
    SetCovers(m, m2, t.root, va, e);
    hide Covers, LowIdentity, Leaf, LeafSet, TablesOwned;
  }

  lemma SetCovers(m: Memory, m2: Memory, root: int, va: int, e: int)
    requires Covers(m, root) && LowIdentity(m, root) && LeafSet(m, m2, root, va, e) && UserPage(va)
    ensures Covers(m2, root) && LowIdentity(m2, root)
  {
    hide Leaf, Present, Writable, User, PteAddr, FrameOf;
    forall v | MEMSIZE_VIRTUAL <= v < VA_LIMIT
      ensures FrameAt(m2, root, v) == FrameAt(m, root, v)
    {
      assert Leaf(m2, root, v) == Leaf(m, root, v);
    }
  }

  /** The other processes keep theirs: their tables and frames lie elsewhere. */
  lemma OtherProc(m: Memory, m2: Memory, info: seq<PageInfo>, info2: seq<PageInfo>, pid: int, t: Tables,
                  q: int, u: Tables, loose: set<int>, loose2: set<int>)
    requires ProcInv(m, info, pid, t, loose) && ProcInv(m, info, q, u, loose) && q != pid && |info| == |info2|
    requires OnlyLeafTables(m, m2, t.lay)
    requires forall f :: 0 <= f < |info| && info[f].owner == q ==> info2[f] == info[f] && (f in loose2 ==> f in loose)
    ensures ProcInv(m2, info2, q, u, loose2)
    ensures forall v :: 0 <= v < VA_LIMIT ==> Leaf(m2, u.root, v) == Leaf(m, u.root, v)
    ensures forall v :: UserPage(v) ==> FrameAt(m2, u.root, v) == FrameAt(m, u.root, v)
  {
    forall p | p in u.lay
      ensures SameBytes(m, m2, p, p + PAGE)
    {
      PageSpared(m, m2, info, pid, t, q, u, loose, p);
    }
    ProcFrame(m, m2, info, info2, q, u, loose, loose2);
  }

  lemma PageSpared(m: Memory, m2: Memory, info: seq<PageInfo>, pid: int, t: Tables, q: int, u: Tables,
                   loose: set<int>, p: int)
    requires ProcInv(m, info, pid, t, loose) && ProcInv(m, info, q, u, loose) && q != pid && p in u.lay
    requires OnlyLeafTables(m, m2, t.lay)
    ensures SameBytes(m, m2, p, p + PAGE)
  {
    assert p % PAGE == 0 && info[p / PAGE] == PageInfo(q, 1);
    forall a | 0 <= a < |m| && p <= a < p + PAGE
      ensures m2[a] == m[a]
    {
      if InLeafTable(t.lay, a) {
        var w :| w in t.lay && t.lay[w].0 == 3 && w <= a < w + PAGE;
        assert w % PAGE == 0 && info[w / PAGE] == PageInfo(pid, 1);
        PagesApart(w, p);
      }
    }
  }

  /** Every process keeps its invariant when pid's leaf at va becomes e. */
  lemma SetLeafProcs(m: Memory, m2: Memory, info: seq<PageInfo>, info2: seq<PageInfo>, tabs: map<int, Tables>,
                     loose: set<int>, loose2: set<int>, pid: int, va: int, e: int)
    requires (forall q :: q in tabs ==> ProcInv(m, info, q, tabs[q], loose)) && |info| == |info2|
    requires pid in tabs && UserPage(va) && Tree(m2, tabs[pid].root, tabs[pid].lay)
    requires LeafSet(m, m2, tabs[pid].root, va, e) && OnlyLeafTables(m, m2, tabs[pid].lay)
    requires MayMap(m, info2, pid, tabs[pid], loose2, va, e) && TablesOwned(info2, pid, tabs[pid].lay)
    requires forall v :: UserPage(v) && v != va && FrameAt(m, tabs[pid].root, v) >= 0 ==>
      var f := FrameAt(m, tabs[pid].root, v); f < |info| && info2[f] == info[f] && f !in loose2
    requires forall f :: 0 <= f < |info| && info[f].owner != pid ==> info2[f] == info[f] && (f in loose2 ==> f in loose)
    ensures forall q :: q in tabs ==> ProcInv(m2, info2, q, tabs[q], loose2)
    ensures FrameAt(m2, tabs[pid].root, va) == FrameOf(e)
    ensures forall v :: UserPage(v) && v != va ==> FrameAt(m2, tabs[pid].root, v) == FrameAt(m, tabs[pid].root, v)
    ensures forall q, v :: q in tabs && q != pid && UserPage(v) ==>
              FrameAt(m2, tabs[q].root, v) == FrameAt(m, tabs[q].root, v)
    ensures forall q, v :: q in tabs && q != pid && 0 <= v < VA_LIMIT ==>
              Leaf(m2, tabs[q].root, v) == Leaf(m, tabs[q].root, v)
  {
    hide ProcInv, FrameAt, FrameOf, Leaf, LeafSet, OnlyLeafTables, MayMap, TablesOwned, Tree;
    FramesAfter(m, m2, tabs[pid].root, va, e);
    forall q | q in tabs
      ensures ProcInv(m2, info2, q, tabs[q], loose2)
    {
      if q == pid {
        SetProc(m, m2, info, info2, pid, tabs[pid], loose, loose2, va, e);
      } else {
        OtherProc(m, m2, info, info2, pid, tabs[pid], q, tabs[q], loose, loose2);
      }
    }
    forall q | q in tabs && q != pid
      ensures forall v :: UserPage(v) ==> FrameAt(m2, tabs[q].root, v) == FrameAt(m, tabs[q].root, v)
      ensures forall v :: 0 <= v < VA_LIMIT ==> Leaf(m2, tabs[q].root, v) == Leaf(m, tabs[q].root, v)
    {
      OtherProc(m, m2, info, info2, pid, tabs[pid], q, tabs[q], loose, loose2);
    }
  }

  /** A loose frame of pid may be mapped at an unmapped user page. */
  lemma MapLoose(m: Memory, m2: Memory, info: seq<PageInfo>, tabs: map<int, Tables>, loose: set<int>,
                 pid: int, f: int, va: int, e: int)
    requires KInv(m, info, tabs, loose) && pid in tabs && f in loose && info[f].owner == pid
    requires UserPage(va) && FrameAt(m, tabs[pid].root, va) == -1 && FrameOf(e) == f
    requires Tree(m2, tabs[pid].root, tabs[pid].lay) && LeafSet(m, m2, tabs[pid].root, va, e)
    requires OnlyLeafTables(m, m2, tabs[pid].lay) && |m2| == |m|
    ensures KInv(m2, info, tabs, loose - {f})
  {
    assert ProcInv(m, info, pid, tabs[pid], loose);
    hide FrameAt, FrameOf, Leaf, LeafSet, OnlyLeafTables, Tree, Covers, LowIdentity, PagesDistinct;
    assert MayMap(m, info, pid, tabs[pid], loose - {f}, va, e);
    hide MayMap;
    SetLeafProcs(m, m2, info, info, tabs, loose, loose - {f}, pid, va, e);
    hide ProcInv;
    MapAccounted(m, m2, info, tabs, loose, pid, f, va);
  }

  lemma MapAccounted(m: Memory, m2: Memory, info: seq<PageInfo>, tabs: map<int, Tables>, loose: set<int>,
                     pid: int, f: int, va: int)
    requires Accounted(m, info, tabs, loose) && pid in tabs && 0 <= f < |info| && info[f].owner == pid
    requires UserPage(va) && FrameAt(m, tabs[pid].root, va) == -1 && FrameAt(m2, tabs[pid].root, va) == f
    requires forall v :: UserPage(v) && v != va ==> FrameAt(m2, tabs[pid].root, v) == FrameAt(m, tabs[pid].root, v)
    requires forall q, v :: q in tabs && q != pid && UserPage(v) ==>
               FrameAt(m2, tabs[q].root, v) == FrameAt(m, tabs[q].root, v)
    ensures Accounted(m2, info, tabs, loose - {f})
  {
    hide FrameAt;
    forall g | 0 <= g < |info| && info[g].owner > 0
      ensures g in loose - {f} || (info[g].owner in tabs && InUse(m2, g, tabs[info[g].owner]))
    {
      assert g !in loose ==> InUse(m, g, tabs[info[g].owner]);
    }
  }

  /** Unmapping a user page and freeing its frame. */
  lemma Unmap(m: Memory, m2: Memory, info: seq<PageInfo>, tabs: map<int, Tables>, loose: set<int>,
              pid: int, f: int, va: int, e: int)
    requires KInv(m, info, tabs, loose) && pid in tabs && UserPage(va)
    requires FrameAt(m, tabs[pid].root, va) == f && 0 <= f < |info| && FrameOf(e) == -1
    requires Tree(m2, tabs[pid].root, tabs[pid].lay) && LeafSet(m, m2, tabs[pid].root, va, e)
    requires OnlyLeafTables(m, m2, tabs[pid].lay) && |m2| == |m|
    ensures KInv(m2, info[f := PageInfo(0, 0)], tabs, loose)
  {
    hide ProcInv, FrameAt, FrameOf, Leaf, LeafSet, OnlyLeafTables, Tree;
    UnmapFacts(m, info, tabs, loose, pid, f, va);
    SetLeafProcs(m, m2, info, info[f := PageInfo(0, 0)], tabs, loose, loose, pid, va, e);
    UnmapAccounted(m, m2, info, tabs, loose, pid, f, va);
  }

  lemma UnmapFacts(m: Memory, info: seq<PageInfo>, tabs: map<int, Tables>, loose: set<int>, pid: int, f: int, va: int)
    requires KInv(m, info, tabs, loose) && pid in tabs && UserPage(va)
    requires FrameAt(m, tabs[pid].root, va) == f && 0 <= f < |info|
    ensures TablesOwned(info[f := PageInfo(0, 0)], pid, tabs[pid].lay)
    ensures info[f] == PageInfo(pid, 1) && f !in loose
    ensures forall v :: UserPage(v) && v != va && FrameAt(m, tabs[pid].root, v) >= 0 ==>
              var g := FrameAt(m, tabs[pid].root, v); g < |info| && g != f && g !in loose
  {
    assert ProcInv(m, info, pid, tabs[pid], loose);
    hide FrameAt, Covers, LowIdentity;
    TablesElsewhere(m, info, pid, tabs[pid], f);
  }

  lemma TablesElsewhere(m: Memory, info: seq<PageInfo>, pid: int, t: Tables, f: int)
    requires TablesOwned(info, pid, t.lay) && TablePages(m, t.lay) && 0 <= f < |info| && f * PAGE !in t.lay
    ensures TablesOwned(info[f := PageInfo(0, 0)], pid, t.lay)
  {
    forall p | p in t.lay
      ensures p / PAGE != f
    {
      assert p % PAGE == 0;
    }
  }

  lemma UnmapAccounted(m: Memory, m2: Memory, info: seq<PageInfo>, tabs: map<int, Tables>, loose: set<int>,
                       pid: int, f: int, va: int)
    requires Accounted(m, info, tabs, loose) && pid in tabs && 0 <= f < |info| && info[f].owner == pid
    requires UserPage(va) && FrameAt(m, tabs[pid].root, va) == f
    requires forall v :: UserPage(v) && v != va ==> FrameAt(m2, tabs[pid].root, v) == FrameAt(m, tabs[pid].root, v)
    requires forall q, v :: q in tabs && q != pid && UserPage(v) ==>
               FrameAt(m2, tabs[q].root, v) == FrameAt(m, tabs[q].root, v)
    ensures Accounted(m2, info[f := PageInfo(0, 0)], tabs, loose)
  {
    hide FrameAt;
    var info2 := info[f := PageInfo(0, 0)];
    forall g | 0 <= g < |info2| && info2[g].owner > 0
      ensures info2[g].refcount == 1
      ensures g in loose || (info2[g].owner in tabs && InUse(m2, g, tabs[info2[g].owner]))
    {
      assert g != f && (g !in loose ==> InUse(m, g, tabs[info[g].owner]));
    }
  }

  /** Changing only the flags of a mapped user page. */
  lemma Remap(m: Memory, m2: Memory, info: seq<PageInfo>, tabs: map<int, Tables>, loose: set<int>,
              pid: int, va: int, e: int)
    requires KInv(m, info, tabs, loose) && pid in tabs && UserPage(va)
    requires FrameAt(m, tabs[pid].root, va) == FrameOf(e) >= 0
    requires Tree(m2, tabs[pid].root, tabs[pid].lay) && LeafSet(m, m2, tabs[pid].root, va, e)
    requires OnlyLeafTables(m, m2, tabs[pid].lay) && |m2| == |m|
    ensures KInv(m2, info, tabs, loose)
  {
    assert ProcInv(m, info, pid, tabs[pid], loose);
    hide FrameAt, FrameOf, Leaf, LeafSet, OnlyLeafTables, Tree, Covers, LowIdentity;
    SetLeafProcs(m, m2, info, info, tabs, loose, loose, pid, va, e);
    hide ProcInv;
    RemapAccounted(m, m2, info, tabs, loose, pid, va);
  }

  lemma RemapAccounted(m: Memory, m2: Memory, info: seq<PageInfo>, tabs: map<int, Tables>, loose: set<int>,
                       pid: int, va: int)
    requires Accounted(m, info, tabs, loose) && pid in tabs
    requires FrameAt(m2, tabs[pid].root, va) == FrameAt(m, tabs[pid].root, va)
    requires forall v :: UserPage(v) && v != va ==> FrameAt(m2, tabs[pid].root, v) == FrameAt(m, tabs[pid].root, v)
    requires forall q, v :: q in tabs && q != pid && UserPage(v) ==>
               FrameAt(m2, tabs[q].root, v) == FrameAt(m, tabs[q].root, v)
    ensures Accounted(m2, info, tabs, loose)
  {
    hide FrameAt;
    forall g | 0 <= g < |info| && info[g].owner > 0
      ensures g in loose || (info[g].owner in tabs && InUse(m2, g, tabs[info[g].owner]))
    {
      assert g !in loose ==> InUse(m, g, tabs[info[g].owner]);
    }
  }

  // ----- writing the bytes of a mapped frame ------------------------------------------

  lemma WriteFrameProc(m: Memory, m2: Memory, info: seq<PageInfo>, tabs: map<int, Tables>, loose: set<int>,
                       pid: int, va: int, q: int)
    requires KInv(m, info, tabs, loose) && pid in tabs && q in tabs && UserPage(va) && |m2| == |m|
    requires var f := FrameAt(m, tabs[pid].root, va); f >= 0 && SameOutside(m, m2, f * PAGE, f * PAGE + PAGE)
    ensures ProcInv(m2, info, q, tabs[q], loose)
    ensures forall v :: 0 <= v < VA_LIMIT ==> Leaf(m2, tabs[q].root, v) == Leaf(m, tabs[q].root, v)
    ensures forall v :: UserPage(v) ==> FrameAt(m2, tabs[q].root, v) == FrameAt(m, tabs[q].root, v)
  {
    hide KInv, ProcInv, FrameAt, Leaf, TablePages, SameOutside, SameBytes;
    FrameNotTable(m, info, tabs, loose, pid, va, q);
    WriteSpares(m, m2, q, tabs[q], FrameAt(m, tabs[pid].root, va));
    ProcFrame(m, m2, info, info, q, tabs[q], loose, loose);
  }

  /** Bytes of a frame some process has mapped may change freely. */
  lemma WriteFrame(m: Memory, m2: Memory, info: seq<PageInfo>, tabs: map<int, Tables>, loose: set<int>,
                   pid: int, va: int)
    requires KInv(m, info, tabs, loose) && pid in tabs && UserPage(va) && |m2| == |m|
    requires var f := FrameAt(m, tabs[pid].root, va); f >= 0 && SameOutside(m, m2, f * PAGE, f * PAGE + PAGE)
    ensures KInv(m2, info, tabs, loose)
    ensures forall q, v :: q in tabs && 0 <= v < VA_LIMIT ==> Leaf(m2, tabs[q].root, v) == Leaf(m, tabs[q].root, v)
  {
    hide ProcInv, FrameAt, Leaf, SameOutside;
    forall q | q in tabs
      ensures ProcInv(m2, info, q, tabs[q], loose)
      ensures forall v :: 0 <= v < VA_LIMIT ==> Leaf(m2, tabs[q].root, v) == Leaf(m, tabs[q].root, v)
      ensures forall v :: UserPage(v) ==> FrameAt(m2, tabs[q].root, v) == FrameAt(m, tabs[q].root, v)
    {
      WriteFrameProc(m, m2, info, tabs, loose, pid, va, q);
    }
    forall g | 0 <= g < |info| && info[g].owner > 0
      ensures g in loose || (info[g].owner in tabs && InUse(m2, g, tabs[info[g].owner]))
    {
      assert g !in loose ==> InUse(m, g, tabs[info[g].owner]);
    }
  }

  lemma FrameNotTable(m: Memory, info: seq<PageInfo>, tabs: map<int, Tables>, loose: set<int>, pid: int, va: int,
                      q: int)
    requires KInv(m, info, tabs, loose) && pid in tabs && q in tabs && UserPage(va)
    requires FrameAt(m, tabs[pid].root, va) >= 0
    ensures FrameAt(m, tabs[pid].root, va) * PAGE !in tabs[q].lay && TablePages(m, tabs[q].lay)
    ensures ProcInv(m, info, q, tabs[q], loose)
  {
    assert ProcInv(m, info, pid, tabs[pid], loose) && ProcInv(m, info, q, tabs[q], loose);
    var f := FrameAt(m, tabs[pid].root, va);
    hide FrameAt;
    assert info[f] == PageInfo(pid, 1) && f * PAGE / PAGE == f;
  }

  lemma WriteSpares(m: Memory, m2: Memory, q: int, t: Tables, f: int)
    requires TablePages(m, t.lay) && f * PAGE !in t.lay && SameOutside(m, m2, f * PAGE, f * PAGE + PAGE)
    ensures forall p :: p in t.lay ==> SameBytes(m, m2, p, p + PAGE)
  {
    forall p | p in t.lay
      ensures SameBytes(m, m2, p, p + PAGE)
    {
      PagesApart(p, f * PAGE);
    }
  }
}
