/** From the boot state to running processes: tables, segments, stack, and the first run. */
module Boot {
  import opened Words
  import opened PageTables
  import opened VirtualMemory
  import opened KernelState
  import opened Isolation
  import opened KernelSpec
  import opened Kernel
  import opened Loader
  import opened Setup
  import KernelRuns

  const STACK_PAGE := MEMSIZE_VIRTUAL - PAGE

  datatype Segment = Segment(pva: int, filesz: int, memsz: int, writable: bool, src: seq<Byte>) {
    function End(): int { pva + memsz }
  }

  /** A loadable segment below the stack, with an image of the promised size. */
  predicate Loadable(s: Segment)
  {
    && 0 <= s.filesz <= s.memsz && PROC_START_ADDR <= s.pva && s.End() <= STACK_PAGE
    && s.filesz + s.pva % PAGE <= |s.src|
  }

  /** The segments ascend and no two share a page. */
  ghost predicate PageDisjoint(segs: seq<Segment>)
  {
    forall i, j :: 0 <= i < j < |segs| ==> RoundUp(segs[i].End(), PAGE) <= RoundDown(segs[j].pva, PAGE)
  }

  /** The segment is in place: its pages mapped with its rights, the file part read as
      the image, the rest as zeros. */
  ghost predicate Placed(m: Memory, root: int, s: Segment)
  {
    && Loadable(s)
    && var va := RoundDown(s.pva, PAGE);
    && PagesMapped(m, root, va, s.End(), if s.writable then 7 else 5)
    && Reads(m, root, va, s.src, s.pva + s.filesz - va)
    && forall v :: s.pva + s.filesz <= v < s.End() ==> ReadVirtual(m, root, v) == Some(0)
  }

  ghost predicate AllPlaced(m: Memory, root: int, segs: seq<Segment>, n: int)
  {
    forall j :: 0 <= j < n && j < |segs| ==> Placed(m, root, segs[j])
  }

  /** A segment below the range a step touches stays in place. */
  lemma PlacedKept(m: Memory, m2: Memory, root: int, s: Segment, va: int, hi: int)
    requires Loadable(s) && Placed(m, root, s) && ElsewhereKept(m, m2, root, va, hi) && s.End() <= va
    ensures Placed(m2, root, s)
  {
    var lo, flags := RoundDown(s.pva, PAGE), if s.writable then 7 else 5;
    SegmentStart(s);
    MappedKept(m, m2, root, lo, s.End(), va, hi, flags);
    hide Leaf, FrameAt, ReadVirtual, RoundDown, PagesMapped;
  }

  lemma SegmentStart(s: Segment)
    requires Loadable(s)
    ensures PROC_START_ADDR <= RoundDown(s.pva, PAGE) <= s.pva && s.End() <= MEMSIZE_VIRTUAL
  {
  }

  lemma MappedKept(m: Memory, m2: Memory, root: int, lo: int, end: int, va: int, hi: int, flags: int)
    requires PagesMapped(m, root, lo, end, flags) && ElsewhereKept(m, m2, root, va, hi) && end <= va
    ensures PagesMapped(m2, root, lo, end, flags)
  {
    hide Leaf, ReadVirtual;
    forall v | UserPage(v) && lo <= v < end
      ensures FrameAt(m2, root, v) == FrameAt(m, root, v) && Leaf(m2, root, v) == Leaf(m, root, v)
    {
      FrameAtSame(m, m2, root, v);
    }
  }

  lemma AllPlacedKept(m: Memory, m2: Memory, root: int, segs: seq<Segment>, n: int, va: int, hi: int)
    requires forall s :: s in segs ==> Loadable(s)
    requires AllPlaced(m, root, segs, n) && ElsewhereKept(m, m2, root, va, hi)
    requires forall j :: 0 <= j < n && j < |segs| ==> segs[j].End() <= va
    ensures AllPlaced(m2, root, segs, n)
  {
    hide Placed, ElsewhereKept, Loadable;
    forall j | 0 <= j < n && j < |segs|
      ensures Placed(m2, root, segs[j])
    {
      PlacedKept(m, m2, root, segs[j], va, hi);
    }
  }

  lemma EarlierBelow(segs: seq<Segment>, i: int)
    requires 0 <= i < |segs| && PageDisjoint(segs)
    ensures forall j :: 0 <= j < i ==> segs[j].End() <= RoundDown(segs[i].pva, PAGE)
  {
    forall j | 0 <= j < i
      ensures segs[j].End() <= RoundDown(segs[i].pva, PAGE)
    {
      assert segs[j].End() <= RoundUp(segs[j].End(), PAGE);
    }
  }

  /** The frames a program's first n segments take. */
  function ProgramPages(segs: seq<Segment>, n: nat): nat
    requires n <= |segs|
  {
    if n == 0 then 0
    else ProgramPages(segs, n - 1) + PageCount(RoundDown(segs[n - 1].pva, PAGE), segs[n - 1].End())
  }

  lemma {:induction false} PagesGrow(segs: seq<Segment>, i: nat, n: nat)
    requires i <= n <= |segs|
    ensures ProgramPages(segs, i) <= ProgramPages(segs, n)
    decreases n
  {
    if i < n {
      PagesGrow(segs, i, n - 1);
    }
  }

  lemma AbsentAll(m: Memory, root: int)
    requires LowMapped(m, root)
    ensures PagesAbsent(m, root, PROC_START_ADDR, MEMSIZE_VIRTUAL)
  {
    LowMappedMeans(m, root);
  }

  lemma AbsentPart(m: Memory, root: int, lo: int, hi: int, lo2: int, hi2: int)
    requires PagesAbsent(m, root, lo, hi) && lo <= lo2 && hi2 <= hi
    ensures PagesAbsent(m, root, lo2, hi2)
  {
    hide FrameAt;
  }

  lemma AbsentAfter(m: Memory, m2: Memory, root: int, va: int, brk: int, lo: int, hi: int)
    requires PagesAbsent(m, root, lo, hi) && ElsewhereKept(m, m2, root, va, brk) && hi <= MEMSIZE_VIRTUAL
    requires PROC_START_ADDR <= lo <= brk
    ensures PagesAbsent(m2, root, brk, hi)
  {
    hide Leaf, ReadVirtual;
  }

  lemma AbsentBelow(m: Memory, m2: Memory, root: int, lo: int, hi: int)
    requires PagesAbsent(m, root, lo, MEMSIZE_VIRTUAL) && ElsewhereKept(m, m2, root, hi, MEMSIZE_VIRTUAL)
    requires hi <= MEMSIZE_VIRTUAL
    ensures PagesAbsent(m2, root, lo, hi)
  {
    hide Leaf, ReadVirtual;
  }

  /** With no frame left the stack is mapped to frame 0, which is no frame of the process:
      the accounting fails. */
  lemma NullStackBreaks(m: Memory, m2: Memory, info: seq<PageInfo>, tabs: map<int, Tables>, pid: int)
    requires KInv(m, info, tabs, {}) && pid in tabs && FrameAt(m, tabs[pid].root, STACK_PAGE) == -1
    requires LeafSet(m, m2, tabs[pid].root, STACK_PAGE, 7)
    ensures FrameAt(m2, tabs[pid].root, STACK_PAGE) == 0 && !KInv(m2, info, tabs, {})
  {
    hide FrameAt, KInv, LeafSet;
    var t := tabs[pid];
    assert UserPage(STACK_PAGE) && FrameOf(7) == 0;
    FramesAfter(m, m2, t.root, STACK_PAGE, 7);
    SizeOf(m, info, tabs, {});
    if info[0] == PageInfo(pid, 1) {
      OwnerPositive(m, info, tabs, {}, pid);
      FrameZeroInUse(m, info, tabs, pid);
      var v :| UserPage(v) && FrameAt(m, t.root, v) == 0;
      SharedFrame(m2, info, tabs, pid, v, STACK_PAGE);
    } else {
      StrangeFrame(m2, info, tabs, pid, STACK_PAGE);
    }
  }

  /** A process that maps frame 0 without owning it breaks the accounting. */
  lemma StrangeFrame(m: Memory, info: seq<PageInfo>, tabs: map<int, Tables>, pid: int, v: int)
    requires pid in tabs && UserPage(v) && FrameAt(m, tabs[pid].root, v) == 0
    requires |info| == NPAGES && info[0] != PageInfo(pid, 1)
    ensures !KInv(m, info, tabs, {})
  {
    hide FrameAt, Tree, Covers, LowIdentity, PagesDistinct, TablesOwned, Accounted;
    assert !PagesOwned(m, info, pid, tabs[pid], {});
  }

  lemma FrameZeroInUse(m: Memory, info: seq<PageInfo>, tabs: map<int, Tables>, pid: int)
    requires KInv(m, info, tabs, {}) && pid in tabs && |info| == NPAGES && info[0] == PageInfo(pid, 1) && 0 < pid
    ensures exists v :: UserPage(v) && FrameAt(m, tabs[pid].root, v) == 0
  {
    assert ProcInv(m, info, pid, tabs[pid], {});
    assert 0 !in tabs[pid].lay;
    hide FrameAt, ProcInv;
    assert InUse(m, 0, tabs[pid]);
  }

  /** So does one frame at two of its pages. */
  lemma SharedFrame(m: Memory, info: seq<PageInfo>, tabs: map<int, Tables>, pid: int, v: int, w: int)
    requires pid in tabs && UserPage(v) && UserPage(w) && v != w
    requires FrameAt(m, tabs[pid].root, v) == FrameAt(m, tabs[pid].root, w) >= 0
    ensures !KInv(m, info, tabs, {})
  {
    hide FrameAt, Tree, Covers, LowIdentity, PagesOwned, TablesOwned, Accounted;
    assert !PagesDistinct(m, tabs[pid].root);
  }

  /** process_setup_stack maps whatever palloc returns: the first free frame, or NULL, frame 0. */
  method SetupStack(k: System, pid: int)
    requires k.Valid() && pid in k.tabs && FrameAt(k.phys.mem, k.tabs[pid].root, STACK_PAGE) == -1
    modifies k.phys, k`info
    ensures OthersKept(old(k.phys.mem), k.phys.mem, k.tabs, pid)
    ensures ElsewhereKept(old(k.phys.mem), k.phys.mem, k.tabs[pid].root, STACK_PAGE, MEMSIZE_VIRTUAL)
    ensures HeldKept(old(k.phys.mem), old(k.info), k.phys.mem, k.info)
    ensures var f := FirstFree(old(k.info), 1);
            && LeafSet(old(k.phys.mem), k.phys.mem, k.tabs[pid].root, STACK_PAGE,
                       if f < NPAGES then f * PAGE + 7 else 7)
            && k.info == (if f < NPAGES then old(k.info)[f := PageInfo(pid, 1)] else old(k.info))
            && (k.Valid() <==> f < NPAGES)
  {
    hide ElsewhereKept, KInv, Leaf, FrameAt, UserKept, LeafSet, OnlyLeafTables, Tree, Filled, SameOutside;
    hide HeldKept;
    ghost var m0, i0 := k.phys.mem, k.info;
    var pa := k.Palloc(pid, {});
    ghost var m1, loose := k.phys.mem, Taken(pa);
    FrameAtSame(m0, m1, k.tabs[pid].root, STACK_PAGE);
    assert {} + loose == loose && loose - loose == {};
    var r := k.SetPage(pid, STACK_PAGE, pa, 7, loose);
    ghost var m2 := k.phys.mem;
    EntryFrameOf(pa, 7);
    TableWriteUnseen(m1, m2, k.info, k.tabs, loose, pid);
    HeldByTables(m1, m2, k.info, k.tabs, loose, pid);
    HeldTwice(m0, i0, m1, k.info, m2, k.info);
    LeafSetAfter(m0, m1, m2, k.tabs[pid].root, STACK_PAGE, pa + 7);
    OthersTwice(m0, m1, m2, k.tabs, pid);
    ElsewhereOne(m0, m1, m2, k.tabs, k.info, loose, pid, STACK_PAGE, pa);
    if pa == 0 {
      NullStackBreaks(m1, m2, k.info, k.tabs, pid);
    } else {
      MapLoose(m1, m2, k.info, k.tabs, loose, pid, pa / PAGE, STACK_PAGE, pa + 7);
    }
  }

  /** program_load: every segment in turn; stops with -1 when frames run out. */
  method LoadProgram(k: System, pid: int, segs: seq<Segment>) returns (r: int)
    requires k.Valid() && pid in k.tabs && k.procs[pid].state == Free && segs != []
    requires PageDisjoint(segs) && forall s :: s in segs ==> Loadable(s)
    requires PagesAbsent(k.phys.mem, k.tabs[pid].root, PROC_START_ADDR, MEMSIZE_VIRTUAL)
    modifies k.phys, k`info, k`procs
    ensures k.Valid() && OthersKept(old(k.phys.mem), k.phys.mem, k.tabs, pid)
    ensures HeldKept(old(k.phys.mem), old(k.info), k.phys.mem, k.info)
    ensures r == 0 ==>
              var brk := RoundUp(segs[|segs| - 1].End(), PAGE);
              && k.procs == old(k.procs)[pid := old(k.procs)[pid].(originalBreak := brk, programBreak := brk)]
              && PagesAbsent(k.phys.mem, k.tabs[pid].root, brk, MEMSIZE_VIRTUAL)
              && AllPlaced(k.phys.mem, k.tabs[pid].root, segs, |segs|)
    ensures r != 0 ==> |k.procs| == NPROC && k.procs[pid].state == Free
                       && forall q :: 0 <= q < NPROC && q != pid ==> k.procs[q] == old(k.procs)[q]
    ensures var need := ProgramPages(segs, |segs|);
            && r == (if need <= |FreeFrames(old(k.info))| then 0 else -1)
            && |FreeFrames(k.info)| == if r == 0 then |FreeFrames(old(k.info))| - need else 0
  {
    hide FreeFrames, PageCount, Unshifted;
    hide KInv, Leaf, FrameAt, ReadVirtual, UserKept, PagesAbsent, PagesFresh, PagesMapped, Reads, ElsewhereKept;
    hide RoundUp, RoundDown, FirstFree, AllPlaced, HeldKept;
    ghost var m0, i0, root := k.phys.mem, k.info, k.tabs[pid].root;
    NothingHeld(m0, i0);
    ghost var top := PROC_START_ADDR;
    NothingKept(m0, k.tabs, pid);
    NonePlaced(m0, root, segs);
    var i := 0;
    while i < |segs|
      invariant 0 <= i <= |segs| && k.Valid() && OthersKept(m0, k.phys.mem, k.tabs, pid)
      invariant |FreeFrames(k.info)| + ProgramPages(segs, i) == |FreeFrames(old(k.info))|
      invariant HeldKept(m0, i0, k.phys.mem, k.info)
      invariant PROC_START_ADDR <= top && (i == 0 ==> top == PROC_START_ADDR && k.procs == old(k.procs))
      invariant 0 < i ==> top == RoundUp(segs[i - 1].End(), PAGE)
      invariant 0 < i ==> k.procs == old(k.procs)[pid := old(k.procs)[pid].(originalBreak := top, programBreak := top)]
      invariant PagesAbsent(k.phys.mem, root, top, MEMSIZE_VIRTUAL) && AllPlaced(k.phys.mem, root, segs, i)
    {
      var s := segs[i];
      ghost var m, j := k.phys.mem, k.info;
      assert Loadable(s);
      SegmentFits(segs, i, top);
      AbsentPart(m, root, top, MEMSIZE_VIRTUAL, RoundDown(s.pva, PAGE), s.End());
      r := LoadSegment(k, pid, s.pva, s.filesz, s.memsz, s.writable, s.src);
      OthersTwice(m0, m, k.phys.mem, k.tabs, pid);
      HeldTwice(m0, i0, m, j, k.phys.mem, k.info);
      PagesGrow(segs, i + 1, |segs|);
      if r != 0 {
        return;
      }
      AbsentAfter(m, k.phys.mem, root, RoundDown(s.pva, PAGE), RoundUp(s.End(), PAGE), top, MEMSIZE_VIRTUAL);
      EarlierBelow(segs, i);
      AllPlacedKept(m, k.phys.mem, root, segs, i, RoundDown(s.pva, PAGE), RoundUp(s.End(), PAGE));
      OneMorePlaced(k.phys.mem, root, segs, i);
      top := RoundUp(s.End(), PAGE);
      i := i + 1;
    }
    return 0;
  }

  lemma NonePlaced(m: Memory, root: int, segs: seq<Segment>)
    requires forall s :: s in segs ==> Loadable(s)
    ensures AllPlaced(m, root, segs, 0)
  {
  }

  lemma OneMorePlaced(m: Memory, root: int, segs: seq<Segment>, i: int)
    requires 0 <= i < |segs| && AllPlaced(m, root, segs, i) && Placed(m, root, segs[i])
    ensures AllPlaced(m, root, segs, i + 1)
  {
    hide Placed, Loadable;
  }

  lemma SegmentFits(segs: seq<Segment>, i: int, top: int)
    requires 0 <= i < |segs| && PageDisjoint(segs) && Loadable(segs[i])
    requires if i == 0 then top == PROC_START_ADDR else top == RoundUp(segs[i - 1].End(), PAGE)
    ensures top <= RoundDown(segs[i].pva, PAGE) && top <= RoundUp(segs[i].End(), PAGE)
    ensures PROC_START_ADDR <= RoundUp(segs[i].End(), PAGE)
  {
  }

  /** The frames process_setup takes before the stack. */
  function Demand(segs: seq<Segment>): nat
  {
    TABLE_PAGES + ProgramPages(segs, |segs|)
  }

  /** process_setup: tables, program, stack, then runnable. -1 stands for the panic of its two
      asserts, which fire exactly when the frames do not suffice for tables and program. The stack
      is not asserted: with exactly those frames free, it is frame 0, and the accounting fails. */
  method ProcessSetup(k: System, pid: int, segs: seq<Segment>) returns (r: int)
    requires k.Valid() && 0 < pid < NPROC && pid !in k.tabs && k.procs[pid].state == Free && segs != []
    requires PageDisjoint(segs) && forall s :: s in segs ==> Loadable(s)
    modifies k.phys, k`info, k`procs, k`tabs
    ensures AllKept(old(k.phys.mem), k.phys.mem, old(k.tabs))
    ensures HeldKept(old(k.phys.mem), old(k.info), k.phys.mem, k.info)
    ensures r == if Demand(segs) <= |FreeFrames(old(k.info))| then 0 else -1
    ensures r != 0 ==> k.Valid()
    ensures r == 0 ==>
              && pid in k.tabs && k.tabs == old(k.tabs)[pid := k.tabs[pid]]
              && |k.procs| == NPROC && k.procs[pid].state == Runnable && Breaks(k.procs[pid])
              && k.procs[pid].programBreak == k.procs[pid].originalBreak == RoundUp(segs[|segs| - 1].End(), PAGE)
              && AllPlaced(k.phys.mem, k.tabs[pid].root, segs, |segs|)
              && PagesAbsent(k.phys.mem, k.tabs[pid].root, k.procs[pid].originalBreak, STACK_PAGE)
              && (forall q :: 0 <= q < NPROC && q != pid ==> k.procs[q] == old(k.procs)[q])
    ensures r == 0 ==>
              var left := |FreeFrames(old(k.info))| - Demand(segs);
              && (k.Valid() <==> 0 < left)
              && (left == 0 <==> FrameAt(k.phys.mem, k.tabs[pid].root, STACK_PAGE) == 0)
              && FrameAt(k.phys.mem, k.tabs[pid].root, STACK_PAGE) >= 0
              && (0 < left ==> |FreeFrames(k.info)| == left - 1)
  {
    hide Loadable, PageDisjoint, ProgramPages;
    hide AllPlaced, ElsewhereKept, FreeFrames, KInv, Leaf, FrameAt, UserKept, PagesAbsent, LowMapped, RoundUp;
    hide RoundDown;
    hide FirstFree, LeafSet, OthersKept, HeldKept;
    ghost var m0, i0, t0 := k.phys.mem, k.info, k.tabs;
    r := ConfigTables(k, pid);
    if r != 0 {
      return;
    }
    ghost var m1, i1 := k.phys.mem, k.info;
    AbsentAll(m1, k.tabs[pid].root);
    r := LoadProgram(k, pid, segs);
    OthersAreAll(m1, k.phys.mem, t0, k.tabs, pid);
    AllTwice(m0, m1, k.phys.mem, t0);
    HeldTwice(m0, i0, m1, i1, k.phys.mem, k.info);
    if r != 0 {
      return;
    }
    ghost var m2, i2 := k.phys.mem, k.info;
    BreakBelowStack(segs);
    StackAbsent(m2, k.tabs[pid].root, RoundUp(segs[|segs| - 1].End(), PAGE));
    OneTaken(i2, pid);
    StackFrame(i2);
    SetupStack(k, pid);
    OthersAreAll(m2, k.phys.mem, t0, k.tabs, pid);
    AllTwice(m0, m2, k.phys.mem, t0);
    HeldTwice(m0, i0, m2, i2, k.phys.mem, k.info);
    AbsentBelow(m2, k.phys.mem, k.tabs[pid].root, RoundUp(segs[|segs| - 1].End(), PAGE), STACK_PAGE);
    StackMapped(m2, k.phys.mem, k.tabs[pid].root, FirstFree(i2, 1));
    AllBelowStack(segs);
    AllPlacedKept(m2, k.phys.mem, k.tabs[pid].root, segs, |segs|, STACK_PAGE, MEMSIZE_VIRTUAL);
    k.procs := k.procs[pid := k.procs[pid].(state := Runnable)];
    return 0;
  }

  lemma OthersAreAll(m: Memory, m2: Memory, t0: map<int, Tables>, tabs: map<int, Tables>, pid: int)
    requires OthersKept(m, m2, tabs, pid) && pid in tabs && pid !in t0 && tabs == t0[pid := tabs[pid]]
    ensures AllKept(m, m2, t0)
  {
    hide UserKept;
    forall q | q in t0
      ensures UserKept(m, m2, t0[q].root)
    {
      assert q in tabs && tabs[q] == t0[q];
    }
  }

  lemma BreakBelowStack(segs: seq<Segment>)
    requires segs != [] && forall s :: s in segs ==> Loadable(s)
    ensures var brk := RoundUp(segs[|segs| - 1].End(), PAGE);
            PROC_START_ADDR <= brk <= STACK_PAGE && brk % PAGE == 0
  {
    assert Loadable(segs[|segs| - 1]);
  }

  lemma AllBelowStack(segs: seq<Segment>)
    requires forall s :: s in segs ==> Loadable(s)
    ensures forall j :: 0 <= j < |segs| ==> segs[j].End() <= STACK_PAGE
  {
    forall j | 0 <= j < |segs|
      ensures segs[j].End() <= STACK_PAGE
    {
      assert Loadable(segs[j]);
    }
  }

  lemma StackAbsent(m: Memory, root: int, brk: int)
    requires PagesAbsent(m, root, brk, MEMSIZE_VIRTUAL) && brk <= STACK_PAGE
    ensures FrameAt(m, root, STACK_PAGE) == -1
  {
    hide FrameAt;
    assert UserPage(STACK_PAGE);
  }

  lemma StackFrame(info: seq<PageInfo>)
    requires |info| == NPAGES
    ensures 1 <= FirstFree(info, 1) <= NPAGES
  {
    hide FirstFree;
  }

  lemma StackMapped(m: Memory, m2: Memory, root: int, f: nat)
    requires LeafSet(m, m2, root, STACK_PAGE, if f < NPAGES then f * PAGE + 7 else 7) && 1 <= f
    ensures FrameAt(m2, root, STACK_PAGE) == if f < NPAGES then f else 0
  {
    FramesAfter(m, m2, root, STACK_PAGE, if f < NPAGES then f * PAGE + 7 else 7);
  }

  // ----- the kernel's start -----------------------------------------------------------------------

  /** A program the loader can place. */
  ghost predicate Program(segs: seq<Segment>)
  {
    segs != [] && PageDisjoint(segs) && forall s :: s in segs ==> Loadable(s)
  }

  /** The frames the first n programs take, stacks included. */
  function TotalDemand(programs: seq<seq<Segment>>, n: nat): nat
    requires n <= |programs|
  {
    if n == 0 then 0 else TotalDemand(programs, n - 1) + Demand(programs[n - 1]) + 1
  }

  lemma {:induction false} DemandGrows(programs: seq<seq<Segment>>, i: nat, n: nat)
    requires i <= n <= |programs|
    ensures TotalDemand(programs, i) <= TotalDemand(programs, n)
    decreases n
  {
    if i < n {
      DemandGrows(programs, i, n - 1);
    }
  }

  /** Page ownership after boot. */
  function BootInfo(reserved: set<int>, kernelEnd: int): seq<PageInfo>
  {
    seq(NPAGES, pn => InitialInfo(pn, reserved, kernelEnd))
  }

  /** Processes 1 to n have page tables, and each has its program in place. */
  ghost predicate InPlace(m: Memory, tabs: map<int, Tables>, programs: seq<seq<Segment>>, n: nat)
  {
    && n <= |programs| && (forall pid :: pid in tabs <==> 1 <= pid <= n)
    && forall pid :: 1 <= pid <= n ==> AllPlaced(m, tabs[pid].root, programs[pid - 1], |programs[pid - 1]|)
  }

  /** They are set up, and the other slots are free. */
  ghost predicate Loaded(k: System, programs: seq<seq<Segment>>, n: nat)
    reads k, k.phys
  {
    && k.Valid() && k.Settled() && InPlace(k.phys.mem, k.tabs, programs, n)
    && forall pid :: n < pid < NPROC ==> k.procs[pid].state == Free
  }

  /** The kernel's tables: five pages of its data, none of them reserved. */
  predicate TablesPlaced(root: int, reserved: set<int>, kernelEnd: int)
  {
    && root % PAGE == 0 && KERNEL_START_ADDR <= root
    && root + TABLE_PAGES * PAGE <= kernelEnd && kernelEnd <= MEMSIZE_PHYSICAL
    && forall pa :: pa in reserved ==> !(root <= pa < root + TABLE_PAGES * PAGE)
  }

  /** The layout of those five pages. */
  function KernelLayout(root: int): Layout
  {
    SetupLayout(root, root + PAGE, root + 2 * PAGE, root + 3 * PAGE, root + 4 * PAGE)
  }

  /** kernel(): build the kernel's tables, set up a process for each program, then run the first and whatever
      it and the others do. With frames for every program and its stack, every state of the run keeps the
      accounting and passes the kernel's own checks, from a start where every program is in place. */
  method Start(memory: PhysicalMemory, kernelTable: int, reserved: set<int>, kernelEnd: int,
               programs: seq<seq<Segment>>, events: seq<Event>)
    returns (k: System, halted: bool, ghost trace: seq<Snapshot>)
    requires |memory.mem| == MEMSIZE_PHYSICAL && TablesPlaced(kernelTable, reserved, kernelEnd)
    requires 1 <= |programs| < NPROC && forall p :: p in programs ==> Program(p)
    requires TotalDemand(programs, |programs|) <= |FreeFrames(BootInfo(reserved, kernelEnd))|
    requires forall ev :: ev in events ==> WellFormed(ev)
    modifies memory
    ensures fresh(k) && k.Valid() && IsTrace(trace, events, halted) && trace[|trace| - 1] == k.Now()
    ensures trace[0].current == 1 && InPlace(trace[0].mem, trace[0].tabs, programs, |programs|)
    ensures forall i :: 0 <= i < |trace| ==> CheckPasses(trace[i], kernelTable)
    ensures forall i :: 0 <= i < |trace| ==> KernelKept(old(memory.mem), trace[i].mem, kernelTable, kernelEnd)
    ensures forall i :: 0 <= i < |trace| ==>
              SameBytes(trace[0].mem, trace[i].mem, kernelTable, kernelTable + TABLE_PAGES * PAGE)
  {
    hide KInv, AllPlaced, Loadable, PageDisjoint, FreeFrames, Demand, KernelTables, CheckPasses, HeldKept, KernelKept;
    hide SameBytes;
    ghost var m1;
    k, m1 := Prepare(memory, kernelTable, reserved, kernelEnd, programs);
    k.current := 1;
    halted, trace := k.Run(events);
    ghost var boot := BootInfo(reserved, kernelEnd);
    forall i | 0 <= i < |trace|
      ensures CheckPasses(trace[i], kernelTable)
      ensures KernelKept(old(memory.mem), trace[i].mem, kernelTable, kernelEnd)
      ensures SameBytes(trace[0].mem, trace[i].mem, kernelTable, kernelTable + TABLE_PAGES * PAGE)
    {
      KernelRuns.KernelFramesKept(trace, events, halted, 0, i);
      HeldTwice(m1, boot, trace[0].mem, trace[0].info, trace[i].mem, trace[i].info);
      HeldIsKernel(old(memory.mem), m1, trace[i].mem, trace[i].info, kernelTable, reserved, kernelEnd);
      TablePagesHeld(m1, boot, trace[0].mem, trace[0].info, trace[i].mem, trace[i].info, kernelTable, reserved,
                     kernelEnd);
      KernelRuns.ChecksPass(trace, events, halted, i, kernelTable, KernelLayout(kernelTable));
    }
  }

  /** The kernel's image, its tables aside, and its stack hold the same bytes. */
  ghost predicate KernelKept(m: Memory, m2: Memory, kernelTable: int, kernelEnd: int)
  {
    |m2| == |m| && forall a :: 0 <= a < |m| && KernelByte(a, kernelTable, kernelEnd) ==> m2[a] == m[a]
  }

  predicate KernelByte(a: int, kernelTable: int, kernelEnd: int)
  {
    (0x40000 <= a < kernelEnd || 0x7F000 <= a < 0x80000) && !(kernelTable <= a < kernelTable + 5 * 4096)
  }

  /** All of that lies in frames boot gives to the kernel or reserves. */
  lemma HeldIsKernel(m: Memory, m1: Memory, m2: Memory, info2: seq<PageInfo>, kernelTable: int, reserved: set<int>,
                     kernelEnd: int)
    requires |m| == MEMSIZE_PHYSICAL && SameOutside(m, m1, kernelTable, kernelTable + TABLE_PAGES * PAGE)
    requires HeldKept(m1, BootInfo(reserved, kernelEnd), m2, info2)
    ensures KernelKept(m, m2, kernelTable, kernelEnd)
  {
    forall a | 0 <= a < |m| && KernelByte(a, kernelTable, kernelEnd)
      ensures m2[a] == m[a]
    {
      HeldByte(a, reserved, kernelEnd);
    }
  }

  lemma HeldByte(a: int, reserved: set<int>, kernelEnd: int)
    requires 0 <= a < MEMSIZE_PHYSICAL && (0x40000 <= a < kernelEnd || 0x7F000 <= a < 0x80000)
    ensures 0 <= a / PAGE < NPAGES && BootInfo(reserved, kernelEnd)[a / PAGE].owner < 0
    ensures a / PAGE * PAGE <= a < a / PAGE * PAGE + PAGE
  {
  }

  lemma TablePagesHeld(m1: Memory, boot: seq<PageInfo>, m: Memory, info: seq<PageInfo>, m2: Memory,
                       info2: seq<PageInfo>, kernelTable: int, reserved: set<int>, kernelEnd: int)
    requires boot == BootInfo(reserved, kernelEnd) && TablesPlaced(kernelTable, reserved, kernelEnd)
    requires HeldKept(m1, boot, m, info) && HeldKept(m, info, m2, info2)
    ensures SameBytes(m, m2, kernelTable, kernelTable + TABLE_PAGES * PAGE)
  {
    forall a | 0 <= a < |m| && kernelTable <= a < kernelTable + TABLE_PAGES * PAGE
      ensures m2[a] == m[a]
    {
      HeldByte(a, reserved, kernelEnd);
      assert info[a / PAGE] == boot[a / PAGE];
    }
  }

  /** Everything before the first process runs. */
  method Prepare(memory: PhysicalMemory, kernelTable: int, reserved: set<int>, kernelEnd: int,
                 programs: seq<seq<Segment>>)
    returns (k: System, ghost m1: Memory)
    requires |memory.mem| == MEMSIZE_PHYSICAL && TablesPlaced(kernelTable, reserved, kernelEnd)
    requires |programs| < NPROC && forall p :: p in programs ==> Program(p)
    requires TotalDemand(programs, |programs|) <= |FreeFrames(BootInfo(reserved, kernelEnd))|
    modifies memory
    ensures fresh(k) && k.phys == memory && Loaded(k, programs, |programs|)
    ensures KernelTables(k.phys.mem, k.info, kernelTable, KernelLayout(kernelTable))
    ensures SameOutside(old(memory.mem), m1, kernelTable, kernelTable + TABLE_PAGES * PAGE)
    ensures HeldKept(m1, BootInfo(reserved, kernelEnd), k.phys.mem, k.info)
  {
    hide KInv, AllPlaced, Loadable, PageDisjoint, FreeFrames, Demand, KernelTables, HeldKept, Follow, MappingOf;
    hide Tree, SetupLayout, Orderly, SameOutside;
    VirtualMemoryInit(memory, kernelTable);
    m1 := memory.mem;
    NothingHeld(m1, BootInfo(reserved, kernelEnd));
    k := new System(memory, reserved, kernelEnd);
    assert k.info == BootInfo(reserved, kernelEnd);
    TablesAtBoot(memory.mem, kernelTable, reserved, kernelEnd);
    var n := 0;
    while n < |programs|
      invariant 0 <= n <= |programs| && Loaded(k, programs, n) && fresh(k) && k.phys == memory
      invariant |FreeFrames(k.info)| + TotalDemand(programs, n) == |FreeFrames(BootInfo(reserved, kernelEnd))|
      invariant KernelTables(k.phys.mem, k.info, kernelTable, KernelLayout(kernelTable))
      invariant HeldKept(m1, BootInfo(reserved, kernelEnd), k.phys.mem, k.info)
      modifies k, memory
    {
      DemandGrows(programs, n + 1, |programs|);
      assert Program(programs[n]);
      ghost var m, i := k.phys.mem, k.info;
      SetUpNext(k, programs, n);
      KernelTablesKept(m, i, k.phys.mem, k.info, kernelTable, KernelLayout(kernelTable));
      HeldTwice(m1, BootInfo(reserved, kernelEnd), m, i, k.phys.mem, k.info);
      n := n + 1;
    }
  }

  /** The kernel's tables as virtual_memory_init leaves them, with the frames' owners from boot. */
  lemma TablesAtBoot(m: Memory, root: int, reserved: set<int>, kernelEnd: int)
    requires |m| == MEMSIZE_PHYSICAL && TablesPlaced(root, reserved, kernelEnd) && Tree(m, root, KernelLayout(root))
    requires forall va :: 0 <= va < MEMSIZE_PHYSICAL ==>
               Lookup(m, root, va) == Mapping(va / PAGE, va, 7)
    ensures KernelTables(m, BootInfo(reserved, kernelEnd), root, KernelLayout(root))
  {
    hide Tree, Follow, MappingOf;
  }

  /** One more process. */
  method SetUpNext(k: System, programs: seq<seq<Segment>>, n: nat)
    requires (forall p :: p in programs ==> Program(p)) && n < |programs| < NPROC && Loaded(k, programs, n)
    requires Demand(programs[n]) < |FreeFrames(k.info)|
    modifies k.phys, k`info, k`procs, k`tabs
    ensures Loaded(k, programs, n + 1) && HeldKept(old(k.phys.mem), old(k.info), k.phys.mem, k.info)
    ensures |FreeFrames(k.info)| == |FreeFrames(old(k.info))| - Demand(programs[n]) - 1
  {
    hide KInv, AllPlaced, Loadable, PageDisjoint, FreeFrames, Demand, AllKept, HeldKept, PagesAbsent;
    assert Program(programs[n]);
    ghost var m, tabs := k.phys.mem, k.tabs;
    var r := ProcessSetup(k, n + 1, programs[n]);
    OneMoreInPlace(m, k.phys.mem, tabs, k.tabs, programs, n);
  }

  lemma OneMoreInPlace(m: Memory, m2: Memory, tabs: map<int, Tables>, tabs2: map<int, Tables>,
                       programs: seq<seq<Segment>>, n: nat)
    requires (forall p :: p in programs ==> Program(p)) && n < |programs| && InPlace(m, tabs, programs, n)
    requires n + 1 in tabs2 && tabs2 == tabs[n + 1 := tabs2[n + 1]] && AllKept(m, m2, tabs)
    requires AllPlaced(m2, tabs2[n + 1].root, programs[n], |programs[n]|)
    ensures InPlace(m2, tabs2, programs, n + 1)
  {
    hide AllPlaced, Loadable, PageDisjoint, AllKept;
    forall pid | 1 <= pid <= n
      ensures AllPlaced(m2, tabs2[pid].root, programs[pid - 1], |programs[pid - 1]|)
    {
      assert Program(programs[pid - 1]);
      StaysPlaced(m, m2, tabs, pid, programs[pid - 1]);
    }
  }

  /** What another process's set-up keeps includes a program in place. */
  lemma StaysPlaced(m: Memory, m2: Memory, tabs: map<int, Tables>, pid: int, segs: seq<Segment>)
    requires (forall s :: s in segs ==> Loadable(s)) && pid in tabs && AllKept(m, m2, tabs)
    requires AllPlaced(m, tabs[pid].root, segs, |segs|)
    ensures AllPlaced(m2, tabs[pid].root, segs, |segs|)
  {
    assert UserKept(m, m2, tabs[pid].root);
    KeptElsewhere(m, m2, tabs[pid].root);
    AllBelowStack(segs);
    hide AllKept, UserKept, AllPlaced, ElsewhereKept, Loadable;
    AllPlacedKept(m, m2, tabs[pid].root, segs, |segs|, MEMSIZE_VIRTUAL, MEMSIZE_VIRTUAL);
  }

  lemma KeptElsewhere(m: Memory, m2: Memory, root: int)
    requires UserKept(m, m2, root)
    ensures ElsewhereKept(m, m2, root, MEMSIZE_VIRTUAL, MEMSIZE_VIRTUAL)
  {
    hide Leaf, ReadVirtual;
  }

  /** A program that takes exactly the last frames: its process ends up runnable on frame 0. */
  method TakeLastFrames(k: System, pid: int)
    requires k.Valid() && 0 < pid < NPROC && pid !in k.tabs && k.procs[pid].state == Free
    requires TABLE_PAGES < |FreeFrames(k.info)|
    modifies k.phys, k`info, k`procs, k`tabs
    ensures pid in k.tabs && |k.procs| == NPROC && k.procs[pid].state == Runnable && !k.Valid()
    ensures FrameAt(k.phys.mem, k.tabs[pid].root, STACK_PAGE) == 0
  {
    var count := CountFree(k.info);
    var pages := count - TABLE_PAGES;
    var segs := [Segment(PROC_START_ADDR, 0, pages * PAGE, true, [])];
    OneSegment(pages);
    hide KInv, FreeFrames, ProgramPages, Leaf, FrameAt, AllPlaced, AllKept;
    assert forall s :: s in segs ==> s == segs[0];
    var r := ProcessSetup(k, pid, segs);
  }

  /** Any program that ends two pages below the stack, set up with two frames to spare, loses the first byte of
      its heap this way: its process grows by two bytes, writes one and gives the other back. */
  method LoseFirstByte(k: System, pid: int, segs: seq<Segment>) returns (ghost before: Option<Byte>)
    requires k.Valid() && 0 < pid < NPROC && pid !in k.tabs && k.procs[pid].state == Free && Program(segs)
    requires segs[|segs| - 1].End() <= STACK_PAGE - 2 * PAGE && Demand(segs) + 1 < |FreeFrames(k.info)|
    modifies k.phys, k`info, k`procs, k`tabs
    ensures k.Valid() && pid in k.tabs
    ensures var base := RoundUp(segs[|segs| - 1].End(), PAGE);
            && before == Some(7) && k.procs[pid].programBreak == base + 1
            && ReadVirtual(k.phys.mem, k.tabs[pid].root, base) == None
  {
    hide KInv, AllPlaced, Loadable, PageDisjoint, FreeFrames, Demand, AllKept, HeldKept, PagesAbsent, Leaf, FrameAt;
    hide ReadVirtual, FirstFree;
    var r := ProcessSetup(k, pid, segs);
    BreakBelowStack(segs);
    BreakRounds(segs[|segs| - 1].End());
    AbsentHere(k.phys.mem, k.tabs[pid].root, k.procs[pid].originalBreak, STACK_PAGE);
    OneTaken(k.info, pid);
    StackFrame(k.info);
    before := KernelRuns.LosePartialPage(k, pid);
  }

  lemma BreakRounds(end: int)
    requires end <= STACK_PAGE - 2 * PAGE
    ensures RoundUp(end, PAGE) <= STACK_PAGE - 2 * PAGE
  {
  }

  lemma AbsentHere(m: Memory, root: int, lo: int, hi: int)
    requires PagesAbsent(m, root, lo, hi) && UserPage(lo) && lo < hi
    ensures FrameAt(m, root, lo) == -1
  {
    hide FrameAt;
  }

  lemma OneSegment(pages: nat)
    ensures var segs := [Segment(PROC_START_ADDR, 0, pages * PAGE, true, [])];
            ProgramPages(segs, 1) == pages
  {
    var segs := [Segment(PROC_START_ADDR, 0, pages * PAGE, true, [])];
    assert RoundDown(PROC_START_ADDR, PAGE) == PROC_START_ADDR;
    CountReached(PROC_START_ADDR, pages, segs[0].End());
    assert ProgramPages(segs, 0) == 0;
  }

  /** The number of free frames. */
  method CountFree(info: seq<PageInfo>) returns (n: nat)
    requires 1 <= |info|
    ensures n == |FreeFrames(info)| < |info|
  {
    n := 0;
    var f := 1;
    assert FreeFrames(info[..1]) == {};
    while f < |info|
      invariant 1 <= f <= |info| && n == |FreeFrames(info[..f])| < f
    {
      FreeStep(info, f);
      if info[f] == PageInfo(0, 0) {
        n := n + 1;
      }
      f := f + 1;
    }
    assert info[..f] == info;
  }

  lemma FreeStep(info: seq<PageInfo>, f: nat)
    requires 1 <= f < |info|
    ensures |FreeFrames(info[..f + 1])| == |FreeFrames(info[..f])| + if info[f] == PageInfo(0, 0) then 1 else 0
  {
    var s, t := FreeFrames(info[..f]), FreeFrames(info[..f + 1]);
    assert t == if info[f] == PageInfo(0, 0) then s + {f} else s;
  }
}
