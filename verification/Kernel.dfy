/** The kernel object: page ownership, process descriptors and physical memory, and
    the steps that change them. */
module Kernel {
  import opened Words
  import opened PageTables
  import opened VirtualMemory
  import opened KernelState
  import opened Isolation
  import opened KernelSpec
  import Scheduler

  /** The pages of a process's page tables: one each of levels 1 to 3 and two of level 4. */
  const TABLE_PAGES := 5

  class System {
    const phys: PhysicalMemory
    var info: seq<PageInfo>
    var procs: seq<Proc>
    var current: int
    ghost var tabs: map<int, Tables>

    ghost function Now(): Snapshot
      reads this, phys
    {
      Snapshot(phys.mem, info, procs, current, tabs)
    }

    ghost predicate ValidWith(loose: set<int>)
      reads this, phys
    {
      && |phys.mem| == MEMSIZE_PHYSICAL && |info| == NPAGES && |procs| == NPROC
      && KInv(phys.mem, info, tabs, loose)
      && forall pid :: pid in tabs ==>
           0 < pid < NPROC && procs[pid].pagetable == tabs[pid].root && |tabs[pid].lay| == TABLE_PAGES
           && (procs[pid].state == Runnable ==> Breaks(procs[pid]))
    }

    /** The slots are in order: between set-ups, and whenever a process runs. */
    ghost predicate Settled()
      reads this
    {
      Orderly(procs, tabs)
    }

    /** The current process is runnable. */
    ghost predicate Running()
      reads this
    {
      Settled() && 0 <= current < NPROC && procs[current].state == Runnable
    }

    ghost predicate Valid()
      reads this, phys
    {
      ValidWith({})
    }

    /** pageinfo_init and empty process slots: reserved and kernel frames are held
        once, every other frame is free. */
    constructor (memory: PhysicalMemory, reserved: set<int>, kernelEnd: int)
      requires |memory.mem| == MEMSIZE_PHYSICAL
      ensures Valid() && Settled() && phys == memory && tabs == map[] && current == 0 && fresh(this)
      ensures forall pn :: 0 <= pn < NPAGES ==>
                info[pn] == InitialInfo(pn, reserved, kernelEnd)
      ensures forall pn :: 0 <= pn < 512 ==>
                info[pn] == if pn * 4096 in reserved then PageInfo(-1, 1)
                            else if 0x40000 <= pn * 4096 < kernelEnd || pn == 0x7F then PageInfo(-2, 1)
                            else PageInfo(0, 0)
      ensures FreeFrames(info) ==
                set f | 1 <= f < 512 && f * 4096 !in reserved && !(0x40000 <= f * 4096 < kernelEnd) && f != 0x7F
      ensures forall pid :: 0 <= pid < NPROC ==> procs[pid].state == Free
    {
      phys := memory;
      procs := seq(NPROC, _ => Proc(0, 0, 0, Free));
      current := 0;
      tabs := map[];
      info := [];
      new;
      var addr := 0;
      while addr < MEMSIZE_PHYSICAL
        invariant 0 <= addr <= MEMSIZE_PHYSICAL && addr % PAGE == 0 && |info| == addr / PAGE
        invariant forall pn :: 0 <= pn < |info| ==> info[pn] == InitialInfo(pn, reserved, kernelEnd)
        invariant tabs == map[] && |procs| == NPROC && forall pid :: 0 <= pid < NPROC ==> procs[pid].state == Free
        modifies this`info
      {
        var owner;
        if addr in reserved {
          owner := PO_RESERVED;
        } else if (addr >= KERNEL_START_ADDR && addr < kernelEnd) || addr == KERNEL_STACK_TOP - PAGE {
          owner := PO_KERNEL;
        } else {
          owner := PO_FREE;
        }
        info := info + [PageInfo(owner, if owner != PO_FREE then 1 else 0)];
        addr := addr + PAGE;
      }
    }

    // ----- palloc ------------------------------------------------------------------

    /** The first unowned, unreferenced frame from page 1 on, filled with 0xCC; NULL if none. */
    method Palloc(pid: int, ghost loose: set<int>) returns (pa: int)
      requires ValidWith(loose) && 0 < pid
      modifies phys`mem, this`info
      ensures var f := FirstFree(old(info), 1);
              if f == NPAGES then pa == 0 && info == old(info) && phys.mem == old(phys.mem) && ValidWith(loose)
              else
                && pa == f * PAGE && 0 < pa && info == old(info)[f := PageInfo(pid, 1)] && ValidWith(loose + {f})
                && SameOutside(old(phys.mem), phys.mem, pa, pa + PAGE) && Filled(phys.mem, pa, pa + PAGE, 0xCC)
                && f !in loose
      ensures forall q, v :: q in tabs && 0 <= v < VA_LIMIT ==>
                Leaf(phys.mem, tabs[q].root, v) == Leaf(old(phys.mem), tabs[q].root, v)
      ensures forall q :: q in tabs ==> UserKept(old(phys.mem), phys.mem, tabs[q].root)
      ensures HeldKept(old(phys.mem), old(info), phys.mem, info)
    {
      hide ProcInv, Accounted, LooseOwned, Leaf, FirstFree, ReadVirtual, HeldKept;
      NothingHeld(phys.mem, info);
      var nextPa := PAGE;
      while nextPa <= MEMSIZE_PHYSICAL - 1
        invariant PAGE <= nextPa <= MEMSIZE_PHYSICAL && nextPa % PAGE == 0
        invariant info == old(info) && phys.mem == old(phys.mem)
        invariant FirstFree(info, 1) == FirstFree(info, nextPa / PAGE)
        decreases MEMSIZE_PHYSICAL - nextPa
      {
        pa := nextPa;
        nextPa := nextPa + PAGE;
        FirstFreeStep(info, pa / PAGE);
        if info[pa / PAGE].owner == 0 && info[pa / PAGE].refcount == 0 {
          ghost var m := phys.mem;
          phys.Fill(pa, 0xCC, PAGE);
          AllocFrame(m, phys.mem, info, tabs, loose, pa / PAGE, pid);
          FillUnseen(m, phys.mem, info, tabs, loose, pa / PAGE);
          LooseIsOwned(info, tabs, loose, pa / PAGE);
          HeldByFrame(m, info, phys.mem, info[pa / PAGE := PageInfo(pid, 1)], pa / PAGE);
          info := info[pa / PAGE := PageInfo(pid, 1)];
          return;
        }
      }
      FirstFreeEnd(info);
      return 0;
    }

    // ----- one page of one process -----------------------------------------------------

    /** Look a user page of pid up: its frame and address, or -1. */
    method LookupPage(pid: int, va: int, ghost loose: set<int>) returns (r: Mapping)
      requires ValidWith(loose) && pid in tabs && UserPage(va)
      ensures -1 <= r.pn == FrameAt(phys.mem, tabs[pid].root, va) < NPAGES
      ensures r.pn >= 0 ==> r.pa == r.pn * PAGE && 0 <= r.pa && r.pa + PAGE <= MEMSIZE_PHYSICAL
    {
      hide Accounted, LooseOwned, Tree, Leaf, Follow;
      LookupFrame(phys.mem, info, tabs, loose, pid, va);
      r := phys.VirtualMemoryLookup(procs[pid].pagetable, va);
    }

    /** Set the leaf of one user page of pid through virtual_memory_map. */
    method SetPage(pid: int, va: int, pa: int, perm: int, ghost loose: set<int>) returns (r: int)
      requires ValidWith(loose) && pid in tabs && UserPage(va)
      requires Present(perm) ==> 0 <= pa && pa % PAGE == 0 && pa + PAGE <= MEMSIZE_PHYSICAL
      requires 0 <= perm < PAGE
      modifies phys
      ensures r == 0 && |phys.mem| == MEMSIZE_PHYSICAL
      ensures Tree(phys.mem, tabs[pid].root, tabs[pid].lay)
      ensures LeafSet(old(phys.mem), phys.mem, tabs[pid].root, va, NewEntry(pa, perm, 0))
      ensures OnlyLeafTables(old(phys.mem), phys.mem, tabs[pid].lay)
    {
      hide Accounted, LooseOwned, Leaf, Tree, OnlyLeafTables, MappedRange, WalksKept, LeafSet, NewEntry;
      UserLeaf(phys.mem, info, tabs, loose, pid, va);
      ghost var done;
      r, done := phys.VirtualMemoryMap(procs[pid].pagetable, va, pa, PAGE, perm, tabs[pid].lay);
      assert r != 0 ==> done == 0 && va + done * PAGE == va;
      OnePage(old(phys.mem), phys.mem, tabs[pid].root, va, pa, perm);
    }

    /** A loose frame becomes the page at va. */
    method MapPage(pid: int, va: int, pa: int, ghost loose: set<int>) returns (r: int)
      requires ValidWith(loose) && pid in tabs && UserPage(va) && FrameAt(phys.mem, tabs[pid].root, va) == -1
      requires pa % PAGE == 0 && pa / PAGE in loose && 0 < pa && pa + PAGE <= MEMSIZE_PHYSICAL
      requires info[pa / PAGE].owner == pid
      modifies phys
      ensures r == 0 && ValidWith(loose - {pa / PAGE})
      ensures LeafSet(old(phys.mem), phys.mem, tabs[pid].root, va, pa + 7)
      ensures OnlyLeafTables(old(phys.mem), phys.mem, tabs[pid].lay) && OthersKept(old(phys.mem), phys.mem, tabs, pid)
      ensures HeldKept(old(phys.mem), info, phys.mem, info)
    {
      hide KInv, Leaf, Tree, OnlyLeafTables, LeafSet, UserKept, HeldKept;
      EntryFrameOf(pa, 7);
      r := SetPage(pid, va, pa, 7, loose);
      HeldByTables(old(phys.mem), phys.mem, info, tabs, loose, pid);
      TableWriteUnseen(old(phys.mem), phys.mem, info, tabs, loose, pid);
      MapLoose(old(phys.mem), phys.mem, info, tabs, loose, pid, pa / PAGE, va, pa + 7);
    }

    /** The loop body of a shrink: release the frame at a user page, if any. */
    method DropPage(pid: int, va: int)
      requires Valid() && pid in tabs && UserPage(va)
      modifies phys, this`info
      ensures Valid()
      ensures var f := FrameAt(old(phys.mem), tabs[pid].root, va);
              if f == -1 then phys.mem == old(phys.mem) && info == old(info)
              else
                && 0 <= f < NPAGES && info == old(info)[f := PageInfo(0, 0)]
                && LeafSet(old(phys.mem), phys.mem, tabs[pid].root, va, 6)
                && OnlyLeafTables(old(phys.mem), phys.mem, tabs[pid].lay)
    {
      hide KInv, Leaf, Tree, OnlyLeafTables, LeafSet;
      var vmap := LookupPage(pid, va, {});
      if vmap.pn != -1 {
        ghost var i0 := info;
        FrameOwned(phys.mem, info, tabs, {}, pid, va);
        info := info[vmap.pn := PageInfo(info[vmap.pn].owner, info[vmap.pn].refcount - 1)];
        if info[vmap.pn].refcount == 0 {
          info := info[vmap.pn := PageInfo(PO_FREE, info[vmap.pn].refcount)];
        }
        assert info == i0[vmap.pn := PageInfo(0, 0)];
        ghost var done;
        UserLeaf(phys.mem, i0, tabs, {}, pid, va);
        var r;
        r, done := phys.VirtualMemoryMap(procs[pid].pagetable, va, vmap.pa, PAGE, 6, tabs[pid].lay);
        OnePage(old(phys.mem), phys.mem, tabs[pid].root, va, vmap.pa, 6);
        Unmap(old(phys.mem), phys.mem, i0, tabs, {}, pid, vmap.pn, va, 6);
      }
    }

    // ----- sbrk and brk ------------------------------------------------------------------

    /** The shrink loop: drop the user pages from hi down to lo, both included. */
    method Shrink(pid: int, lo: int, hi: int)
      requires Valid() && pid in tabs && UserPage(lo) && UserPage(hi) && lo <= hi + PAGE
      modifies phys, this`info
      ensures Valid()
      ensures Dropped(old(phys.mem), phys.mem, tabs[pid].root, lo, hi)
      ensures Released(old(phys.mem), old(info), info, tabs[pid].root, lo, hi)
      ensures OnlyLeafTables(old(phys.mem), phys.mem, tabs[pid].lay) && OthersKept(old(phys.mem), phys.mem, tabs, pid)
    {
      hide KInv, Leaf, Tree, OnlyLeafTables, LeafSet, FrameAt, Dropped, Released, UserKept;
      NothingDropped(phys.mem, info, tabs[pid], hi);
      var i := hi;
      while i >= lo
        invariant Valid() && i % PAGE == 0 && lo - PAGE <= i <= hi
        invariant Dropped(old(phys.mem), phys.mem, tabs[pid].root, i + PAGE, hi)
        invariant Released(old(phys.mem), old(info), info, tabs[pid].root, i + PAGE, hi)
        invariant OnlyLeafTables(old(phys.mem), phys.mem, tabs[pid].lay)
        decreases i
      {
        ghost var m1, i1 := phys.mem, info;
        FrameOwned(m1, i1, tabs, {}, pid, i);
        DropPage(pid, i);
        DropOne(old(phys.mem), m1, phys.mem, old(info), i1, info, tabs[pid], i, hi);
        assert i >= PAGE;
        i := (i - PAGE) % U64;
      }
      TableWriteUnseen(old(phys.mem), phys.mem, old(info), tabs, {}, pid);
    }

    /** Move the break by difference: the old break, or -1 when the new one is out
        of range. The test runs in 64-bit unsigned arithmetic, yet accepts exactly
        the in-range unbounded sums. */
    method Sbrk(pid: int, difference: int) returns (r: int)
      requires Valid() && pid in tabs && Breaks(procs[pid]) && -U64 / 2 <= difference < U64 / 2
      modifies phys, this`info, this`procs
      ensures Valid()
      ensures var p := old(procs)[pid];
              && r == (if p.originalBreak <= p.programBreak + difference < 0x2F_F000 then p.programBreak else -1)
              && BreakMoved(old(Now()), Now(), pid, p.programBreak + difference)
              && Breaks(procs[pid])
      ensures OthersKept(old(phys.mem), phys.mem, tabs, pid)
    {
      hide KInv, Leaf, Tree, Dropped, Released, ReadVirtual;
      var p := procs[pid];
      var newBreak := (p.programBreak + difference) % U64;
      var oldBreak := p.programBreak;
      BreakTest(p, difference);
      if newBreak >= MEMSIZE_VIRTUAL - PAGE || newBreak < p.originalBreak {
        return -1;
      }
      if difference < 0 {
        Shrink(pid, RoundDown(newBreak, PAGE), RoundUp(oldBreak, PAGE));
      } else {
        assert OnlyLeafTables(phys.mem, phys.mem, tabs[pid].lay);
      }
      procs := procs[pid := p.(programBreak := newBreak)];
      return oldBreak;
    }

    /** Set the break: 0, or -1 when the address is out of range. */
    method Brk(pid: int, newAddress: int) returns (r: int)
      requires Valid() && pid in tabs && Breaks(procs[pid]) && 0 <= newAddress < U64
      modifies phys, this`info, this`procs
      ensures Valid()
      ensures r == if old(procs)[pid].originalBreak <= newAddress < 0x2F_F000 then 0 else -1
      ensures BreakMoved(old(Now()), Now(), pid, newAddress) && Breaks(procs[pid])
      ensures OthersKept(old(phys.mem), phys.mem, tabs, pid)
    {
      hide KInv, Dropped, Released, OthersKept;
      var difference := AsInt64(newAddress - procs[pid].programBreak);
      r := Sbrk(pid, difference);
      return if r == -1 then -1 else 0;
    }

    // ----- demand paging and exit ------------------------------------------------------------

    /** The page-fault case: an absent page between the breaks gets a fresh frame;
        anything else, or running out of frames, ends the process. */
    method PageFault(pid: int, addr: int, present: bool) returns (resumed: bool)
      requires Valid() && pid in tabs && Breaks(procs[pid]) && procs[pid].state == Runnable && 0 <= addr
      requires PROC_START_ADDR <= addr < MEMSIZE_VIRTUAL ==>
                 present == (FrameAt(phys.mem, tabs[pid].root, addr - addr % PAGE) != -1)
      modifies phys, this`info, this`procs, this`tabs
      ensures Valid() && OthersKept(old(phys.mem), phys.mem, old(tabs), pid)
      ensures resumed == Served(old(Now()), pid, addr)
      ensures if resumed then PageGiven(old(Now()), Now(), pid, addr) else Gone(old(Now()), Now(), pid)
    {
      hide KInv, Leaf, Tree, LeafSet, OnlyLeafTables, FrameAt, Filled, SameOutside, ReadVirtual, ElsewhereKept;
      hide OnlyFrameAndLeaves, HeldKept;
      BreaksInRange(procs[pid], addr);
      if !present && addr < procs[pid].programBreak && addr >= procs[pid].originalBreak {
        PageBase(addr, 0);
        UserPageOf(addr);
        var pa := Palloc(pid, {});
        if pa == 0 {
          procs := procs[pid := procs[pid].(state := Broken)];
          NothingKept(phys.mem, tabs, pid);
          ProcessFree(pid);
          return false;
        }
        label taken:
        var page := RoundDown(addr, PAGE);
        FrameAtSame(old(phys.mem), phys.mem, tabs[pid].root, page);
        assert {} + {pa / PAGE} == {pa / PAGE} && {pa / PAGE} - {pa / PAGE} == {};
        var vmap := MapPage(pid, page, pa, {pa / PAGE});
        LeafSetAfter(old(phys.mem), old@taken(phys.mem), phys.mem, tabs[pid].root, page, pa + 7);
        FrameThenLeaves(old(phys.mem), old@taken(phys.mem), phys.mem, pa / PAGE, tabs[pid].lay);
        ElsewhereOne(old(phys.mem), old@taken(phys.mem), phys.mem, tabs, info, {pa / PAGE}, pid, page, pa);
        FreshPageReads(old@taken(phys.mem), phys.mem, info, tabs, pid, page, pa, 0xCC);
        assert vmap != -1;
        OthersTwice(old(phys.mem), old@taken(phys.mem), phys.mem, tabs, pid);
        return true;
      }
      procs := procs[pid := procs[pid].(state := Broken)];
      NothingKept(phys.mem, tabs, pid);
      ProcessFree(pid);
      return false;
    }

    /** process_free: the frames mapped at user pages, then the five table pages, and the slot. */
    method ProcessFree(pid: int)
      requires Valid() && pid in tabs
      modifies this`info, this`procs, this`tabs
      ensures Valid()
      ensures var t := old(Now()).(procs := old(procs)[pid := old(procs)[pid].(state := Free)]);
              Now() == t.(info := info, tabs := old(tabs) - {pid}) && OwnerFreed(old(info), info, pid)
    {
      hide KInv, Leaf, Tree, FrameAt, Released, OwnerFreed, Follow, OnlyPages;
      procs := procs[pid := procs[pid].(state := Free)];
      ghost var i0 := info;
      FreePages(pid);
      FiveTables(phys.mem, i0, tabs, pid);
      TablesUnreleased(phys.mem, i0, info, tabs, pid);
      ghost var i1 := info;
      FreeTables(pid);
      AllReleased(phys.mem, i0, i1, info, tabs, pid, TableList(phys.mem, tabs[pid].root));
      ProcessGone(phys.mem, i0, info, tabs, pid);
      tabs := tabs - {pid};
    }

    /** The frames mapped at user pages of pid, upwards. */
    method FreePages(pid: int)
      requires KInv(phys.mem, info, tabs, {}) && pid in tabs && |info| == NPAGES
      requires 0 <= pid < |procs| && procs[pid].pagetable == tabs[pid].root
      modifies this`info
      ensures Released(phys.mem, old(info), info, tabs[pid].root, PROC_START_ADDR, MEMSIZE_VIRTUAL - PAGE)
    {
      hide KInv, Leaf, Tree, FrameAt, Released, Follow;
      ghost var m, root, i0 := phys.mem, tabs[pid].root, info;
      NothingReleased(m, info, root);
      var va := PROC_START_ADDR;
      while va <= MEMSIZE_VIRTUAL - 1
        invariant PROC_START_ADDR <= va <= MEMSIZE_VIRTUAL && va % PAGE == 0
        invariant Released(m, i0, info, root, PROC_START_ADDR, va - PAGE) && |info| == NPAGES
        decreases MEMSIZE_VIRTUAL - va
      {
        LookupFrame(m, i0, tabs, {}, pid, va);
        var vmap := phys.VirtualMemoryLookup(procs[pid].pagetable, va);
        LookupPresent(m, i0, tabs, pid, va);
        ReleaseOne(m, i0, info, tabs, pid, va);
        if Present(vmap.perm) {
          ReleasePage(vmap.pn);
        }
        va := va + PAGE;
      }
    }

    /** The five table pages of pid, found from its root. */
    method FreeTables(pid: int)
      requires 0 <= pid < |procs| && pid in tabs && procs[pid].pagetable == tabs[pid].root
      requires OnlyPages(tabs[pid].lay, TableList(phys.mem, tabs[pid].root))
      requires forall t :: t in tabs[pid].lay ==> 0 <= t / PAGE < |info| && info[t / PAGE] == PageInfo(pid, 1)
      modifies this`info
      ensures var ls := TableList(phys.mem, tabs[pid].root);
              |info| == |old(info)| && forall f :: 0 <= f < |info| ==>
                info[f] == if exists t :: t in ls && t / PAGE == f then PageInfo(0, 0) else old(info)[f]
    {
      hide Entry, PteAddr;
      var l1 := procs[pid].pagetable;
      var l2 := PteAddr(Entry(phys.mem, l1, 0));
      var l3 := PteAddr(Entry(phys.mem, l2, 0));
      var l4 := PteAddr(Entry(phys.mem, l3, 0));
      var l5 := PteAddr(Entry(phys.mem, l3, 1));
      assert TableList(phys.mem, tabs[pid].root) == [l1, l2, l3, l4, l5];
      ReleaseTables(l1, l2, l3, l4, l5);
    }

    /** The five table pages. */
    method ReleaseTables(l1: int, l2: int, l3: int, l4: int, l5: int)
      requires var ls := [l1, l2, l3, l4, l5];
               && (forall i :: 0 <= i < 5 ==> 0 <= ls[i] / PAGE < |info| && info[ls[i] / PAGE].refcount == 1)
               && forall i, j :: 0 <= i < j < 5 ==> ls[i] / PAGE != ls[j] / PAGE
      modifies this`info
      ensures var ls := [l1, l2, l3, l4, l5];
              |info| == |old(info)| && forall f :: 0 <= f < |info| ==>
                info[f] == if exists t :: t in ls && t / PAGE == f then PageInfo(0, 0) else old(info)[f]
    {
      ghost var ls := [l1, l2, l3, l4, l5];
      assert ls[0] == l1 && ls[1] == l2 && ls[2] == l3 && ls[3] == l4 && ls[4] == l5;
      ReleaseTable(l1);
      ReleaseTable(l2);
      ReleaseTable(l3);
      ReleaseTable(l4);
      ReleaseTable(l5);
      assert l1 in ls && l2 in ls && l3 in ls && l4 in ls && l5 in ls;
    }

    /** Give back one reference, and with the last one the frame. */
    method ReleasePage(pn: int)
      requires 0 <= pn < |info| && info[pn].refcount == 1
      modifies this`info
      ensures info == old(info)[pn := PageInfo(0, 0)]
    {
      info := info[pn := PageInfo(info[pn].owner, info[pn].refcount - 1)];
      if info[pn].refcount == 0 {
        info := info[pn := PageInfo(PO_FREE, info[pn].refcount)];
      }
    }

    /** Give a table page back; the original asserts that it is referenced once. */
    method ReleaseTable(l: int)
      requires 0 <= l / PAGE < |info| && info[l / PAGE].refcount == 1
      modifies this`info
      ensures info == old(info)[l / PAGE := PageInfo(0, 0)]
    {
      info := info[l / PAGE := PageInfo(info[l / PAGE].owner, 0)];
      info := info[l / PAGE := PageInfo(PO_FREE, 0)];
    }

    // ----- the trap handler --------------------------------------------------------------------

    /** Pick the next process; with none runnable the original scans for ever. */
    method Schedule() returns (halted: bool)
      requires |procs| == NPROC && 0 <= current < NPROC
      modifies this`current
      ensures Scheduled(old(Now()), Now(), halted)
    {
      halted := forall pid :: 0 <= pid < NPROC ==> procs[pid].state != Runnable;
      if !halted {
        var runnable := RunnableSlots(procs);
        ghost var pid :| 0 <= pid < NPROC && procs[pid].state == Runnable;
        assert runnable[pid];
        current := Scheduler.Next(runnable, current);
      }
    }

    /** Handle one trap of the current process; rax is what brk and sbrk return. The processor
        reports a fault as a protection problem exactly when the page is mapped. */
    method Exception(ev: Event) returns (halted: bool, rax: int)
      requires Valid() && Running() && WellFormed(ev) && !ev.Store?
      modifies phys, this`info, this`procs, this`current, this`tabs
      ensures Valid() && Settled() && (!halted ==> Running())
      ensures Handled(old(Now()), ev, Now(), halted)
      ensures var p := old(procs)[old(current)];
              && (ev.SysBrk? ==> rax == if p.originalBreak <= ev.addr < 0x2F_F000 then 0 else -1)
              && (ev.SysSbrk? ==>
                    rax == if p.originalBreak <= p.programBreak + ev.increment < 0x2F_F000 then p.programBreak else -1)
    {
      hide KInv, OthersKept, Dropped, Released, OnlyLeafTables, Faulted, Left, HeldKept, ReadVirtual;
      hide Lookup, Splice, InfoBytes;
      halted, rax := false, 0;
      var pid := current;
      match ev
      case SysBrk(addr) =>
        rax := Brk(pid, addr);
      case SysSbrk(increment) =>
        rax := Sbrk(pid, increment);
      case Fault(addr) =>
        halted := HandleFault(addr);
      case Yield =>
        NothingKept(phys.mem, tabs, pid);
        halted := Schedule();
        assert procs[pid].state == Runnable;
      case Exit =>
        halted := Leave();
      case Store(_, _) =>
      case MapInfo(dest, ptr, pad) =>
        NothingKept(phys.mem, tabs, pid);
        if InfoAllowed(phys.mem, tabs[pid].root, dest, ptr) {
          InfoSeen(phys.mem, info, tabs, pid, dest, ptr, InfoBytes(Lookup(phys.mem, tabs[pid].root, ptr), pad));
        }
        SyscallMapping(pid, dest, ptr, pad);
    }

    /** syscall_mapping: the mapping of ptr is copied to where dest is mapped, and on from there in physical
        memory, whatever frame comes next. */
    method SyscallMapping(pid: int, dest: int, ptr: int, pad: seq<Byte>)
      requires Valid() && pid in tabs && 0 <= dest < U64 && 0 <= ptr < U64 && |pad| == 8
      modifies phys
      ensures InfoWritten(old(Now()), Now(), pid, dest, ptr, pad)
    {
      hide KInv, Follow, MappingOf, Splice, InfoBytes;
      var vmap := phys.VirtualMemoryLookup(procs[pid].pagetable, dest);
      if !(Writable(vmap.perm) && User(vmap.perm)) {
        return;
      }
      var end := (dest + INFO_SIZE - 1) % U64;
      if AsInt32(end / PAGE) != AsInt32(ptr / PAGE) {
        var endMap := phys.VirtualMemoryLookup(procs[pid].pagetable, end);
        if !(Writable(endMap.perm) && Present(endMap.perm)) {
          return;
        }
      }
      var found := phys.VirtualMemoryLookup(procs[pid].pagetable, ptr);
      phys.Copy(vmap.pa, InfoBytes(found, pad));
    }

    /** A page fault of the current process, and what runs next. */
    method HandleFault(addr: int) returns (halted: bool)
      requires Valid() && Running() && 0 <= addr
      modifies phys, this`info, this`procs, this`current, this`tabs
      ensures Valid() && Settled() && (!halted ==> Running())
      ensures OthersKept(old(phys.mem), phys.mem, old(tabs), old(current)) && Faulted(old(Now()), Now(), addr, halted)
    {
      hide KInv, OthersKept, PageGiven, FrameAt, Breaks, OwnerFreed, Served;
      halted := false;
      var pid := current;
      ghost var s := Now();
      var present := true;
      if PROC_START_ADDR <= addr < MEMSIZE_VIRTUAL {
        UserPageOf(addr);
        var vmap := LookupPage(pid, addr - addr % PAGE, {});
        present := vmap.pn != -1;
      }
      var resumed := PageFault(pid, addr, present);
      if resumed {
        GivenKeeps(s, Now(), pid, addr);
      }
      if procs[pid].state != Runnable {
        ghost var u := Now();
        halted := Schedule();
        assert Gone(s, u, pid) && Scheduled(u, Now(), halted);
      }
    }

    /** The exit call of the current process, and what runs next. */
    method Leave() returns (halted: bool)
      requires Valid() && Running()
      modifies this`info, this`procs, this`current, this`tabs
      ensures Valid() && Settled() && (!halted ==> Running())
      ensures OthersKept(old(phys.mem), phys.mem, old(tabs), old(current)) && Left(old(Now()), Now(), halted)
    {
      hide KInv, OthersKept, OwnerFreed;
      ghost var s := Now();
      NothingKept(phys.mem, tabs, current);
      ProcessFree(current);
      ghost var u := Now();
      halted := Schedule();
      assert Gone(s, u, s.current) && Scheduled(u, Now(), halted);
    }

    /** A store by the current process, as the page table allows it. */
    method StoreVirtual(pid: int, addr: int, b: Byte) returns (done: bool)
      requires Valid() && pid in tabs && 0 <= addr && !OnConsole(addr)
      modifies phys
      ensures Valid() && OthersKept(old(phys.mem), phys.mem, tabs, pid)
      ensures done == MayStore(old(Now()), pid, addr)
      ensures if done then Written(old(Now()), Now(), pid, addr, b) else phys.mem == old(phys.mem)
    {
      hide KInv, OthersKept, Leaf, FrameAt, ReadVirtual, Follow, Tree;
      NothingKept(phys.mem, tabs, pid);
      done := false;
      if addr < VA_LIMIT {
        LookupStore(phys.mem, info, tabs, pid, addr);
        var vmap := phys.VirtualMemoryLookup(procs[pid].pagetable, addr);
        if Writable(vmap.perm) && User(vmap.perm) {
          StoreSeen(phys.mem, info, tabs, {}, pid, addr, b);
          phys.mem := phys.mem[vmap.pa := b];
          done := true;
        }
      }
    }

    /** One step of the current process: a trap, or a store, which traps when it is not allowed. */
    method Step(ev: Event) returns (halted: bool)
      requires Valid() && Running() && WellFormed(ev)
      modifies phys, this`info, this`procs, this`current, this`tabs
      ensures Valid() && Settled() && (!halted ==> Running())
      ensures Handled(old(Now()), ev, Now(), halted)
    {
      hide KInv, OthersKept, Faulted, BreakMoved, MayStore;
      var rax;
      match ev
      case Store(addr, b) =>
        var done := StoreVirtual(current, addr, b);
        if done {
          halted := false;
        } else {
          halted, rax := Exception(Fault(addr));
        }
      case _ =>
        halted, rax := Exception(ev);
    }

    /** Any run of steps, from any valid state on: the states it goes through form a trace. */
    method Run(events: seq<Event>) returns (halted: bool, ghost trace: seq<Snapshot>)
      requires Valid() && Running() && forall ev :: ev in events ==> WellFormed(ev)
      modifies phys, this`info, this`procs, this`current, this`tabs
      ensures Valid() && Settled() && (!halted ==> Running())
      ensures IsTrace(trace, events, halted)
      ensures trace[0] == old(Now()) && trace[|trace| - 1] == Now()
    {
      hide KInv, OthersKept, Handled;
      halted := false;
      trace := [Now()];
      var i := 0;
      while i < |events| && !halted
        invariant 0 <= i <= |events| && |trace| == i + 1 && Valid() && Settled() && (!halted ==> Running())
        invariant forall j :: 0 <= j <= i ==> KInv(trace[j].mem, trace[j].info, trace[j].tabs, {})
        invariant forall j :: 0 <= j <= i ==> Orderly(trace[j].procs, trace[j].tabs)
        invariant forall j :: 0 <= j < i ==> Handled(trace[j], events[j], trace[j + 1], halted && j == i - 1)
        invariant trace[0] == old(Now()) && trace[i] == Now()
        decreases |events| - i, !halted
      {
        halted := Step(events[i]);
        trace := trace + [Now()];
        i := i + 1;
      }
    }
  }

  lemma FrameThenLeaves(m: Memory, m1: Memory, m2: Memory, f: int, lay: Layout)
    requires SameOutside(m, m1, f * PAGE, f * PAGE + PAGE) && OnlyLeafTables(m1, m2, lay)
    ensures OnlyFrameAndLeaves(m, m2, f, lay)
  {
  }

  lemma GivenKeeps(s: Snapshot, t: Snapshot, pid: int, addr: int)
    requires PageGiven(s, t, pid, addr)
    ensures t.procs == s.procs && t.tabs == s.tabs && t.current == s.current
  {
  }

  lemma BreaksInRange(p: Proc, addr: int)
    requires Breaks(p)
    ensures p.originalBreak <= addr < p.programBreak ==> PROC_START_ADDR <= addr < MEMSIZE_VIRTUAL
  {
  }

  // ----- demand paging and exit --------------------------------------------------------------

  /** A page mapped to a frame filled with c reads as c. */
  lemma FreshPageReads(m1: Memory, m2: Memory, info: seq<PageInfo>, tabs: map<int, Tables>, pid: int, page: int,
                       pa: int,
                       c: Byte)
    requires KInv(m1, info, tabs, {pa / PAGE}) && KInv(m2, info, tabs, {}) && pid in tabs && UserPage(page)
    requires 0 < pa && pa % PAGE == 0 && pa + PAGE <= MEMSIZE_PHYSICAL && info[pa / PAGE].owner == pid
    requires Filled(m1, pa, pa + PAGE, c)
    requires LeafSet(m1, m2, tabs[pid].root, page, pa + 7) && OnlyLeafTables(m1, m2, tabs[pid].lay)
    ensures forall v :: page <= v < page + PAGE ==> ReadVirtual(m2, tabs[pid].root, v) == Some(c)
  {
    hide KInv, Leaf, LeafSet, FrameAt, OnlyLeafTables, ReadVirtual, SameBytes, Filled;
    var f, root := pa / PAGE, tabs[pid].root;
    LooseNotTable(m1, info, tabs, f);
    FrameClear(m1, m2, info, tabs, {f}, pid, f);
    EntryFrameOf(pa, 7);
    FramesAfter(m1, m2, root, page, pa + 7);
    SizeOf(m2, info, tabs, {});
    forall v | page <= v < page + PAGE
      ensures ReadVirtual(m2, root, v) == Some(c)
    {
      PageBase(v, page);
      ReadIs(m2, root, v);
      SameByteAt(m1, m2, pa, pa + PAGE, PhysAddr(m2, root, v), c);
    }
  }

  lemma LooseNotTable(m: Memory, info: seq<PageInfo>, tabs: map<int, Tables>, f: int)
    requires KInv(m, info, tabs, {f})
    ensures 0 < f < NPAGES && (info[f].owner in tabs ==> f * PAGE !in tabs[info[f].owner].lay)
  {
    hide ProcInv, Accounted;
    assert f in {f};
  }

  lemma SameByteAt(m1: Memory, m2: Memory, lo: int, hi: int, a: int, c: Byte)
    requires Filled(m1, lo, hi, c) && SameBytes(m1, m2, lo, hi) && lo <= a < hi && 0 <= a < |m2|
    ensures m2[a] == c
  {
  }

  /** The lookup's present bit says whether the page is mapped. */
  lemma LookupPresent(m: Memory, info: seq<PageInfo>, tabs: map<int, Tables>, pid: int, va: int)
    requires KInv(m, info, tabs, {}) && pid in tabs && UserPage(va)
    ensures Present(Lookup(m, tabs[pid].root, va).perm) <==> FrameAt(m, tabs[pid].root, va) != -1
  {
    UserLeaf(m, info, tabs, {}, pid, va);
    LookupTranslates(m, tabs[pid].root, tabs[pid].lay, va);
    LeafNat(m, tabs[pid].root, va);
    hide Leaf, Follow, Tree, KInv, Present, PteFlags;
    LowFlags(Leaf(m, tabs[pid].root, va).value);
    assert !Present(0) by {
      NoFlags();
    }
  }

  lemma NoFlags()
    ensures !Present(0)
  {
  }

  /** The flags of an entry are its low bits. */
  lemma LowFlags(e: nat)
    ensures Present(PteFlags(e)) == Present(e)
    ensures Writable(PteFlags(e)) == Writable(e)
    ensures User(PteFlags(e)) == User(e)
  {
    var q, r := e / PAGE, e % PAGE;
    var a, p := r / 2, r % 2;
    var b, w := a / 2, a % 2;
    var c, u := b / 2, b % 2;
    LowBits(a, p, b, w, c, u);
    LowBits(2048 * q + a, p, 1024 * q + b, w, 512 * q + c, u);
    hide Present, Writable, User;
    assert r == 2 * a + p && e == 2 * (2048 * q + a) + p;
  }

  lemma NothingReleased(m: Memory, info: seq<PageInfo>, root: int)
    ensures Released(m, info, info, root, PROC_START_ADDR, PROC_START_ADDR - PAGE)
  {
    hide FrameAt;
  }

  /** One more page of a process that is going: its frame was not freed before. */
  lemma ReleaseOne(m: Memory, i0: seq<PageInfo>, info: seq<PageInfo>, tabs: map<int, Tables>, pid: int, va: int)
    requires KInv(m, i0, tabs, {}) && pid in tabs && UserPage(va)
    requires Released(m, i0, info, tabs[pid].root, PROC_START_ADDR, va - PAGE)
    ensures var root, f := tabs[pid].root, FrameAt(m, tabs[pid].root, va);
            if f == -1 then Released(m, i0, info, root, PROC_START_ADDR, va)
            else
              && 0 <= f < |info| && info[f] == PageInfo(pid, 1)
              && Released(m, i0, info[f := PageInfo(0, 0)], root, PROC_START_ADDR, va)
  {
    var root, f := tabs[pid].root, FrameAt(m, tabs[pid].root, va);
    LookupFrame(m, i0, tabs, {}, pid, va);
    FrameOwned(m, i0, tabs, {}, pid, va);
    MappedInUp(m, root, va);
    if f != -1 {
      assert !MappedIn(m, root, PROC_START_ADDR, va - PAGE, f) by {
        OneMapping(m, i0, tabs, pid, va);
      }
    }
    hide KInv, FrameAt, MappedIn;
  }

  lemma OneMapping(m: Memory, info: seq<PageInfo>, tabs: map<int, Tables>, pid: int, va: int)
    requires KInv(m, info, tabs, {}) && pid in tabs && UserPage(va) && FrameAt(m, tabs[pid].root, va) >= 0
    ensures !MappedIn(m, tabs[pid].root, PROC_START_ADDR, va - PAGE, FrameAt(m, tabs[pid].root, va))
  {
    assert ProcInv(m, info, pid, tabs[pid], {});
    hide FrameAt, Tree, PagesOwned, Covers, LowIdentity, TablesOwned, Accounted;
  }

  lemma MappedInUp(m: Memory, root: int, va: int)
    requires UserPage(va)
    ensures forall f {:trigger MappedIn(m, root, PROC_START_ADDR, va, f)} ::
              MappedIn(m, root, PROC_START_ADDR, va, f) <==>
              MappedIn(m, root, PROC_START_ADDR, va - PAGE, f) || FrameAt(m, root, va) == f
  {
    hide FrameAt;
    forall f
      ensures MappedIn(m, root, PROC_START_ADDR, va, f) <==>
              MappedIn(m, root, PROC_START_ADDR, va - PAGE, f) || FrameAt(m, root, va) == f
    {
      if MappedIn(m, root, PROC_START_ADDR, va, f) {
        var v :| UserPage(v) && PROC_START_ADDR <= v <= va && FrameAt(m, root, v) == f;
        assert v == va || v <= va - PAGE;
      }
    }
  }

  /** The pages reached through the first entries, and through entry 1 of the third level. */
  ghost function TableList(m: Memory, root: int): seq<int>
  {
    var l2 := PteAddr(Entry(m, root, 0));
    var l3 := PteAddr(Entry(m, l2, 0));
    [root, l2, l3, PteAddr(Entry(m, l3, 0)), PteAddr(Entry(m, l3, 1))]
  }

  /** The pages of ls are five different frames, and the pages of the layout. */
  ghost predicate OnlyPages(lay: Layout, ls: seq<int>)
  {
    && |ls| == 5 && (forall i :: 0 <= i < 5 ==> ls[i] in lay) && (forall t :: t in lay ==> t in ls)
    && forall i, j :: 0 <= i < j < 5 ==> ls[i] / PAGE != ls[j] / PAGE
  }

  /** The five pages process_free gives back are all the table pages. */
  lemma FiveTables(m: Memory, info: seq<PageInfo>, tabs: map<int, Tables>, pid: int)
    requires KInv(m, info, tabs, {}) && pid in tabs && |tabs[pid].lay| == TABLE_PAGES
    ensures OnlyPages(tabs[pid].lay, TableList(m, tabs[pid].root))
  {
    hide KInv, Tree, Leaf, Walk, Entry, PteAddr;
    var t, lay := tabs[pid], tabs[pid].lay;
    UserLeaf(m, info, tabs, {}, pid, 0);
    UserLeaf(m, info, tabs, {}, pid, 0x20_0000);
    PathOf(m, t.root, lay, 0);
    PathOf(m, t.root, lay, 0x20_0000);
    FiveOfFive(lay, TableList(m, t.root));
    DistinctFrames(m, lay, TableList(m, t.root));
  }

  lemma DistinctFrames(m: Memory, lay: Layout, ls: seq<int>)
    requires TablePages(m, lay) && (forall i :: 0 <= i < |ls| ==> ls[i] in lay)
    requires forall i, j :: 0 <= i < j < |ls| ==> ls[i] != ls[j]
    ensures forall i, j :: 0 <= i < j < |ls| ==> ls[i] / PAGE != ls[j] / PAGE
  {
    forall i, j | 0 <= i < j < |ls|
      ensures ls[i] / PAGE != ls[j] / PAGE
    {
      assert ls[i] % PAGE == 0 && ls[j] % PAGE == 0;
      PagesApart(ls[i], ls[j]);
    }
  }

  /** The walk of an address below 4 MB, step by step. */
  lemma PathOf(m: Memory, root: int, lay: Layout, va: int)
    requires Tree(m, root, lay) && (va == 0 || va == 0x20_0000) && Leaf(m, root, va).Some?
    ensures TablePages(m, lay) && root in lay && lay[root] == (0, 0)
    ensures var l2 := PteAddr(Entry(m, root, 0));
            var l3 := PteAddr(Entry(m, l2, 0));
            var l := PteAddr(Entry(m, l3, if va == 0 then 0 else 1));
            && l2 in lay && lay[l2] == (1, 0) && l3 in lay && lay[l3] == (2, 0)
            && l in lay && lay[l] == (3, if va == 0 then 0 else 1)
  {
    PathIndices(va);
    WalkLayout(m, root, lay, va, 1);
    WalkLayout(m, root, lay, va, 2);
    WalkLayout(m, root, lay, va, 3);
    hide Tree, Entry, PageIndex, Prefix;
    assert Walk(m, root, va, 3).Some? && Walk(m, root, va, 2).Some? && Walk(m, root, va, 1).Some?;
    assert Walk(m, root, va, 0) == Some(root);
  }

  lemma PathIndices(va: int)
    requires va == 0 || va == 0x20_0000
    ensures PageIndex(va, 0) == PageIndex(va, 1) == 0 && PageIndex(va, 2) == if va == 0 then 0 else 1
    ensures Prefix(va, 1) == Prefix(va, 2) == 0 && Prefix(va, 3) == if va == 0 then 0 else 1
  {
  }

  /** Five keys at different places of a layout of five pages are all its pages. */
  lemma FiveOfFive(lay: Layout, ls: seq<int>)
    requires |lay| == 5 == |ls| && (forall i :: 0 <= i < 5 ==> ls[i] in lay)
    requires lay[ls[0]].0 == 0 && lay[ls[1]].0 == 1 && lay[ls[2]].0 == 2
    requires lay[ls[3]] == (3, 0) && lay[ls[4]] == (3, 1)
    ensures forall i, j :: 0 <= i < j < 5 ==> ls[i] != ls[j]
    ensures forall t :: t in lay ==> t in ls
  {
    var s := {ls[0], ls[1], ls[2], ls[3], ls[4]};
    assert |s| == 5 && s <= lay.Keys && |lay.Keys| == 5;
    SameSize(s, lay.Keys);
  }

  lemma SameSize(s: set<int>, t: set<int>)
    requires s <= t && |s| == |t|
    ensures s == t
  {
    assert t == s + (t - s) && |t| == |s| + |t - s|;
  }

  /** Freeing the mapped frames leaves the table pages owned. */
  lemma TablesUnreleased(m: Memory, i0: seq<PageInfo>, info: seq<PageInfo>, tabs: map<int, Tables>, pid: int)
    requires KInv(m, i0, tabs, {}) && pid in tabs
    requires Released(m, i0, info, tabs[pid].root, PROC_START_ADDR, MEMSIZE_VIRTUAL - PAGE)
    ensures forall t :: t in tabs[pid].lay ==>
              t % PAGE == 0 && 0 <= t / PAGE < |info| && info[t / PAGE] == PageInfo(pid, 1)
  {
    assert ProcInv(m, i0, pid, tabs[pid], {});
    forall t | t in tabs[pid].lay
      ensures t % PAGE == 0 && 0 <= t / PAGE < |info| && info[t / PAGE] == PageInfo(pid, 1)
    {
      TableNotMapped(m, i0, tabs, pid, t);
    }
  }

  lemma TableNotMapped(m: Memory, info: seq<PageInfo>, tabs: map<int, Tables>, pid: int, t: int)
    requires KInv(m, info, tabs, {}) && pid in tabs && t in tabs[pid].lay
    ensures t % PAGE == 0 && 0 <= t / PAGE < |info| && info[t / PAGE] == PageInfo(pid, 1)
    ensures !MappedIn(m, tabs[pid].root, PROC_START_ADDR, MEMSIZE_VIRTUAL - PAGE, t / PAGE)
  {
    assert ProcInv(m, info, pid, tabs[pid], {});
    hide FrameAt, Covers, LowIdentity, PagesDistinct, Accounted;
    assert t / PAGE * PAGE == t;
  }

  /** With the mapped frames and the tables freed, every frame of the process is. */
  lemma AllReleased(m: Memory, i0: seq<PageInfo>, i1: seq<PageInfo>, i2: seq<PageInfo>, tabs: map<int, Tables>,
                    pid: int,
                    ls: seq<int>)
    requires KInv(m, i0, tabs, {}) && pid in tabs
    requires Released(m, i0, i1, tabs[pid].root, PROC_START_ADDR, MEMSIZE_VIRTUAL - PAGE)
    requires OnlyPages(tabs[pid].lay, ls)
    requires |i2| == |i1| && forall f :: 0 <= f < |i1| ==>
               i2[f] == if exists t :: t in ls && t / PAGE == f then PageInfo(0, 0) else i1[f]
    ensures OwnerFreed(i0, i2, pid)
  {
    forall f | 0 <= f < |i0|
      ensures i2[f] == if i0[f].owner == pid then PageInfo(0, 0) else i0[f]
    {
      if i0[f].owner == pid {
        UsedByOwner(m, i0, tabs, f);
        assert f * PAGE in tabs[pid].lay ==> f * PAGE in ls && f * PAGE / PAGE == f;
      } else {
        forall t | t in ls && t / PAGE == f
          ensures false
        {
          TableNotMapped(m, i0, tabs, pid, t);
        }
        MappedIsOwned(m, i0, tabs, pid, f);
      }
    }
  }

  lemma UsedByOwner(m: Memory, info: seq<PageInfo>, tabs: map<int, Tables>, f: int)
    requires KInv(m, info, tabs, {}) && 0 <= f < |info| && info[f].owner in tabs
    ensures var t := tabs[info[f].owner];
            f * PAGE in t.lay || MappedIn(m, t.root, PROC_START_ADDR, MEMSIZE_VIRTUAL - PAGE, f)
  {
    hide FrameAt, ProcInv;
    assert 0 < info[f].owner by {
      OwnerPositive(m, info, tabs, {}, info[f].owner);
    }
    InUseMapped(m, tabs[info[f].owner], f);
  }

  lemma InUseMapped(m: Memory, t: Tables, f: int)
    requires InUse(m, f, t)
    ensures f * PAGE in t.lay || MappedIn(m, t.root, PROC_START_ADDR, MEMSIZE_VIRTUAL - PAGE, f)
  {
    hide FrameAt;
  }

  lemma MappedIsOwned(m: Memory, info: seq<PageInfo>, tabs: map<int, Tables>, pid: int, f: int)
    requires KInv(m, info, tabs, {}) && pid in tabs && 0 <= f < |info| && info[f].owner != pid
    ensures !MappedIn(m, tabs[pid].root, PROC_START_ADDR, MEMSIZE_VIRTUAL - PAGE, f)
  {
    assert ProcInv(m, info, pid, tabs[pid], {});
    hide FrameAt, Covers, LowIdentity, PagesDistinct, Accounted, Tree, TablesOwned;
  }

  /** Without the frames of pid and its tables, the accounting of the others stands. */
  lemma ProcessGone(m: Memory, info: seq<PageInfo>, info2: seq<PageInfo>, tabs: map<int, Tables>, pid: int)
    requires KInv(m, info, tabs, {}) && pid in tabs && OwnerFreed(info, info2, pid)
    ensures KInv(m, info2, tabs - {pid}, {})
  {
    hide ProcInv, Accounted, LooseOwned;
    var tabs2 := tabs - {pid};
    forall q | q in tabs2
      ensures ProcInv(m, info2, q, tabs2[q], {})
    {
      OtherStays(m, info, info2, tabs, pid, q);
    }
    OwnerPositive(m, info, tabs, {}, pid);
    AccountedWithout(m, info, info2, tabs, pid);
    NoneLoose(info2, tabs2);
  }

  lemma NoneLoose(info: seq<PageInfo>, tabs: map<int, Tables>)
    ensures LooseOwned(info, tabs, {})
  {
  }

  lemma OtherStays(m: Memory, info: seq<PageInfo>, info2: seq<PageInfo>, tabs: map<int, Tables>, pid: int, q: int)
    requires KInv(m, info, tabs, {}) && q in tabs && q != pid && OwnerFreed(info, info2, pid)
    ensures ProcInv(m, info2, q, tabs[q], {})
  {
    hide ProcInv, Leaf, FrameAt, Accounted;
    SameBytesSelf(m, tabs[q].lay);
    ProcFrame(m, m, info, info2, q, tabs[q], {}, {});
  }

  lemma AccountedWithout(m: Memory, info: seq<PageInfo>, info2: seq<PageInfo>, tabs: map<int, Tables>, pid: int)
    requires Accounted(m, info, tabs, {}) && OwnerFreed(info, info2, pid) && 0 < pid
    ensures Accounted(m, info2, tabs - {pid}, {})
  {
    hide InUse;
    forall f | 0 <= f < |info2| && info2[f].owner > 0
      ensures info2[f].refcount == 1 && info2[f].owner in tabs - {pid} && InUse(m, f, tabs[info2[f].owner])
    {
      assert info2[f] == info[f] && info[f].owner != pid;
    }
  }

  lemma SameBytesSelf(m: Memory, lay: Layout)
    ensures forall p :: p in lay ==> SameBytes(m, m, p, p + PAGE)
  {
  }

  /** What the lookup finds is what the page table allows; besides the console page it allows only user pages. */
  lemma LookupStore(m: Memory, info: seq<PageInfo>, tabs: map<int, Tables>, pid: int, addr: int)
    requires KInv(m, info, tabs, {}) && pid in tabs && 0 <= addr < VA_LIMIT && !OnConsole(addr)
    ensures var r, o := Lookup(m, tabs[pid].root, addr), Leaf(m, tabs[pid].root, addr);
            && (Writable(r.perm) && User(r.perm) <==>
                o.Some? && Present(o.value) && Writable(o.value) && User(o.value))
            && (Writable(r.perm) && User(r.perm) ==>
                && PROC_START_ADDR <= addr < MEMSIZE_VIRTUAL && Present(r.perm)
                && FrameAt(m, tabs[pid].root, PageOfAddr(addr)) >= 0 && r.pa == PhysAddr(m, tabs[pid].root, addr))
  {
    var root := tabs[pid].root;
    var o := Leaf(m, root, addr);
    TablesOf(m, info, tabs, pid);
    LookupTranslates(m, root, tabs[pid].lay, addr);
    LeafNat(m, root, addr);
    NoFlags();
    hide KInv, Follow, Leaf, Tree, PteFlags, PageOfAddr;
    if o.Some? {
      EntryStore(o.value, addr);
      if Present(o.value) && User(o.value) {
        UserReach(m, info, tabs, {}, pid, addr);
        ConsolePage(addr);
        PageStart(addr);
        SamePageLeaf(m, root, addr, PageOfAddr(addr));
      }
    }
    hide Present, Writable, User;
  }

  lemma ConsolePage(addr: int)
    ensures PageOfAddr(addr) == CONSOLE_ADDR ==> OnConsole(addr)
  {
  }

  lemma EntryStore(e: nat, addr: int)
    ensures var r := MappingOf(e, addr);
            && (Present(r.perm) ==> Present(e))
            && (Present(e) ==> Present(r.perm) && Writable(r.perm) == Writable(e) && User(r.perm) == User(e))
            && (!Present(e) ==> r.perm == 0)
            && (Present(e) ==> FrameOf(e) >= 0 && r.pa == FrameOf(e) * PAGE + addr % PAGE)
  {
    LowFlags(e);
    EntrySplit(e);
    NoFlags();
    hide Writable, User, Present, PteFlags, PteAddr;
  }

  /** Within one page off the console, the mapping call's checks allow exactly what the page table does, and
      the copy goes where dest is mapped. */
  lemma InfoStore(m: Memory, info: seq<PageInfo>, tabs: map<int, Tables>, pid: int, dest: int, ptr: int)
    requires KInv(m, info, tabs, {}) && pid in tabs && 0 <= dest < U64
    requires dest % PAGE + INFO_SIZE <= PAGE && !OnConsole(dest % VA_LIMIT)
    ensures var root, p := tabs[pid].root, dest % VA_LIMIT;
            && (InfoAllowed(m, root, dest, ptr) <==>
                Writable(Lookup(m, root, dest).perm) && User(Lookup(m, root, dest).perm))
            && (InfoAllowed(m, root, dest, ptr) ==>
                && PROC_START_ADDR <= p && p + INFO_SIZE <= MEMSIZE_VIRTUAL && p % PAGE == dest % PAGE
                && FrameAt(m, root, PageOfAddr(p)) >= 0 && Lookup(m, root, dest).pa == PhysAddr(m, root, p))
  {
    hide KInv, Follow, Leaf, FrameAt, Present, Writable, User, PageOfAddr, MappingOf;
    var root, p, last := tabs[pid].root, dest % VA_LIMIT, INFO_SIZE - 1;
    FollowWraps(m, root, 7, dest, 0);
    FollowWraps(m, root, 7, (dest + last) % U64, 0);
    DestPage(dest);
    LookupStore(m, info, tabs, pid, p);
    LookupOffset(m, root, dest);
    LookupOffset(m, root, (dest + last) % U64);
    if Writable(Lookup(m, root, p).perm) && User(Lookup(m, root, p).perm) {
      SameRights(m, info, tabs, pid, p, p + last);
    }
  }

  /** A lookup depends on the low 48 bits. */
  lemma LookupOffset(m: Memory, root: int, va: int)
    requires 0 <= va
    ensures Lookup(m, root, va) == Lookup(m, root, va % VA_LIMIT)
  {
    hide Follow, Present, PteAddr, PteFlags, AsInt32;
    FollowWraps(m, root, 7, va, 0);
    OffsetKept(va);
  }

  lemma OffsetKept(va: int)
    ensures va % VA_LIMIT % PAGE == va % PAGE
  {
  }

  lemma DestPage(dest: int)
    requires 0 <= dest < U64 && dest % PAGE + INFO_SIZE <= PAGE
    ensures var p := dest % VA_LIMIT;
            && p % PAGE == dest % PAGE && (dest + INFO_SIZE - 1) % U64 % VA_LIMIT == p + INFO_SIZE - 1
            && PageOfAddr(p + INFO_SIZE - 1) == PageOfAddr(p) && p + INFO_SIZE <= VA_LIMIT
            && (p < MEMSIZE_VIRTUAL ==> p + INFO_SIZE <= MEMSIZE_VIRTUAL)
  {
    OffsetKept(dest);
    FitsBelow(dest, U64, U64 / PAGE);
    var p := dest % VA_LIMIT;
    FitsBelow(p, VA_LIMIT, VA_LIMIT / PAGE);
    SamePage(p, INFO_SIZE - 1);
    NoCarry(dest / VA_LIMIT, p, INFO_SIZE - 1);
    if p < MEMSIZE_VIRTUAL {
      FitsBelow(p, MEMSIZE_VIRTUAL, MEMSIZE_VIRTUAL / PAGE);
    }
  }

  /** What fits its page ends below any page boundary above it. */
  lemma FitsBelow(p: int, limit: int, n: int)
    requires 0 <= p < limit == n * PAGE && p % PAGE + INFO_SIZE <= PAGE
    ensures p + INFO_SIZE <= limit
  {
    assert p / PAGE < n;
  }

  lemma SamePage(p: int, i: int)
    requires 0 <= i && p % PAGE + i < PAGE
    ensures PageOfAddr(p + i) == PageOfAddr(p)
  {
  }

  lemma NoCarry(h: int, p: int, i: int)
    requires 0 <= p && 0 <= i && p + i < VA_LIMIT
    ensures (h * VA_LIMIT + p + i) % VA_LIMIT == p + i
  {
  }

  lemma SameRights(m: Memory, info: seq<PageInfo>, tabs: map<int, Tables>, pid: int, p: int, q: int)
    requires KInv(m, info, tabs, {}) && pid in tabs && PROC_START_ADDR <= p <= q < MEMSIZE_VIRTUAL
    requires PageOfAddr(p) == PageOfAddr(q) && !OnConsole(p) && !OnConsole(q)
    ensures var r, o := Lookup(m, tabs[pid].root, p), Lookup(m, tabs[pid].root, q);
            Writable(r.perm) && User(r.perm) ==> Writable(o.perm) && Present(o.perm)
  {
    hide KInv, Follow, Leaf, FrameAt, Present, Writable, User, MappingOf;
    LookupStore(m, info, tabs, pid, p);
    LookupStore(m, info, tabs, pid, q);
    PageStart(p);
    PageStart(q);
    SamePageLeaf(m, tabs[pid].root, p, q);
  }

  /** Such a copy is a store of its bytes: they read where it was asked for, everything else reads as before,
      and the accounting stands. */
  lemma InfoSeen(m: Memory, info: seq<PageInfo>, tabs: map<int, Tables>, pid: int, dest: int, ptr: int,
                 bs: seq<Byte>)
    requires KInv(m, info, tabs, {}) && pid in tabs && 0 <= dest < U64 && |bs| == INFO_SIZE
    requires dest % PAGE + INFO_SIZE <= PAGE && !OnConsole(dest % VA_LIMIT)
    requires InfoAllowed(m, tabs[pid].root, dest, ptr)
    ensures var root, p, m2 := tabs[pid].root, dest % VA_LIMIT, Splice(m, Lookup(m, tabs[pid].root, dest).pa, bs);
            && KInv(m2, info, tabs, {}) && OthersKept(m, m2, tabs, pid) && HeldKept(m, info, m2, info)
            && (forall w :: PROC_START_ADDR <= w < MEMSIZE_VIRTUAL ==>
                  ReadVirtual(m2, root, w) ==
                    if p <= w < p + INFO_SIZE then Some(bs[w - p]) else ReadVirtual(m, root, w))
  {
    hide KInv, FrameAt, ReadVirtual, Splice, Lookup, OthersKept, HeldKept, SameLeaves, InfoAllowed, OnConsole;
    hide PhysAddr, PageOfAddr;
    InfoStore(m, info, tabs, pid, dest, ptr);
    SpliceSeen(m, info, tabs, {}, pid, dest % VA_LIMIT, bs);
  }

  // ----- what the accounting means ------------------------------------------------------------

  ghost predicate MapsFrame(m: Memory, tabs: map<int, Tables>, q: int, v: int, f: int)
    requires q in tabs
  {
    UserPage(v) && FrameAt(m, tabs[q].root, v) == f
  }

  /** A frame owned by a process is referenced once: it is one of that process's
      tables and mapped nowhere, or mapped at one user page of that process alone. */
  lemma OwnedOnce(m: Memory, info: seq<PageInfo>, tabs: map<int, Tables>, f: int)
    requires KInv(m, info, tabs, {}) && 0 <= f < NPAGES && info[f].owner > 0
    ensures var pid := info[f].owner;
            && info[f].refcount == 1 && pid in tabs
            && (forall q :: q in tabs && q != pid ==> f * PAGE !in tabs[q].lay)
            && (forall q, v :: q in tabs && MapsFrame(m, tabs, q, v, f) ==> q == pid && f * PAGE !in tabs[pid].lay)
            && (f * PAGE in tabs[pid].lay || exists v :: MapsFrame(m, tabs, pid, v, f))
            && (forall v, w :: MapsFrame(m, tabs, pid, v, f) && MapsFrame(m, tabs, pid, w, f) ==> v == w)
  {
    hide FrameAt, Tree, Covers, LowIdentity;
    var pid := info[f].owner;
    assert InUse(m, f, tabs[pid]);
    assert f * PAGE / PAGE == f;
    assert ProcInv(m, info, pid, tabs[pid], {});
    forall q | q in tabs && q != pid
      ensures f * PAGE !in tabs[q].lay
    {
      assert ProcInv(m, info, q, tabs[q], {});
    }
    forall q, v | q in tabs && MapsFrame(m, tabs, q, v, f)
      ensures q == pid && f * PAGE !in tabs[pid].lay
    {
      assert ProcInv(m, info, q, tabs[q], {});
    }
    if f * PAGE !in tabs[pid].lay {
      var v :| UserPage(v) && FrameAt(m, tabs[pid].root, v) == f;
      assert MapsFrame(m, tabs, pid, v, f);
    }
  }

  /** What palloc may hand out is no process's table and mapped at no user page. */
  lemma FreeUnused(m: Memory, info: seq<PageInfo>, tabs: map<int, Tables>, f: int, q: int, v: int)
    requires KInv(m, info, tabs, {}) && 0 <= f < NPAGES && info[f] == PageInfo(0, 0) && q in tabs
    ensures f * PAGE !in tabs[q].lay && !MapsFrame(m, tabs, q, v, f)
  {
    hide FrameAt, Tree, Covers, LowIdentity;
    assert f * PAGE / PAGE == f;
    assert ProcInv(m, info, q, tabs[q], {});
  }

  // ----- check_virtual_memory -------------------------------------------------------------------

  /** check_page_table_ownership_level: t is owned by owner and referenced refcount times, and every
      table below it, following every nonzero entry, once. */
  ghost predicate OwnershipOk(m: Memory, info: seq<PageInfo>, t: int, level: nat, owner: int, refcount: int)
    requires level <= 3
    decreases 3 - level
  {
    && 0 <= t / PAGE < |info| && info[t / PAGE] == PageInfo(owner, refcount)
    && (level < 3 ==> forall i :: 0 <= i < 512 && Entry(m, t, i) != 0 ==>
          OwnershipOk(m, info, PteAddr(Entry(m, t, i)), level + 1, owner, 1))
  }

  /** The ownership check passes on every table tree whose pages have one owner and one reference. */
  lemma {:induction false} OwnershipCheckPasses(m: Memory, info: seq<PageInfo>, root: int, lay: Layout, owner: int,
                                                t: int, level: nat)
    requires Tree(m, root, lay) && TablesOwned(info, owner, lay) && level <= 3 && t in lay && lay[t].0 == level
    ensures OwnershipOk(m, info, t, level, owner, 1)
    decreases 3 - level
  {
    if level < 3 {
      forall i | 0 <= i < 512 && Entry(m, t, i) != 0
        ensures OwnershipOk(m, info, PteAddr(Entry(m, t, i)), level + 1, owner, 1)
      {
        var e := Entry(m, t, i);
        assert PteAddr(e) in lay && lay[PteAddr(e)].0 == level + 1;
        hide Tree, Entry, PteAddr;
        OwnershipCheckPasses(m, info, root, lay, owner, PteAddr(e), level + 1);
      }
    }
  }

  /** check_page_table_mappings: low memory, where the kernel and its stack live, looks up as itself, writable. */
  ghost predicate MappingsOk(m: Memory, root: int)
  {
    && PteAddr(root) == root
    && forall va :: 0 <= va < PROC_START_ADDR ==>
         var r := Lookup(m, root, va); r.pa == va && Writable(r.perm)
  }

  /** It does in every process's table. */
  lemma MappingsCheckPasses(m: Memory, info: seq<PageInfo>, tabs: map<int, Tables>, pid: int)
    requires KInv(m, info, tabs, {}) && pid in tabs
    ensures MappingsOk(m, tabs[pid].root)
  {
    assert ProcInv(m, info, pid, tabs[pid], {});
    hide KInv, Leaf, Follow, Tree, Accounted, Writable, MappingOf;
    forall va | 0 <= va < PROC_START_ADDR
      ensures var r := Lookup(m, tabs[pid].root, va); r.pa == va && Writable(r.perm)
    {
      LowLookup(m, info, tabs, pid, va);
    }
    RootAligned(m, tabs[pid].root, tabs[pid].lay);
  }

  lemma RootAligned(m: Memory, root: int, lay: Layout)
    requires Tree(m, root, lay)
    ensures PteAddr(root) == root
  {
  }

  lemma LowLookup(m: Memory, info: seq<PageInfo>, tabs: map<int, Tables>, pid: int, va: int)
    requires KInv(m, info, tabs, {}) && pid in tabs && 0 <= va < PROC_START_ADDR
    ensures var r := Lookup(m, tabs[pid].root, va); r.pa == va && Writable(r.perm)
  {
    UserLeaf(m, info, tabs, {}, pid, va);
    LookupTranslates(m, tabs[pid].root, tabs[pid].lay, va);
    assert ProcInv(m, info, pid, tabs[pid], {});
    LeafNat(m, tabs[pid].root, va);
    LowFlags(Leaf(m, tabs[pid].root, va).value);
    hide Leaf, Follow, Tree, Accounted, Writable, PteAddr;
  }

  /** The kernel's own tables: a tree of its own frames that maps physical memory to itself with all rights. */
  ghost predicate KernelTables(m: Memory, info: seq<PageInfo>, root: int, lay: Layout)
  {
    && |m| == MEMSIZE_PHYSICAL && Tree(m, root, lay) && TablesOwned(info, PO_KERNEL, lay)
    && forall va :: 0 <= va < MEMSIZE_PHYSICAL ==>
         Lookup(m, root, va) == Mapping(va / PAGE, va, 7)
  }

  /** They stay so while the frames the kernel holds do. */
  lemma KernelTablesKept(m: Memory, info: seq<PageInfo>, m2: Memory, info2: seq<PageInfo>, root: int, lay: Layout)
    requires KernelTables(m, info, root, lay) && HeldKept(m, info, m2, info2)
    ensures KernelTables(m2, info2, root, lay)
  {
    hide Leaf, Follow, MappingOf, SameBytes;
    forall t | t in lay
      ensures SameBytes(m, m2, t, t + PAGE) && 0 <= t / PAGE < |info2| && info2[t / PAGE] == PageInfo(PO_KERNEL, 1)
    {
      assert t == t / PAGE * PAGE;
    }
    TreeFrame(m, m2, root, lay);
    hide Tree;
    forall va | 0 <= va < MEMSIZE_PHYSICAL
      ensures Lookup(m2, root, va) == Mapping(va / PAGE, va, 7)
    {
      LookupTranslates(m, root, lay, va);
      LookupTranslates(m2, root, lay, va);
    }
  }

  lemma KernelMappingsPass(m: Memory, info: seq<PageInfo>, root: int, lay: Layout)
    requires KernelTables(m, info, root, lay)
    ensures MappingsOk(m, root)
  {
    RootAligned(m, root, lay);
    hide Tree, Follow, MappingOf;
    assert Writable(7);
  }

  /** The last loop of check_virtual_memory: a referenced frame's owner is an active process, as long
      as every process with page tables is. */
  lemma ReferencedCheckPasses(m: Memory, info: seq<PageInfo>, tabs: map<int, Tables>, procs: seq<Proc>, f: int)
    requires KInv(m, info, tabs, {}) && 0 <= f < NPAGES && info[f].refcount > 0 && info[f].owner >= 0
    requires forall pid :: pid in tabs ==> 0 <= pid < |procs| && procs[pid].state != Free
    ensures 0 <= info[f].owner < |procs| && procs[info[f].owner].state != Free
  {
    hide ProcInv, InUse;
    assert info[f].owner != 0;
  }

  /** The active processes that run on the kernel's table. */
  ghost function OnTable(procs: seq<Proc>, root: int): set<int>
  {
    set pid | 0 <= pid < |procs| && procs[pid].state != Free && procs[pid].pagetable == root
  }

  /** check_virtual_memory, with the kernel's table at kernelTable: what the kernel asserts of itself
      at every trap. */
  ghost predicate CheckPasses(s: Snapshot, kernelTable: int)
  {
    && 0 < |s.procs| && s.procs[0].state == Free
    && MappingsOk(s.mem, kernelTable)
    && OwnershipOk(s.mem, s.info, kernelTable, 0, PO_KERNEL, 1 + |OnTable(s.procs, kernelTable)|)
    && (forall pid :: 0 <= pid < |s.procs| && s.procs[pid].state != Free && s.procs[pid].pagetable != kernelTable ==>
          && MappingsOk(s.mem, s.procs[pid].pagetable)
          && OwnershipOk(s.mem, s.info, s.procs[pid].pagetable, 0, pid, 1))
    && forall pn :: 0 <= pn < |s.info| && s.info[pn].refcount > 0 && s.info[pn].owner >= 0 ==>
         s.info[pn].owner < |s.procs| && s.procs[s.info[pn].owner].state != Free
  }

  /** All of it passes in every state that keeps the accounting, with the slots in order and the
      kernel's tables in place. */
  lemma CheckVirtualMemory(s: Snapshot, root: int, lay: Layout)
    requires KInv(s.mem, s.info, s.tabs, {}) && Orderly(s.procs, s.tabs) && KernelTables(s.mem, s.info, root, lay)
    ensures CheckPasses(s, root)
  {
    hide KInv, MappingsOk, OwnershipOk, Follow, MappingOf;
    SizeOf(s.mem, s.info, s.tabs, {});
    KernelMappingsPass(s.mem, s.info, root, lay);
    OwnershipCheckPasses(s.mem, s.info, root, lay, PO_KERNEL, root, 0);
    forall pid | pid in s.tabs
      ensures s.procs[pid].pagetable != root && MappingsOk(s.mem, s.procs[pid].pagetable)
      ensures OwnershipOk(s.mem, s.info, s.procs[pid].pagetable, 0, pid, 1)
    {
      MappingsCheckPasses(s.mem, s.info, s.tabs, pid);
      TablesOf(s.mem, s.info, s.tabs, pid);
      OwnershipCheckPasses(s.mem, s.info, s.tabs[pid].root, s.tabs[pid].lay, pid, s.tabs[pid].root, 0);
    }
    hide Tree, TablesOwned;
    assert OnTable(s.procs, root) == {};
    forall f | 0 <= f < |s.info| && s.info[f].refcount > 0 && s.info[f].owner >= 0
      ensures s.info[f].owner < |s.procs| && s.procs[s.info[f].owner].state != Free
    {
      ReferencedCheckPasses(s.mem, s.info, s.tabs, s.procs, f);
    }
  }

  lemma TablesOf(m: Memory, info: seq<PageInfo>, tabs: map<int, Tables>, pid: int)
    requires KInv(m, info, tabs, {}) && pid in tabs
    ensures Tree(m, tabs[pid].root, tabs[pid].lay) && TablesOwned(info, pid, tabs[pid].lay)
  {
    assert ProcInv(m, info, pid, tabs[pid], {});
  }

  lemma FrameAtSame(m: Memory, m2: Memory, root: int, v: int)
    requires Leaf(m2, root, v) == Leaf(m, root, v)
    ensures FrameAt(m2, root, v) == FrameAt(m, root, v)
  {
    hide Leaf;
  }

  lemma LeafSetAfter(m: Memory, m1: Memory, m2: Memory, root: int, va: int, e: int)
    requires forall v :: 0 <= v < VA_LIMIT ==> Leaf(m1, root, v) == Leaf(m, root, v)
    requires LeafSet(m1, m2, root, va, e)
    ensures LeafSet(m, m2, root, va, e)
  {
    hide Leaf;
  }

  // ----- what a shrink keeps and loses -------------------------------------------------

  /** A shrink keeps every byte below the new break exactly when the new break is
      page-aligned or its page was not mapped; the partial page is dropped otherwise. */
  lemma ShrinkKeepsBelow(m: Memory, m2: Memory, info: seq<PageInfo>, tabs: map<int, Tables>, pid: int,
                         p: Proc, newBreak: int)
    requires KInv(m, info, tabs, {}) && pid in tabs && Breaks(p) && p.originalBreak <= newBreak < p.programBreak
    requires Dropped(m, m2, tabs[pid].root, RoundDown(newBreak, PAGE), RoundUp(p.programBreak, PAGE))
    requires OnlyLeafTables(m, m2, tabs[pid].lay)
    ensures (forall v :: p.originalBreak <= v < newBreak ==>
               ReadVirtual(m2, tabs[pid].root, v) == ReadVirtual(m, tabs[pid].root, v)) <==>
            newBreak % PAGE == 0 || FrameAt(m, tabs[pid].root, RoundDown(newBreak, PAGE)) == -1
  {
    hide KInv, Leaf, OnlyLeafTables, Dropped;
    var root, lo := tabs[pid].root, RoundDown(newBreak, PAGE);
    UserPageOf(newBreak);
    if newBreak % PAGE == 0 || FrameAt(m, root, lo) == -1 {
      forall v | p.originalBreak <= v < newBreak
        ensures ReadVirtual(m2, root, v) == ReadVirtual(m, root, v)
      {
        PageBase(v, lo);
        DroppedAt(m, m2, root, lo, RoundUp(p.programBreak, PAGE), v);
        UserByteKept(m, m2, info, tabs, {}, pid, v);
      }
    } else {
      DroppedAt(m, m2, root, lo, RoundUp(p.programBreak, PAGE), lo);
      MappedReads(m, info, tabs, pid, lo);
      assert ReadVirtual(m2, root, lo) == None;
      assert p.originalBreak <= lo < newBreak;
    }
  }

  lemma DroppedAt(m: Memory, m2: Memory, root: int, lo: int, hi: int, v: int)
    requires Dropped(m, m2, root, lo, hi) && 0 <= v < VA_LIMIT
    ensures Leaf(m2, root, v) ==
      if lo <= v - v % PAGE <= hi && FrameAt(m, root, v - v % PAGE) != -1 then Some(6) else Leaf(m, root, v)
  {
    hide Leaf, FrameAt;
  }

  lemma MappedReads(m: Memory, info: seq<PageInfo>, tabs: map<int, Tables>, pid: int, v: int)
    requires KInv(m, info, tabs, {}) && pid in tabs && UserPage(v) && FrameAt(m, tabs[pid].root, v) != -1
    ensures ReadVirtual(m, tabs[pid].root, v).Some?
  {
    LeafNat(m, tabs[pid].root, v);
    hide Leaf;
    EntrySplit(Leaf(m, tabs[pid].root, v).value);
    FrameOwned(m, info, tabs, {}, pid, v);
    hide KInv;
  }

  /** A shrink takes a mapped stack page with it exactly when the old break is past
      the page below the stack. */
  lemma ShrinkReachesStack(m: Memory, m2: Memory, root: int, p: Proc, newBreak: int)
    requires Breaks(p) && p.originalBreak <= newBreak < p.programBreak
    requires Dropped(m, m2, root, RoundDown(newBreak, PAGE), RoundUp(p.programBreak, PAGE))
    requires FrameAt(m, root, MEMSIZE_VIRTUAL - PAGE) != -1
    ensures FrameAt(m2, root, MEMSIZE_VIRTUAL - PAGE) == -1 <==> p.programBreak > MEMSIZE_VIRTUAL - 2 * PAGE
  {
    hide Leaf, Dropped, FrameAt, RoundDown, RoundUp;
    StackInRange(p, newBreak);
    DroppedAt(m, m2, root, RoundDown(newBreak, PAGE), RoundUp(p.programBreak, PAGE), MEMSIZE_VIRTUAL - PAGE);
    FrameFromLeaf(m, root, MEMSIZE_VIRTUAL - PAGE);
    FrameFromLeaf(m2, root, MEMSIZE_VIRTUAL - PAGE);
  }

  lemma StackInRange(p: Proc, newBreak: int)
    requires Breaks(p) && p.originalBreak <= newBreak < p.programBreak
    ensures RoundDown(newBreak, PAGE) <= MEMSIZE_VIRTUAL - PAGE <= RoundUp(p.programBreak, PAGE) <==>
            p.programBreak > MEMSIZE_VIRTUAL - 2 * PAGE
  {
  }

  lemma FrameFromLeaf(m: Memory, root: int, v: int)
    ensures FrameAt(m, root, v) == match Leaf(m, root, v) case None => -1 case Some(e) => FrameOf(e)
    ensures FrameOf(6) == -1
  {
    hide Leaf;
  }

  /** C's conversion to a 64-bit signed integer. */
  function AsInt64(x: int): int
  {
    (x + U64 / 2) % U64 - U64 / 2
  }

  /** The wrapped comparison accepts exactly the sums in range. */
  lemma BreakTest(p: Proc, difference: int)
    requires Breaks(p) && -U64 / 2 <= difference < U64 / 2
    ensures var sum := p.programBreak + difference;
            var newBreak := sum % U64;
            && (newBreak >= MEMSIZE_VIRTUAL - PAGE || newBreak < p.originalBreak <==>
                !(p.originalBreak <= sum < MEMSIZE_VIRTUAL - PAGE))
            && (p.originalBreak <= sum < MEMSIZE_VIRTUAL - PAGE ==> newBreak == sum)
  {
  }

  lemma NothingDropped(m: Memory, info: seq<PageInfo>, t: Tables, hi: int)
    ensures Dropped(m, m, t.root, hi + PAGE, hi) && Released(m, info, info, t.root, hi + PAGE, hi)
    ensures OnlyLeafTables(m, m, t.lay)
  {
    hide Leaf, FrameAt;
  }

  /** One more page dropped. */
  lemma DropOne(m: Memory, m1: Memory, m2: Memory, info: seq<PageInfo>, info1: seq<PageInfo>, info2: seq<PageInfo>,
                t: Tables, i: int, hi: int)
    requires UserPage(i) && i <= hi && |info| == |info1| == NPAGES
    requires Dropped(m, m1, t.root, i + PAGE, hi) && Released(m, info, info1, t.root, i + PAGE, hi)
    requires OnlyLeafTables(m, m1, t.lay)
    requires var f := FrameAt(m1, t.root, i);
             if f == -1 then m2 == m1 && info2 == info1
             else 0 <= f < NPAGES && info2 == info1[f := PageInfo(0, 0)] && LeafSet(m1, m2, t.root, i, 6)
                  && OnlyLeafTables(m1, m2, t.lay)
    ensures Dropped(m, m2, t.root, i, hi) && Released(m, info, info2, t.root, i, hi)
    ensures OnlyLeafTables(m, m2, t.lay)
  {
    DropSameFrame(m, m1, t.root, i, hi);
    DropLeaves(m, m1, m2, t.root, i, hi);
    hide Leaf, FrameAt, Dropped, LeafSet;
    assert forall f {:trigger MappedIn(m, t.root, i, hi, f)} ::
      MappedIn(m, t.root, i, hi, f) <==> MappedIn(m, t.root, i + PAGE, hi, f) || FrameAt(m, t.root, i) == f by {
      MappedInStep(m, t.root, i, hi);
    }
  }

  lemma MappedInStep(m: Memory, root: int, i: int, hi: int)
    requires UserPage(i) && i <= hi
    ensures forall f {:trigger MappedIn(m, root, i, hi, f)} ::
              MappedIn(m, root, i, hi, f) <==> MappedIn(m, root, i + PAGE, hi, f) || FrameAt(m, root, i) == f
  {
    hide FrameAt;
    forall f
      ensures MappedIn(m, root, i, hi, f) <==> MappedIn(m, root, i + PAGE, hi, f) || FrameAt(m, root, i) == f
    {
      if MappedIn(m, root, i, hi, f) {
        var v :| UserPage(v) && i <= v <= hi && FrameAt(m, root, v) == f;
        assert v == i || i + PAGE <= v;
      }
    }
  }

  /** The page about to be dropped is mapped as it was at the start. */
  lemma DropSameFrame(m: Memory, m1: Memory, root: int, i: int, hi: int)
    requires Dropped(m, m1, root, i + PAGE, hi) && UserPage(i)
    ensures FrameAt(m1, root, i) == FrameAt(m, root, i)
  {
    assert i - i % PAGE == i;
    hide Leaf;
  }

  lemma DropLeaves(m: Memory, m1: Memory, m2: Memory, root: int, i: int, hi: int)
    requires UserPage(i) && i <= hi && Dropped(m, m1, root, i + PAGE, hi)
    requires FrameAt(m1, root, i) == FrameAt(m, root, i)
    requires if FrameAt(m1, root, i) == -1 then m2 == m1 else LeafSet(m1, m2, root, i, 6)
    ensures Dropped(m, m2, root, i, hi)
  {
    hide Leaf, FrameAt;
    forall v | 0 <= v < VA_LIMIT
      ensures Leaf(m2, root, v) ==
        if i <= v - v % PAGE <= hi && FrameAt(m, root, v - v % PAGE) != -1 then Some(6) else Leaf(m, root, v)
    {
      PageBase(v, i);
    }
  }

  /** In the tree, the lookup of a user page yields its frame. */
  lemma LookupFrame(m: Memory, info: seq<PageInfo>, tabs: map<int, Tables>, loose: set<int>, pid: int, va: int)
    requires KInv(m, info, tabs, loose) && pid in tabs && UserPage(va)
    ensures var r, f := Lookup(m, tabs[pid].root, va), FrameAt(m, tabs[pid].root, va);
            && -1 <= f < NPAGES && r.pn == f
            && (f >= 0 ==> r.pa == f * PAGE && r.pa + PAGE <= MEMSIZE_PHYSICAL)
  {
    FrameOwned(m, info, tabs, loose, pid, va);
    UserLeaf(m, info, tabs, loose, pid, va);
    hide KInv;
    LookupTranslates(m, tabs[pid].root, tabs[pid].lay, va);
    TranslateFrame(m, tabs[pid].root, va);
    hide Leaf, Follow, Tree, FrameAt, MappingOf, Translate;
  }

  lemma TranslateFrame(m: Memory, root: int, va: int)
    requires va % PAGE == 0 && FrameAt(m, root, va) < NPAGES
    ensures var r, f := Translate(m, root, va), FrameAt(m, root, va);
            -1 <= f && r.pn == f && (f >= 0 ==> r.pa == f * PAGE && r.pa + PAGE <= MEMSIZE_PHYSICAL)
  {
    LeafNat(m, root, va);
    hide Leaf;
    if Leaf(m, root, va).Some? {
      EntrySplit(Leaf(m, root, va).value);
    }
  }

  lemma UserLeaf(m: Memory, info: seq<PageInfo>, tabs: map<int, Tables>, loose: set<int>, pid: int, va: int)
    requires KInv(m, info, tabs, loose) && pid in tabs && 0 <= va < MEMSIZE_VIRTUAL
    ensures Leaf(m, tabs[pid].root, va).Some? && Tree(m, tabs[pid].root, tabs[pid].lay)
  {
    assert ProcInv(m, info, pid, tabs[pid], loose);
  }

  lemma FrameOwned(m: Memory, info: seq<PageInfo>, tabs: map<int, Tables>, loose: set<int>, pid: int, va: int)
    requires KInv(m, info, tabs, loose) && pid in tabs && UserPage(va)
    ensures var f := FrameAt(m, tabs[pid].root, va); f >= 0 ==> f < NPAGES && info[f] == PageInfo(pid, 1)
  {
    assert ProcInv(m, info, pid, tabs[pid], loose);
    hide FrameAt;
  }

  lemma EntryFrameOf(pa: int, perm: int)
    requires pa % PAGE == 0 && 0 <= pa && 0 <= perm < PAGE && Present(perm)
    ensures FrameOf(pa + perm) == pa / PAGE && NewEntry(pa, perm, 0) == pa + perm
  {
  }

  /** Mapping one page sets one leaf. */
  lemma OnePage(m: Memory, m2: Memory, root: int, va: int, pa: int, perm: int)
    requires MappedRange(m, m2, root, va, 1, pa, perm) && 0 <= va < VA_LIMIT && Leaf(m, root, va).Some?
    ensures LeafSet(m, m2, root, va, NewEntry(pa, perm, 0))
  {
    forall v | 0 <= v < VA_LIMIT
      ensures Leaf(m2, root, v) == if v / PAGE == va / PAGE then Some(NewEntry(pa, perm, 0)) else Leaf(m, root, v)
    {
      if v / PAGE == va / PAGE {
        SamePageLeaf(m, root, v, va);
      }
      hide Leaf, NewEntry;
    }
  }

  lemma FirstFreeStep(info: seq<PageInfo>, k: nat)
    requires k < |info|
    ensures info[k] == PageInfo(0, 0) ==> FirstFree(info, k) == k
    ensures info[k] != PageInfo(0, 0) ==> FirstFree(info, k) == FirstFree(info, k + 1)
  {
  }

  lemma FirstFreeEnd(info: seq<PageInfo>)
    ensures FirstFree(info, |info|) == |info|
  {
  }

  lemma LooseIsOwned(info: seq<PageInfo>, tabs: map<int, Tables>, loose: set<int>, f: int)
    requires LooseOwned(info, tabs, loose) && 0 <= f < |info| && info[f].refcount == 0
    ensures f !in loose
  {
  }
}
