/** What the kernel's steps owe the running process, said in numbers, pages and frames: which breaks are
    accepted, which pages a shrink takes, which faults are served, what an exit gives back. */
module KernelLaws {
  import opened Words
  import opened PageTables
  import opened VirtualMemory
  import opened KernelState
  import opened Isolation
  import opened KernelSpec
  import opened Kernel
  import KernelRuns
  import Scheduler

  // ----- breaks --------------------------------------------------------------------------------

  /** The page at v is one a shrink from oldBreak to newBreak takes: it begins less than a page below the new
      break, or above it, and less than a page above the old one. */
  predicate GivenUp(oldBreak: int, newBreak: int, v: int)
  {
    newBreak < oldBreak && newBreak - 4096 < v < oldBreak + 4096
  }

  ghost predicate FrameGivenUp(m: Memory, root: int, oldBreak: int, newBreak: int, f: int)
  {
    exists v :: UserPage(v) && GivenUp(oldBreak, newBreak, v) && FrameAt(m, root, v) == f
  }

  /** From s to t the break of pid moves to newBreak if that lies between the original break and the page below
      the stack; a shrink unmaps the pages it gives up and frees exactly their frames. */
  ghost predicate BreakLaw(s: Snapshot, t: Snapshot, pid: int, newBreak: int)
    requires 0 <= pid < |s.procs| && pid in s.tabs
  {
    var p, root := s.procs[pid], s.tabs[pid].root;
    if p.originalBreak <= newBreak < 0x2F_F000 then
      && t.procs == s.procs[pid := Proc(newBreak, p.originalBreak, p.pagetable, p.state)]
      && t.tabs == s.tabs && t.current == s.current && |t.info| == |s.info|
      && (forall v :: UserPage(v) ==>
            FrameAt(t.mem, root, v) ==
              if GivenUp(p.programBreak, newBreak, v) then -1 else FrameAt(s.mem, root, v))
      && forall f :: 0 <= f < |s.info| ==>
           t.info[f] ==
             if FrameGivenUp(s.mem, root, p.programBreak, newBreak, f) then PageInfo(0, 0) else s.info[f]
    else t == s
  }

  lemma BreakObeys(s: Snapshot, t: Snapshot, pid: int, newBreak: int)
    requires 0 <= pid < |s.procs| && BreakMoved(s, t, pid, newBreak)
    ensures BreakLaw(s, t, pid, newBreak)
  {
    hide OnlyLeafTables, FrameAt, RoundDown, RoundUp, Dropped, Released;
    var p, root := s.procs[pid], s.tabs[pid].root;
    if BreakAllowed(p, newBreak) && newBreak < p.programBreak {
      var lo, hi := RoundDown(newBreak, PAGE), RoundUp(p.programBreak, PAGE);
      forall v | UserPage(v)
        ensures lo <= v <= hi <==> GivenUp(p.programBreak, newBreak, v)
        ensures FrameAt(t.mem, root, v) == if lo <= v <= hi then -1 else FrameAt(s.mem, root, v)
      {
        WithinPages(p.programBreak, newBreak, v);
        DroppedFrame(s.mem, t.mem, root, lo, hi, v);
      }
      forall f | 0 <= f < |s.info|
        ensures FrameGivenUp(s.mem, root, p.programBreak, newBreak, f) <==> MappedIn(s.mem, root, lo, hi, f)
      {
        if FrameGivenUp(s.mem, root, p.programBreak, newBreak, f) {
          var v :| UserPage(v) && GivenUp(p.programBreak, newBreak, v) && FrameAt(s.mem, root, v) == f;
          assert lo <= v <= hi;
        }
      }
      hide GivenUp, FrameGivenUp, MappedIn;
      ReleasedFrames(s.mem, s.info, t.info, root, lo, hi);
    } else {
      assert forall v :: !GivenUp(p.programBreak, newBreak, v) || !BreakAllowed(p, newBreak);
    }
  }

  lemma WithinPages(oldBreak: int, newBreak: int, v: int)
    requires v % PAGE == 0 && newBreak < oldBreak
    ensures RoundDown(newBreak, PAGE) <= v <= RoundUp(oldBreak, PAGE) <==> GivenUp(oldBreak, newBreak, v)
  {
  }

  lemma DroppedFrame(m: Memory, m2: Memory, root: int, lo: int, hi: int, v: int)
    requires Dropped(m, m2, root, lo, hi) && UserPage(v)
    ensures FrameAt(m2, root, v) == if lo <= v <= hi then -1 else FrameAt(m, root, v)
  {
    DroppedAt(m, m2, root, lo, hi, v);
    hide Leaf, Dropped;
    assert v - v % PAGE == v;
    assert FrameOf(6) == -1;
  }

  lemma ReleasedFrames(m: Memory, info: seq<PageInfo>, info2: seq<PageInfo>, root: int, lo: int, hi: int)
    requires Released(m, info, info2, root, lo, hi)
    ensures |info2| == |info|
    ensures forall f :: 0 <= f < |info| ==>
              info2[f] == if MappedIn(m, root, lo, hi, f) then PageInfo(0, 0) else info[f]
  {
    hide MappedIn;
  }

  // ----- exit and faults ---------------------------------------------------------------------------

  /** From s to t the current process is gone, with its tables, its slot and every frame it owned, and the
      nearest runnable process is current, if there is one. */
  ghost predicate ExitLaw(s: Snapshot, t: Snapshot, halted: bool)
    requires 0 <= s.current < |s.procs|
  {
    var pid := s.current;
    && t.mem == s.mem && t.tabs == s.tabs - {pid} && |t.info| == |s.info|
    && t.procs == s.procs[pid := s.procs[pid].(state := Free)]
    && (forall f :: 0 <= f < |s.info| ==>
          t.info[f] == if s.info[f].owner == pid then PageInfo(0, 0) else s.info[f])
    && (halted <==> forall q :: 0 <= q < |t.procs| ==> t.procs[q].state != Runnable)
    && (!halted ==> |t.procs| == |s.procs| && Scheduler.FirstAfter(RunnableSlots(t.procs), pid, t.current))
  }

  lemma ExitObeys(s: Snapshot, t: Snapshot, halted: bool)
    requires 0 <= s.current < |s.procs| && Left(s, t, halted)
    ensures ExitLaw(s, t, halted)
  {
    var u :| Gone(s, u, s.current) && Scheduled(u, t, halted);
    hide Scheduler.IsNext, Scheduler.FirstAfter;
    Scheduler.NextIsFirst(RunnableSlots(u.procs), s.current, t.current);
  }

  /** A fault at addr: between the breaks, on an unmapped page and with a frame free, the lowest free frame
      becomes the page, filled with 0xCC; any other ends the process. */
  ghost predicate FaultLaw(s: Snapshot, t: Snapshot, addr: int, halted: bool)
    requires 0 <= s.current < |s.procs| && s.current in s.tabs
  {
    var pid, page := s.current, addr - addr % 4096;
    var p, root := s.procs[pid], s.tabs[pid].root;
    if p.originalBreak <= addr < p.programBreak && FrameAt(s.mem, root, page) == -1 && FreeFrames(s.info) != {} then
      && !halted && t.procs == s.procs && t.tabs == s.tabs && t.current == s.current
      && exists f ::
           && f in FreeFrames(s.info) && (forall g :: g in FreeFrames(s.info) ==> f <= g)
           && t.info == s.info[f := PageInfo(pid, 1)] && FrameAt(t.mem, root, page) == f
           && forall v :: page <= v < page + 4096 ==> ReadVirtual(t.mem, root, v) == Some(0xCC)
    else ExitLaw(s, t, halted)
  }

  lemma LowestFree(info: seq<PageInfo>)
    requires 1 <= |info|
    ensures var f := FirstFree(info, 1);
            if f < |info| then f in FreeFrames(info) && forall g :: g in FreeFrames(info) ==> f <= g
            else FreeFrames(info) == {}
  {
    hide FirstFree;
  }

  lemma FaultObeys(s: Snapshot, t: Snapshot, addr: int, halted: bool)
    requires KInv(s.mem, s.info, s.tabs, {}) && HasCurrent(s) && Faulted(s, t, addr, halted)
    requires Breaks(s.procs[s.current])
    ensures FaultLaw(s, t, addr, halted)
  {
    SizeOf(s.mem, s.info, s.tabs, {});
    LowestFree(s.info);
    hide KInv, FrameAt, LeafSet, OnlyFrameAndLeaves, ElsewhereKept, ReadVirtual, FreeFrames, FirstFree, ExitLaw, Left;
    if Served(s, s.current, addr) {
      BreaksInRange(s.procs[s.current], addr);
      GivenFrame(s, t, addr);
    } else {
      ExitObeys(s, t, halted);
    }
  }

  lemma GivenFrame(s: Snapshot, t: Snapshot, addr: int)
    requires HasCurrent(s) && PageGiven(s, t, s.current, addr) && PROC_START_ADDR <= addr < MEMSIZE_VIRTUAL
    ensures var f := FirstFree(s.info, 1);
            FrameAt(t.mem, s.tabs[s.current].root, addr - addr % 4096) == f
  {
    hide FrameAt, Leaf, LeafSet, OnlyFrameAndLeaves, ElsewhereKept, ReadVirtual, FirstFree, FrameOf, NewEntry;
    UserPageOf(addr);
    var f := FirstFree(s.info, 1);
    FramesAfter(s.mem, t.mem, s.tabs[s.current].root, addr - addr % PAGE, f * PAGE + 7);
    EntryFrameOf(f * PAGE, 7);
  }

  // ----- steps of a run ------------------------------------------------------------------------------

  /** What a step owes, by its event. */
  ghost predicate StepLaw(s: Snapshot, ev: Event, t: Snapshot, halted: bool)
    requires 0 <= s.current < |s.procs| && s.current in s.tabs
  {
    match ev
    case SysBrk(addr) => !halted && BreakLaw(s, t, s.current, addr)
    case SysSbrk(d) => !halted && BreakLaw(s, t, s.current, s.procs[s.current].programBreak + d)
    case Fault(addr) => FaultLaw(s, t, addr, halted)
    case Exit => ExitLaw(s, t, halted)
    case Yield =>
      && t == s.(current := t.current)
      && (halted <==> forall q :: 0 <= q < |s.procs| ==> s.procs[q].state != Runnable)
      && (!halted ==> Scheduler.FirstAfter(RunnableSlots(s.procs), s.current, t.current))
    case Store(addr, b) =>
      if 0x10_0000 <= addr < 0x30_0000 && Grants(s.mem, s.tabs[s.current].root, addr, true) then
        !halted && t == s.(mem := t.mem)
        && ReadVirtual(t.mem, s.tabs[s.current].root, addr) == Some(b)
      else FaultLaw(s, t, addr, halted)
    case MapInfo(_, _, _) => !halted && t == s.(mem := t.mem)
  }

  /** The page map has v present, writable and, if asked, for the user. */
  ghost predicate Grants(m: Memory, root: int, v: int, user: bool)
  {
    match Leaf(m, root, v)
    case None => false
    case Some(e) => Present(e) && Writable(e) && (user ==> User(e))
  }

  /** Every step obeys the law of its event. */
  lemma StepObeys(s: Snapshot, ev: Event, t: Snapshot, halted: bool)
    requires KInv(s.mem, s.info, s.tabs, {}) && Orderly(s.procs, s.tabs) && Handled(s, ev, t, halted)
    ensures StepLaw(s, ev, t, halted)
  {
    hide KInv, OthersKept, BreakMoved, Faulted, Left, Written, MayStore, InfoWritten, BreakLaw, FaultLaw, ExitLaw;
    hide Scheduler.IsNext, Scheduler.FirstAfter, WellFormed, Grants, ReadVirtual;
    match ev
    case SysBrk(addr) => BreakObeys(s, t, s.current, addr);
    case SysSbrk(d) => BreakObeys(s, t, s.current, s.procs[s.current].programBreak + d);
    case Fault(addr) => FaultObeys(s, t, addr, halted);
    case Exit => ExitObeys(s, t, halted);
    case Store(addr, b) =>
      StoreAllowed(s, s.current, addr);
      if MayStore(s, s.current, addr) {
        StoreObeys(s, t, addr, b);
      } else {
        FaultObeys(s, t, addr, halted);
      }
    case Yield => Scheduler.NextIsFirst(RunnableSlots(s.procs), s.current, t.current);
    case MapInfo(dest, ptr, pad) => InfoChangesMemory(s, t, s.current, dest, ptr, pad);
  }

  lemma StoreAllowed(s: Snapshot, pid: int, addr: int)
    requires pid in s.tabs
    ensures MayStore(s, pid, addr) <==> 0x10_0000 <= addr < 0x30_0000 && Grants(s.mem, s.tabs[pid].root, addr, true)
  {
    hide Leaf;
  }

  lemma StoreObeys(s: Snapshot, t: Snapshot, addr: int, b: Byte)
    requires KInv(s.mem, s.info, s.tabs, {}) && HasCurrent(s) && WellFormed(Store(addr, b))
    requires MayStore(s, s.current, addr) && Written(s, t, s.current, addr, b)
    ensures t == s.(mem := t.mem)
    ensures ReadVirtual(t.mem, s.tabs[s.current].root, addr) == Some(b)
  {
    hide KInv, Leaf, ReadVirtual, FrameAt;
    KernelRuns.StoreByte(s, t, s.current, addr, b, addr);
  }

  lemma InfoChangesMemory(s: Snapshot, t: Snapshot, pid: int, dest: int, ptr: int, pad: seq<Byte>)
    requires InfoWritten(s, t, pid, dest, ptr, pad)
    ensures t == s.(mem := t.mem)
  {
    hide Splice, InfoBytes, InfoAllowed, Lookup;
  }

  /** So does every step of a run. */
  lemma RunObeys(trace: seq<Snapshot>, events: seq<Event>, halted: bool, i: nat) returns (last: bool)
    requires IsTrace(trace, events, halted) && i + 1 < |trace|
    ensures i < |events| && 0 <= trace[i].current < |trace[i].procs| && trace[i].current in trace[i].tabs
    ensures StepLaw(trace[i], events[i], trace[i + 1], last) && (last ==> halted && i + 2 == |trace|)
  {
    hide KInv, Orderly, StepLaw;
    last := halted && i == |trace| - 2;
    assert Handled(trace[i], events[i], trace[i + 1], last);
    StepObeys(trace[i], events[i], trace[i + 1], last);
    hide OthersKept, BreakMoved, Faulted, Left, Written, MayStore, InfoWritten, WellFormed, Scheduled;
  }
}
