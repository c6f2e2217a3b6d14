/** Whole runs of the kernel and its processes: what each process finds in its memory, fair
    turns, and the shrinks that drop more than they should. */
module KernelRuns {
  import opened Words
  import opened PageTables
  import opened VirtualMemory
  import opened KernelState
  import opened Isolation
  import opened KernelSpec
  import opened Kernel
  import Scheduler

  // ----- a process's memory over a run ------------------------------------------------------

  /** The step moves the break of process q down past the page of v. */
  ghost predicate ShrinksPast(s: Snapshot, q: int, newBreak: int, v: int)
    requires 0 <= q < |s.procs|
  {
    var p := s.procs[q];
    && BreakAllowed(p, newBreak) && newBreak < p.programBreak
    && RoundDown(newBreak, PAGE) <= PageOfAddr(v) <= RoundUp(p.programBreak, PAGE)
  }

  /** q's own step takes the page of v away, or maps it afresh. */
  ghost predicate Remaps(s: Snapshot, ev: Event, q: int, v: int)
    requires 0 <= s.current < |s.procs|
  {
    s.current == q &&
    match ev
    case SysBrk(addr) => ShrinksPast(s, q, addr, v)
    case SysSbrk(increment) => ShrinksPast(s, q, s.procs[q].programBreak + increment, v)
    case Fault(addr) => Served(s, q, addr) && PageOfAddr(addr) == PageOfAddr(v)
    case Yield => false
    case Exit => false
    case Store(addr, _) => !MayStore(s, q, addr) && Served(s, q, addr) && PageOfAddr(addr) == PageOfAddr(v)
    case MapInfo(_, _, _) => false
  }

  /** The byte q's own step puts at v: a store there, or a mapping it asked for. */
  ghost function StoredAt(s: Snapshot, ev: Event, q: int, v: int): Option<Byte>
  {
    if s.current != q || q !in s.tabs || !WellFormed(ev) then None else
    match ev
    case Store(addr, b) => if addr == v && MayStore(s, q, v) then Some(b) else None
    case MapInfo(dest, ptr, pad) =>
      var root, p := s.tabs[q].root, dest % VA_LIMIT;
      if InfoAllowed(s.mem, root, dest, ptr) && p <= v < p + INFO_SIZE
      then Some(InfoBytes(Lookup(s.mem, root, ptr), pad)[v - p]) else None
    case _ => None
  }

  /** What a byte reads after the step: what it stored, or what was there. */
  ghost function AfterStep(s: Snapshot, ev: Event, q: int, v: int): Option<Byte>
    requires q in s.tabs
  {
    if StoredAt(s, ev, q, v).Some? then StoredAt(s, ev, q, v) else ReadVirtual(s.mem, s.tabs[q].root, v)
  }

  /** A step that does not remap the page leaves q reading what it last stored at v, whoever ran. */
  lemma StepByte(s: Snapshot, ev: Event, t: Snapshot, halted: bool, q: int, v: int)
    requires KInv(s.mem, s.info, s.tabs, {}) && Handled(s, ev, t, halted) && q in t.tabs
    requires PROC_START_ADDR <= v < MEMSIZE_VIRTUAL && !Remaps(s, ev, q, v)
    ensures q in s.tabs && t.tabs[q] == s.tabs[q]
    ensures ReadVirtual(t.mem, t.tabs[q].root, v) == AfterStep(s, ev, q, v)
  {
    TablesShrink(s, ev, t, halted);
    hide KInv, Handled, ReadVirtual, OthersKept, Remaps, AfterStep;
    if s.current != q {
      OthersStep(s, ev, t, halted, q, v);
    } else {
      OwnStep(s, ev, t, halted, v);
    }
  }

  /** A step of another process leaves q's bytes alone. */
  lemma OthersStep(s: Snapshot, ev: Event, t: Snapshot, halted: bool, q: int, v: int)
    requires Handled(s, ev, t, halted) && q in s.tabs && q != s.current && PROC_START_ADDR <= v < MEMSIZE_VIRTUAL
    ensures ReadVirtual(t.mem, s.tabs[q].root, v) == AfterStep(s, ev, q, v)
  {
    hide ReadVirtual, OthersKept, BreakMoved, Faulted, Written, MayStore, Scheduled, Left, InfoWritten;
    OtherByte(s.mem, t.mem, s.tabs, s.current, q, v);
  }

  /** Its own step changes a byte only by storing it. */
  lemma OwnStep(s: Snapshot, ev: Event, t: Snapshot, halted: bool, v: int)
    requires KInv(s.mem, s.info, s.tabs, {}) && Handled(s, ev, t, halted) && s.current in t.tabs
    requires PROC_START_ADDR <= v < MEMSIZE_VIRTUAL && !Remaps(s, ev, s.current, v)
    ensures ReadVirtual(t.mem, s.tabs[s.current].root, v) == AfterStep(s, ev, s.current, v)
  {
    hide KInv, ReadVirtual, OthersKept, Served, Left, BreakMoved, Faulted, Written, MayStore, ShrinksPast, PageOfAddr;
    hide InfoWritten, InfoAllowed, InfoBytes, Lookup;
    var q := s.current;
    match ev
    case SysBrk(addr) => BreakByte(s, t, q, addr, v);
    case SysSbrk(increment) => BreakByte(s, t, q, s.procs[q].programBreak + increment, v);
    case Fault(addr) => FaultByte(s, t, addr, halted, v);
    case Yield =>
    case Exit => LeftTables(s, t, halted);
    case Store(addr, b) =>
      if MayStore(s, q, addr) {
        StoreByte(s, t, q, addr, b, v);
      } else {
        FaultByte(s, t, addr, halted, v);
      }
    case MapInfo(dest, ptr, pad) => InfoByte(s, t, q, dest, ptr, pad, v);
  }

  /** A mapping it asked for reads where it asked for it, and changes nothing else. */
  lemma InfoByte(s: Snapshot, t: Snapshot, q: int, dest: int, ptr: int, pad: seq<Byte>, v: int)
    requires KInv(s.mem, s.info, s.tabs, {}) && InfoWritten(s, t, q, dest, ptr, pad)
    requires WellFormed(MapInfo(dest, ptr, pad)) && PROC_START_ADDR <= v < MEMSIZE_VIRTUAL
    ensures var root, p := s.tabs[q].root, dest % VA_LIMIT;
            ReadVirtual(t.mem, root, v) ==
              if InfoAllowed(s.mem, root, dest, ptr) && p <= v < p + INFO_SIZE
              then Some(InfoBytes(Lookup(s.mem, root, ptr), pad)[v - p]) else ReadVirtual(s.mem, root, v)
  {
    hide KInv, Leaf, FrameAt, ReadVirtual, Splice, InfoBytes, InfoAllowed, Lookup, OthersKept, HeldKept;
    var root := s.tabs[q].root;
    if InfoAllowed(s.mem, root, dest, ptr) {
      InfoSeen(s.mem, s.info, s.tabs, q, dest, ptr, InfoBytes(Lookup(s.mem, root, ptr), pad));
    }
  }

  /** Read back as the struct it is, the copy is the lookup's answer. */
  lemma InfoReadsBack(r: Mapping, pad: seq<Byte>)
    requires |pad| == 8 && -0x8000_0000 <= r.pn < 0x8000_0000 && 0 <= r.pa < U64 && 0 <= r.perm < 0x8000_0000
    ensures var bs := InfoBytes(r, pad);
            && AsInt32(Decode(bs[..4])) == r.pn && Decode(bs[8..16]) == r.pa && AsInt32(Decode(bs[16..20])) == r.perm
  {
    hide Decode, Encode, Pow256, InfoBytes, AsInt32;
    InfoFields(r, pad);
    IntReadsBack(r.pn);
    IntReadsBack(r.perm);
    AddressReadsBack(r.pa);
  }

  lemma AddressReadsBack(a: int)
    requires 0 <= a < U64
    ensures Decode(Encode(a % U64, 8)) == a
  {
    hide Decode, Encode, Pow256;
    Pow256Of8();
    DecodeEncode(a, 8);
  }

  /** For an address that is not mapped, whatever the tables: page number and address are all ones, and no
      flag is set. */
  lemma InfoOfAbsent(m: Memory, root: int, ptr: int, pad: seq<Byte>)
    requires |pad| == 8 && Walk(m, root, ptr, 4).None?
    ensures var bs := InfoBytes(Lookup(m, root, ptr), pad);
            && bs[..4] == [255, 255, 255, 255] && bs[8..16] == [255, 255, 255, 255, 255, 255, 255, 255]
            && bs[16..20] == [0, 0, 0, 0]
            && AsInt32(Decode(bs[..4])) == -1 && Decode(bs[8..16]) == 0xFFFF_FFFF_FFFF_FFFF
  {
    hide Walk, Lookup, PathEntry, InfoBytes, AsInt32, Decode, Encode;
    LookupAnswers(m, root, ptr);
    var r := Lookup(m, root, ptr);
    InfoFields(r, pad);
    InfoReadsBack(r, pad);
    AllOnes();
  }

  lemma AllOnes()
    ensures Encode(-1 % 0x1_0000_0000, 4) == [255, 255, 255, 255]
    ensures Encode(0xFFFF_FFFF_FFFF_FFFF % U64, 8) == [255, 255, 255, 255, 255, 255, 255, 255]
    ensures Encode(0, 4) == [0, 0, 0, 0]
  {
    assert Encode(0xFFFF_FFFF, 4) == [255, 255, 255, 255];
    assert Encode(0xFFFF_FFFF_FFFF, 6) == [255, 255] + Encode(0xFFFF_FFFF, 4);
    assert Encode(0xFFFF_FFFF_FFFF_FFFF, 8) == [255, 255] + Encode(0xFFFF_FFFF_FFFF, 6);
  }

  lemma IntReadsBack(x: int)
    requires -0x8000_0000 <= x < 0x8000_0000
    ensures AsInt32(Decode(Encode(x % 0x1_0000_0000, 4))) == x
  {
    assert Pow256(4) == 0x1_0000_0000;
    DecodeEncode(x % 0x1_0000_0000, 4);
    hide Decode, Encode, Pow256;
  }

  lemma InfoFields(r: Mapping, pad: seq<Byte>)
    requires |pad| == 8
    ensures var bs := InfoBytes(r, pad);
            && bs[..4] == Encode(r.pn % 0x1_0000_0000, 4) && bs[8..16] == Encode(r.pa % U64, 8)
            && bs[16..20] == Encode(r.perm % 0x1_0000_0000, 4)
  {
    hide Encode;
  }

  /** Page tables are only ever given up, by the process that leaves. */
  lemma TablesShrink(s: Snapshot, ev: Event, t: Snapshot, halted: bool)
    requires Handled(s, ev, t, halted)
    ensures forall q :: q in t.tabs ==> q in s.tabs && t.tabs[q] == s.tabs[q]
    ensures t.tabs == s.tabs || t.tabs == s.tabs - {s.current}
  {
    hide OthersKept, Dropped, Released, OnlyLeafTables, Served, FrameAt, Leaf, MayStore;
    hide LeafSet, ElsewhereKept, ReadVirtual, OwnerFreed, InfoAllowed, InfoBytes, Lookup, Splice, WellFormed;
  }

  lemma LeftTables(s: Snapshot, t: Snapshot, halted: bool)
    requires Left(s, t, halted)
    ensures s.current !in t.tabs
  {
  }

  lemma OtherByte(m: Memory, m2: Memory, tabs: map<int, Tables>, pid: int, q: int, v: int)
    requires OthersKept(m, m2, tabs, pid) && q in tabs && q != pid && PROC_START_ADDR <= v < MEMSIZE_VIRTUAL
    ensures ReadVirtual(m2, tabs[q].root, v) == ReadVirtual(m, tabs[q].root, v)
  {
    hide Leaf, ReadVirtual;
    assert UserKept(m, m2, tabs[q].root);
  }

  /** Moving the break keeps every byte outside the pages a shrink drops. */
  lemma BreakByte(s: Snapshot, t: Snapshot, q: int, newBreak: int, v: int)
    requires KInv(s.mem, s.info, s.tabs, {}) && BreakMoved(s, t, q, newBreak)
    requires PROC_START_ADDR <= v < MEMSIZE_VIRTUAL && !ShrinksPast(s, q, newBreak, v)
    ensures ReadVirtual(t.mem, s.tabs[q].root, v) == ReadVirtual(s.mem, s.tabs[q].root, v)
  {
    hide KInv, Leaf, ReadVirtual, OnlyLeafTables, Released, FrameAt, RoundDown, RoundUp;
    var p := s.procs[q];
    if BreakAllowed(p, newBreak) && newBreak < p.programBreak {
      DroppedAt(s.mem, t.mem, s.tabs[q].root, RoundDown(newBreak, PAGE), RoundUp(p.programBreak, PAGE), v);
      UserByteKept(s.mem, t.mem, s.info, s.tabs, {}, q, v);
    }
  }

  lemma FaultByte(s: Snapshot, t: Snapshot, addr: int, halted: bool, v: int)
    requires Faulted(s, t, addr, halted) && s.current in t.tabs && HasCurrent(s)
    requires PROC_START_ADDR <= v < MEMSIZE_VIRTUAL
    requires !(Served(s, s.current, addr) && PageOfAddr(addr) == PageOfAddr(v))
    ensures ReadVirtual(t.mem, s.tabs[s.current].root, v) == ReadVirtual(s.mem, s.tabs[s.current].root, v)
  {
    hide Leaf, ReadVirtual, LeafSet, Served, Left;
    if Served(s, s.current, addr) {
      PageBase(v, PageOfAddr(addr));
    } else {
      LeftTables(s, t, halted);
    }
  }

  lemma StoreByte(s: Snapshot, t: Snapshot, q: int, addr: int, b: Byte, v: int)
    requires KInv(s.mem, s.info, s.tabs, {}) && MayStore(s, q, addr) && Written(s, t, q, addr, b)
    requires PROC_START_ADDR <= v < MEMSIZE_VIRTUAL
    ensures ReadVirtual(t.mem, s.tabs[q].root, v) ==
            if addr == v then Some(b) else ReadVirtual(s.mem, s.tabs[q].root, v)
  {
    StoreFrame(s, q, addr);
    hide KInv, Leaf, ReadVirtual, FrameAt;
    StoreSeen(s.mem, s.info, s.tabs, {}, q, addr, b);
  }

  lemma StoreFrame(s: Snapshot, q: int, addr: int)
    requires KInv(s.mem, s.info, s.tabs, {}) && MayStore(s, q, addr)
    ensures FrameAt(s.mem, s.tabs[q].root, PageOfAddr(addr)) >= 0
  {
    UserPageOf(addr);
    PageStart(addr);
    SamePageLeaf(s.mem, s.tabs[q].root, addr, PageOfAddr(addr));
    LeafNat(s.mem, s.tabs[q].root, addr);
    hide Leaf, KInv;
  }

  lemma TraceStep(trace: seq<Snapshot>, events: seq<Event>, halted: bool, k: nat) returns (last: bool)
    requires IsTrace(trace, events, halted) && k + 1 < |trace|
    ensures k < |events| && Handled(trace[k], events[k], trace[k + 1], last)
    ensures KInv(trace[k].mem, trace[k].info, trace[k].tabs, {})
  {
    hide KInv, Handled;
    last := halted && k == |trace| - 2;
  }

  /** What q's own steps last put at v from i to j of a trace, or what it read at i. */
  ghost function LastStored(trace: seq<Snapshot>, events: seq<Event>, q: int, v: int, i: nat, j: nat): Option<Byte>
    requires i <= j < |trace| <= |events| + 1 && q in trace[i].tabs
    decreases j
  {
    if j == i then ReadVirtual(trace[i].mem, trace[i].tabs[q].root, v)
    else if StoredAt(trace[j - 1], events[j - 1], q, v).Some? then StoredAt(trace[j - 1], events[j - 1], q, v)
    else LastStored(trace, events, q, v, i, j - 1)
  }

  /** The page of v is not remapped by q in steps i to j. */
  ghost predicate Undisturbed(trace: seq<Snapshot>, events: seq<Event>, q: int, v: int, i: nat, j: nat)
    requires i <= j < |trace| <= |events| + 1
  {
    forall k :: i <= k < j ==> 0 <= trace[k].current < |trace[k].procs| && !Remaps(trace[k], events[k], q, v)
  }

  /** Isolation over whole runs: as long as a process lives and does not itself shrink past a page
      or fault it in, each byte of the page reads as what it last stored there, whatever the other
      processes and the kernel did in between. */
  lemma {:induction false} ByteIsLastStored(trace: seq<Snapshot>, events: seq<Event>, halted: bool, q: int, v: int,
                                            i: nat, j: nat)
    requires IsTrace(trace, events, halted) && i <= j < |trace| && q in trace[j].tabs
    requires PROC_START_ADDR <= v < MEMSIZE_VIRTUAL && Undisturbed(trace, events, q, v, i, j)
    ensures q in trace[i].tabs && trace[j].tabs[q] == trace[i].tabs[q]
    ensures ReadVirtual(trace[j].mem, trace[j].tabs[q].root, v) == LastStored(trace, events, q, v, i, j)
    decreases j
  {
    hide KInv, Handled, ReadVirtual, Remaps, StoredAt, IsTrace;
    if i < j {
      var last := TraceStep(trace, events, halted, j - 1);
      StepByte(trace[j - 1], events[j - 1], trace[j], last, q, v);
      ByteIsLastStored(trace, events, halted, q, v, i, j - 1);
    }
  }

  // ----- what no process can reach ------------------------------------------------------------

  /** No step touches a frame the kernel holds, or a reserved one. */
  lemma StepHeld(s: Snapshot, ev: Event, t: Snapshot, halted: bool)
    requires KInv(s.mem, s.info, s.tabs, {}) && Handled(s, ev, t, halted)
    ensures HeldKept(s.mem, s.info, t.mem, t.info)
  {
    hide KInv, OthersKept, BreakMoved, Faulted, Written, MayStore, Scheduled, Left, HeldKept, InfoWritten;
    match ev
    case SysBrk(addr) => BreakHeld(s, t, s.current, addr);
    case SysSbrk(increment) => BreakHeld(s, t, s.current, s.procs[s.current].programBreak + increment);
    case Fault(addr) => FaultHeld(s, t, addr, halted);
    case Yield =>
      NothingHeld(s.mem, s.info);
      assert t == s.(current := t.current) by {
        SameButCurrent(s, t, halted);
      }
    case Exit => LeaveHeld(s, t, halted);
    case Store(addr, b) =>
      if MayStore(s, s.current, addr) {
        StoreHeld(s, t, s.current, addr, b);
      } else {
        FaultHeld(s, t, addr, halted);
      }
    case MapInfo(dest, ptr, pad) => InfoHeld(s, t, s.current, dest, ptr, pad);
  }

  lemma InfoHeld(s: Snapshot, t: Snapshot, q: int, dest: int, ptr: int, pad: seq<Byte>)
    requires KInv(s.mem, s.info, s.tabs, {}) && InfoWritten(s, t, q, dest, ptr, pad)
    requires WellFormed(MapInfo(dest, ptr, pad))
    ensures HeldKept(s.mem, s.info, t.mem, t.info)
  {
    NothingHeld(s.mem, s.info);
    hide KInv, Leaf, FrameAt, ReadVirtual, Splice, InfoBytes, InfoAllowed, Lookup, OthersKept, HeldKept;
    var root := s.tabs[q].root;
    if InfoAllowed(s.mem, root, dest, ptr) {
      InfoSeen(s.mem, s.info, s.tabs, q, dest, ptr, InfoBytes(Lookup(s.mem, root, ptr), pad));
    }
  }

  lemma SameButCurrent(s: Snapshot, t: Snapshot, halted: bool)
    requires Scheduled(s, t, halted)
    ensures t == s.(current := t.current)
  {
  }

  lemma BreakHeld(s: Snapshot, t: Snapshot, pid: int, newBreak: int)
    requires KInv(s.mem, s.info, s.tabs, {}) && BreakMoved(s, t, pid, newBreak)
    ensures HeldKept(s.mem, s.info, t.mem, t.info)
  {
    hide KInv, OnlyLeafTables, Dropped, Released, HeldKept, FrameAt, RoundDown, RoundUp;
    var p, root := s.procs[pid], s.tabs[pid].root;
    if BreakAllowed(p, newBreak) && newBreak < p.programBreak {
      HeldByTables(s.mem, t.mem, s.info, s.tabs, {}, pid);
      ReleasedHeld(s.mem, t.mem, s.info, t.info, s.tabs, pid, RoundDown(newBreak, PAGE), RoundUp(p.programBreak, PAGE));
    } else {
      NothingHeld(s.mem, s.info);
    }
  }

  /** What a shrink releases was the process's. */
  lemma ReleasedHeld(m: Memory, m2: Memory, info: seq<PageInfo>, info2: seq<PageInfo>, tabs: map<int, Tables>,
                     pid: int, lo: int, hi: int)
    requires KInv(m, info, tabs, {}) && pid in tabs && Released(m, info, info2, tabs[pid].root, lo, hi)
    requires HeldKept(m, info, m2, info)
    ensures HeldKept(m, info, m2, info2)
  {
    OwnerPositive(m, info, tabs, {}, pid);
    hide KInv, SameBytes, MappedIn;
    forall f | 0 <= f < |info| && MappedIn(m, tabs[pid].root, lo, hi, f)
      ensures info[f].owner == pid
    {
      MappedOwned(m, info, tabs, pid, lo, hi, f);
    }
  }

  lemma MappedOwned(m: Memory, info: seq<PageInfo>, tabs: map<int, Tables>, pid: int, lo: int, hi: int, f: int)
    requires KInv(m, info, tabs, {}) && pid in tabs && 0 <= f && MappedIn(m, tabs[pid].root, lo, hi, f)
    ensures f < |info| && info[f].owner == pid
  {
    hide KInv, FrameAt;
    var v :| UserPage(v) && lo <= v <= hi && FrameAt(m, tabs[pid].root, v) == f;
    FrameOwned(m, info, tabs, {}, pid, v);
    SizeOf(m, info, tabs, {});
  }

  lemma FaultHeld(s: Snapshot, t: Snapshot, addr: int, halted: bool)
    requires KInv(s.mem, s.info, s.tabs, {}) && HasCurrent(s) && Faulted(s, t, addr, halted)
    ensures HeldKept(s.mem, s.info, t.mem, t.info)
  {
    hide KInv, OnlyFrameAndLeaves, HeldKept, LeafSet, ElsewhereKept, ReadVirtual, Served, Left, FirstFree;
    if Served(s, s.current, addr) {
      SizeOf(s.mem, s.info, s.tabs, {});
      var f := FirstFree(s.info, 1);
      GivenHeld(s.mem, t.mem, s.info, t.info, s.tabs, s.current, f);
    } else {
      LeaveHeld(s, t, halted);
    }
  }

  lemma GivenHeld(m: Memory, m2: Memory, info: seq<PageInfo>, info2: seq<PageInfo>, tabs: map<int, Tables>, pid: int,
                  f: int)
    requires KInv(m, info, tabs, {}) && pid in tabs && 0 <= f < |info| && info[f] == PageInfo(0, 0)
    requires OnlyFrameAndLeaves(m, m2, f, tabs[pid].lay) && info2 == info[f := PageInfo(pid, 1)]
    ensures HeldKept(m, info, m2, info2)
  {
    OwnerPositive(m, info, tabs, {}, pid);
    var m1 := seq(|m|, a requires 0 <= a < |m| => if f * PAGE <= a < f * PAGE + PAGE then m[a] else m2[a]);
    assert OnlyLeafTables(m, m1, tabs[pid].lay);
    HeldByTables(m, m1, info, tabs, {}, pid);
    assert SameOutside(m1, m2, f * PAGE, f * PAGE + PAGE);
    HeldByFrame(m1, info, m2, info2, f);
    hide KInv, OnlyFrameAndLeaves, HeldKept;
    HeldTwice(m, info, m1, info, m2, info2);
  }

  lemma LeaveHeld(s: Snapshot, t: Snapshot, halted: bool)
    requires KInv(s.mem, s.info, s.tabs, {}) && HasCurrent(s) && Left(s, t, halted)
    ensures HeldKept(s.mem, s.info, t.mem, t.info)
  {
    OwnerPositive(s.mem, s.info, s.tabs, {}, s.current);
    hide KInv;
  }

  lemma StoreHeld(s: Snapshot, t: Snapshot, pid: int, addr: int, b: Byte)
    requires KInv(s.mem, s.info, s.tabs, {}) && MayStore(s, pid, addr) && Written(s, t, pid, addr, b)
    ensures HeldKept(s.mem, s.info, t.mem, t.info)
  {
    StoreFrame(s, pid, addr);
    hide KInv, Leaf, FrameAt, HeldKept;
    HeldByStore(s.mem, s.info, s.tabs, {}, pid, addr, b);
  }

  /** Over any run the kernel's frames and the reserved ones keep every byte and their entries. */
  lemma {:induction false} KernelFramesKept(trace: seq<Snapshot>, events: seq<Event>, halted: bool, i: nat, j: nat)
    requires IsTrace(trace, events, halted) && i <= j < |trace|
    ensures HeldKept(trace[i].mem, trace[i].info, trace[j].mem, trace[j].info)
    decreases j
  {
    hide KInv, Handled, IsTrace, HeldKept;
    if i < j {
      var last := TraceStep(trace, events, halted, j - 1);
      StepHeld(trace[j - 1], events[j - 1], trace[j], last);
      KernelFramesKept(trace, events, halted, i, j - 1);
      HeldTwice(trace[i].mem, trace[i].info, trace[j - 1].mem, trace[j - 1].info, trace[j].mem, trace[j].info);
    } else {
      NothingHeld(trace[i].mem, trace[i].info);
    }
  }

  /** So everything the kernel asserts of itself at a trap holds at every one of a run that begins with
      its own tables in place. */
  lemma ChecksPass(trace: seq<Snapshot>, events: seq<Event>, halted: bool, i: nat, root: int, lay: Layout)
    requires IsTrace(trace, events, halted) && i < |trace|
    requires KernelTables(trace[0].mem, trace[0].info, root, lay)
    ensures CheckPasses(trace[i], root)
  {
    KernelFramesKept(trace, events, halted, 0, i);
    hide KInv, Handled, KernelTables, HeldKept, Orderly, CheckPasses;
    KernelTablesKept(trace[0].mem, trace[0].info, trace[i].mem, trace[i].info, root, lay);
    CheckVirtualMemory(trace[i], root, lay);
  }

  // ----- fair turns ---------------------------------------------------------------------------

  /** One step brings a waiting runnable process no further from its turn, and a yield nearer. */
  lemma TurnStep(s: Snapshot, ev: Event, t: Snapshot, halted: bool, q: int)
    requires Handled(s, ev, t, halted) && 0 <= q < |s.procs| && s.procs[q].state == Runnable
    requires |t.procs| == |s.procs| ==> t.procs[q].state == Runnable
    ensures |t.procs| == |s.procs| && 0 <= t.current < |t.procs|
    ensures var n := |s.procs|;
            t.current == q ||
            Scheduler.Distance(n, t.current, q) <= Scheduler.Distance(n, s.current, q) - if ev.Yield? then 1 else 0
  {
    hide OthersKept, Dropped, Released, OnlyLeafTables, Served, LeafSet, ElsewhereKept, ReadVirtual, OwnerFreed;
    hide MayStore, Scheduler.Distance, Scheduler.IsNext, InfoAllowed, InfoBytes, Lookup, Splice, WellFormed;
    if ev.Yield? {
      ChosenNext(s, t, halted, q);
    } else if t.tabs != s.tabs {
      var u :| Gone(s, u, s.current) && Scheduled(u, t, halted);
      ChosenNext(u, t, halted, q);
    }
  }

  lemma ChosenNext(u: Snapshot, t: Snapshot, halted: bool, q: int)
    requires Scheduled(u, t, halted) && 0 <= q < |u.procs| && u.procs[q].state == Runnable
    ensures 0 <= t.current < |u.procs|
    ensures t.current == q ||
            Scheduler.Distance(|u.procs|, t.current, q) < Scheduler.Distance(|u.procs|, u.current, q)
  {
    assert RunnableSlots(u.procs)[q];
    if t.current != q {
      Scheduler.PassedOver(RunnableSlots(u.procs), u.current, t.current, q);
    }
  }

  /** How many of the events from i to j are yields. */
  function Yields(events: seq<Event>, i: nat, j: nat): nat
    requires i <= j <= |events|
    decreases j
  {
    if i == j then 0 else Yields(events, i, j - 1) + if events[j - 1].Yield? then 1 else 0
  }

  /** q is a runnable slot in states i to j. */
  ghost predicate StaysRunnable(trace: seq<Snapshot>, q: int, i: nat, j: nat)
    requires i <= j < |trace|
  {
    forall k :: i <= k <= j ==> 0 <= q < |trace[k].procs| && trace[k].procs[q].state == Runnable
  }

  lemma {:induction false} WaitsItsTurn(trace: seq<Snapshot>, events: seq<Event>, halted: bool, q: int, i: nat, j: nat)
    requires IsTrace(trace, events, halted) && i <= j < |trace| && 0 <= trace[i].current < |trace[i].procs|
    requires StaysRunnable(trace, q, i, j) && forall k :: i < k <= j ==> trace[k].current != q
    ensures |trace[j].procs| == |trace[i].procs| && 0 <= trace[j].current < |trace[j].procs|
    ensures Scheduler.Distance(|trace[i].procs|, trace[j].current, q) + Yields(events, i, j) <= |trace[i].procs|
    decreases j
  {
    hide KInv, Handled, IsTrace;
    if i < j {
      hide Scheduler.Distance;
      WaitsItsTurn(trace, events, halted, q, i, j - 1);
      var last := TraceStep(trace, events, halted, j - 1);
      assert trace[j - 1].procs[q].state == Runnable && trace[j].procs[q].state == Runnable;
      TurnStep(trace[j - 1], events[j - 1], trace[j], last, q);
    }
  }

  /** Fairness over runs: while a process stays runnable, as many yields as there are slots, by whichever
      processes and with whatever traps between them, do not pass without its becoming current. */
  lemma EveryTurnComes(trace: seq<Snapshot>, events: seq<Event>, halted: bool, q: int, i: nat, j: nat)
    requires IsTrace(trace, events, halted) && i <= j < |trace| && 0 <= trace[i].current < |trace[i].procs|
    requires StaysRunnable(trace, q, i, j) && |trace[i].procs| <= Yields(events, i, j)
    ensures exists k :: i < k <= j && trace[k].current == q
  {
    hide KInv, Handled, IsTrace, Yields, Orderly;
    if forall k :: i < k <= j ==> trace[k].current != q {
      WaitsItsTurn(trace, events, halted, q, i, j);
    }
  }

  // ----- shrinks that drop more than they should ----------------------------------------------

  /** Growing into the last page below the stack and giving one byte back unmaps the stack. */
  method LoseStack(k: System, pid: int)
    requires k.Valid() && pid in k.tabs && Breaks(k.procs[pid])
    requires k.procs[pid].programBreak <= MEMSIZE_VIRTUAL - 2 * PAGE
    requires FrameAt(k.phys.mem, k.tabs[pid].root, MEMSIZE_VIRTUAL - PAGE) != -1
    modifies k.phys, k`info, k`procs
    ensures k.Valid() && k.procs[pid].programBreak == MEMSIZE_VIRTUAL - 2 * PAGE
    ensures FrameAt(k.phys.mem, k.tabs[pid].root, MEMSIZE_VIRTUAL - PAGE) == -1
  {
    hide KInv, Leaf, FrameAt, Dropped, Released, OnlyLeafTables, OthersKept;
    var r := k.Sbrk(pid, MEMSIZE_VIRTUAL - 2 * PAGE + 1 - k.procs[pid].programBreak);
    ghost var m, p := k.phys.mem, k.procs[pid];
    r := k.Sbrk(pid, -1);
    ShrinkReachesStack(m, k.phys.mem, k.tabs[pid].root, p, p.programBreak - 1);
  }

  /** A process with a fresh heap grows by two bytes, writes the first and gives the second
      back: the first, still below the break, is lost. */
  method LosePartialPage(k: System, pid: int) returns (ghost before: Option<Byte>)
    requires k.Valid() && pid in k.tabs && Breaks(k.procs[pid]) && k.procs[pid].state == Runnable
    requires k.procs[pid].programBreak == k.procs[pid].originalBreak < MEMSIZE_VIRTUAL - 2 * PAGE
    requires FrameAt(k.phys.mem, k.tabs[pid].root, k.procs[pid].originalBreak) == -1 && FirstFree(k.info, 1) < NPAGES
    modifies k.phys, k`info, k`procs, k`tabs
    ensures k.Valid() && k.tabs == old(k.tabs)
    ensures var base := old(k.procs)[pid].originalBreak;
            && before == Some(7) && k.procs[pid].programBreak == base + 1
            && ReadVirtual(k.phys.mem, k.tabs[pid].root, base) == None
  {
    hide KInv, Leaf, FrameAt, Dropped, Released, OnlyLeafTables, OthersKept, ReadVirtual, LeafSet, ElsewhereKept;
    before := WriteFirstByte(k, pid);
    ghost var m, root, base := k.phys.mem, k.tabs[pid].root, k.procs[pid].originalBreak;
    var r := k.Sbrk(pid, -1);
    assert base - base % PAGE == base;
    PageGoes(m, k.phys.mem, root, base, base, base + PAGE);
  }

  /** Two bytes of heap, the first written. */
  method WriteFirstByte(k: System, pid: int) returns (ghost before: Option<Byte>)
    requires k.Valid() && pid in k.tabs && Breaks(k.procs[pid]) && k.procs[pid].state == Runnable
    requires k.procs[pid].programBreak == k.procs[pid].originalBreak < MEMSIZE_VIRTUAL - 2 * PAGE
    requires FrameAt(k.phys.mem, k.tabs[pid].root, k.procs[pid].originalBreak) == -1 && FirstFree(k.info, 1) < NPAGES
    modifies k.phys, k`info, k`procs, k`tabs
    ensures k.Valid() && k.tabs == old(k.tabs) && |k.procs| == NPROC
    ensures var p := old(k.procs)[pid];
            && k.procs[pid] == p.(programBreak := p.originalBreak + 2) && Breaks(k.procs[pid])
            && before == Some(7) == ReadVirtual(k.phys.mem, k.tabs[pid].root, p.originalBreak)
  {
    hide KInv, Leaf, FrameAt, Dropped, Released, OnlyLeafTables, OthersKept, ReadVirtual, LeafSet, ElsewhereKept;
    var base := k.procs[pid].originalBreak;
    ghost var root := k.tabs[pid].root;
    var r := k.Sbrk(pid, 2);
    ghost var s := k.Now();
    assert base - base % PAGE == base;
    var resumed := k.PageFault(pid, base, false);
    GivenKeeps(s, k.Now(), pid, base);
    FreshPageStores(s.mem, k.phys.mem, root, base, FirstFree(s.info, 1));
    ghost var s2 := k.Now();
    assert MayStore(s2, pid, base);
    var done := k.StoreVirtual(pid, base, 7);
    StoreByte(s2, k.Now(), pid, base, 7, base);
    before := ReadVirtual(k.phys.mem, root, base);
  }

  /** A page just mapped by a fault may be written. */
  lemma FreshPageStores(m: Memory, m2: Memory, root: int, page: int, f: nat)
    requires UserPage(page) && LeafSet(m, m2, root, page, f * PAGE + 7)
    ensures var o := Leaf(m2, root, page); o.Some? && Present(o.value) && Writable(o.value) && User(o.value)
  {
    hide Leaf;
    LowBits(2048 * f + 3, 1, 1024 * f + 1, 1, 512 * f, 1);
  }

  lemma PageGoes(m: Memory, m2: Memory, root: int, v: int, lo: int, hi: int)
    requires Dropped(m, m2, root, lo, hi) && UserPage(v) && lo <= v <= hi && ReadVirtual(m, root, v).Some?
    ensures ReadVirtual(m2, root, v) == None
  {
    assert v - v % PAGE == v;
    NoWrite();
  }

  lemma NoWrite()
    ensures !Present(6)
  {
  }
}
