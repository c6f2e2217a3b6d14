/** What the kernel's steps do to its state: the breaks, demand paging, exit, the choice of
    the next process, and the processes' own stores between traps. */
module KernelSpec {
  import opened Words
  import opened PageTables
  import opened VirtualMemory
  import opened KernelState
  import opened Isolation
  import Scheduler

  const NPROC := 16

  datatype ProcState = Free | Runnable | Blocked | Broken

  datatype Proc = Proc(programBreak: int, originalBreak: int, pagetable: int, state: ProcState)

  function RoundDown(a: int, n: int): int
    requires 0 < n
  {
    a - a % n
  }

  function RoundUp(a: int, n: int): int
    requires 0 < n
  {
    RoundDown(a + n - 1, n)
  }

  /** The breaks of a loaded process. */
  predicate Breaks(p: Proc)
  {
    && PROC_START_ADDR <= p.originalBreak <= p.programBreak <= MEMSIZE_VIRTUAL - PAGE
    && p.originalBreak % PAGE == 0
  }

  /** Frames handed out in the order of the scan: the first free one at or after k. */
  function FirstFree(info: seq<PageInfo>, k: nat): (f: nat)
    requires k <= |info|
    ensures k <= f <= |info|
    ensures forall g :: k <= g < f ==> info[g] != PageInfo(0, 0)
    ensures f < |info| ==> info[f] == PageInfo(0, 0)
    decreases |info| - k
  {
    if k == |info| || info[k] == PageInfo(0, 0) then k else FirstFree(info, k + 1)
  }

  const PO_FREE := 0
  const PO_RESERVED := -1
  const PO_KERNEL := -2
  const KERNEL_START_ADDR := 0x40000
  const KERNEL_STACK_TOP := 0x80000

  /** The boot-time owner and count of a frame. */
  function InitialInfo(pn: int, reserved: set<int>, kernelEnd: int): PageInfo
  {
    var addr := pn * PAGE;
    if addr in reserved then PageInfo(PO_RESERVED, 1)
    else if KERNEL_START_ADDR <= addr < kernelEnd || addr == KERNEL_STACK_TOP - PAGE then PageInfo(PO_KERNEL, 1)
    else PageInfo(PO_FREE, 0)
  }

  /** Which slots are runnable. */
  function RunnableSlots(procs: seq<Proc>): (r: seq<bool>)
    ensures |r| == |procs| && forall i :: 0 <= i < |procs| ==> r[i] == (procs[i].state == Runnable)
  {
    seq(|procs|, i requires 0 <= i < |procs| => procs[i].state == Runnable)
  }

  /** The frames palloc may hand out. */
  ghost function FreeFrames(info: seq<PageInfo>): set<int>
  {
    set f | 1 <= f < |info| && info[f] == PageInfo(0, 0)
  }

  /** In m2 no user page from lo to hi is mapped; every mapped one had its leaf set to
      the absent entry W|U, and the rest of the page map is that of m. */
  ghost predicate Dropped(m: Memory, m2: Memory, root: int, lo: int, hi: int)
  {
    forall v :: 0 <= v < VA_LIMIT ==>
      Leaf(m2, root, v) ==
        if lo <= v - v % PAGE <= hi && FrameAt(m, root, v - v % PAGE) != -1 then Some(6) else Leaf(m, root, v)
  }

  /** The frames that were mapped from lo to hi are free, and no others changed. */
  ghost predicate Released(m: Memory, info: seq<PageInfo>, info2: seq<PageInfo>, root: int, lo: int, hi: int)
  {
    |info2| == |info| && forall f :: 0 <= f < |info| ==>
      info2[f] == if MappedIn(m, root, lo, hi, f) then PageInfo(0, 0) else info[f]
  }

  ghost predicate MappedIn(m: Memory, root: int, lo: int, hi: int, f: int)
  {
    exists v :: UserPage(v) && lo <= v <= hi && FrameAt(m, root, v) == f
  }

  // ----- steps -------------------------------------------------------------------------

  /** What a running process does to memory or the schedule: the traps it causes, and its stores. MapInfo
      asks for the mapping of ptr to be copied to dest; pad is what the copy's padding happens to hold. */
  datatype Event =
    | SysBrk(addr: int)
    | SysSbrk(increment: int)
    | Fault(addr: int)
    | Yield
    | Exit
    | Store(addr: int, b: Byte)
    | MapInfo(dest: int, ptr: int, pad: seq<Byte>)

  /** The bytes of a vamapping: two ints around an address, each int followed by four bytes of padding. */
  const INFO_SIZE := 24

  function InfoBytes(r: Mapping, pad: seq<Byte>): (bs: seq<Byte>)
    requires |pad| == 8
    ensures |bs| == INFO_SIZE
  {
    Encode(r.pn % 0x1_0000_0000, 4) + pad[..4] + Encode(r.pa % U64, 8) + Encode(r.perm % 0x1_0000_0000, 4) + pad[4..]
  }

  predicate OnConsole(addr: int)
  {
    CONSOLE_ADDR <= addr < CONSOLE_ADDR + PAGE
  }

  /** Arguments are 64-bit. Stores to the console page, which is not the process's, are left out, and so is a
      mapping copied to it or across a page boundary. */
  predicate WellFormed(ev: Event)
  {
    match ev
    case SysBrk(addr) => 0 <= addr < U64
    case SysSbrk(increment) => -U64 / 2 <= increment < U64 / 2
    case Fault(addr) => 0 <= addr < U64
    case Yield => true
    case Exit => true
    case Store(addr, _) => 0 <= addr < U64 && !OnConsole(addr)
    case MapInfo(dest, ptr, pad) =>
      && 0 <= dest < U64 && 0 <= ptr < U64 && |pad| == 8
      && dest % PAGE + INFO_SIZE <= PAGE && !OnConsole(dest % VA_LIMIT)
  }

  /** The state the steps change. */
  datatype Snapshot =
    Snapshot(mem: Memory, info: seq<PageInfo>, procs: seq<Proc>, current: int, tabs: map<int, Tables>)

  /** The current process is one that has page tables. */
  ghost predicate HasCurrent(s: Snapshot)
  {
    0 <= s.current < |s.procs| && s.current in s.tabs
  }

  predicate BreakAllowed(p: Proc, newBreak: int)
  {
    p.originalBreak <= newBreak < MEMSIZE_VIRTUAL - PAGE
  }

  /** Between s and t the break of pid went to newBreak, if allowed; a shrink gave up the
      pages from the new break's to the old break's, and nothing else changed. */
  ghost predicate BreakMoved(s: Snapshot, t: Snapshot, pid: int, newBreak: int)
  {
    && pid in s.tabs && 0 <= pid < |s.procs|
    && var p, root := s.procs[pid], s.tabs[pid].root;
    if !BreakAllowed(p, newBreak) then t == s
    else
      && t == s.(mem := t.mem, info := t.info, procs := s.procs[pid := p.(programBreak := newBreak)])
      && if newBreak < p.programBreak then
           && Dropped(s.mem, t.mem, root, RoundDown(newBreak, PAGE), RoundUp(p.programBreak, PAGE))
           && Released(s.mem, s.info, t.info, root, RoundDown(newBreak, PAGE), RoundUp(p.programBreak, PAGE))
           && OnlyLeafTables(s.mem, t.mem, s.tabs[pid].lay)
         else t.mem == s.mem && t.info == s.info
  }

  /** A fault at addr that demand paging serves: an absent page between the breaks, with a frame to spare. */
  ghost predicate Served(s: Snapshot, pid: int, addr: int)
  {
    && pid in s.tabs && 0 <= pid < |s.procs| && 1 <= |s.info|
    && s.procs[pid].originalBreak <= addr < s.procs[pid].programBreak
    && FrameAt(s.mem, s.tabs[pid].root, addr - addr % PAGE) == -1 && FirstFree(s.info, 1) < |s.info|
  }

  /** Memory changed at most in frame f and in the leaf tables of lay. */
  ghost predicate OnlyFrameAndLeaves(m: Memory, m2: Memory, f: int, lay: Layout)
  {
    && |m2| == |m|
    && forall a :: 0 <= a < |m| && !(f * PAGE <= a < f * PAGE + PAGE) && !InLeafTable(lay, a) ==> m2[a] == m[a]
  }

  /** Between s and t the first free frame, filled with 0xCC, became the page of addr, and
      nothing else changed. */
  ghost predicate PageGiven(s: Snapshot, t: Snapshot, pid: int, addr: int)
  {
    && pid in s.tabs && 1 <= |s.info| && FirstFree(s.info, 1) < |s.info|
    && var f, page, root := FirstFree(s.info, 1), addr - addr % PAGE, s.tabs[pid].root;
    && t == s.(mem := t.mem, info := s.info[f := PageInfo(pid, 1)])
    && LeafSet(s.mem, t.mem, root, page, f * PAGE + 7)
    && OnlyFrameAndLeaves(s.mem, t.mem, f, s.tabs[pid].lay)
    && ElsewhereKept(s.mem, t.mem, root, page, page + PAGE)
    && forall v :: page <= v < page + PAGE ==> ReadVirtual(t.mem, root, v) == Some(0xCC)
  }

  /** Every frame of pid is free, and no other changed. */
  ghost predicate OwnerFreed(info: seq<PageInfo>, info2: seq<PageInfo>, pid: int)
  {
    |info2| == |info| && forall f :: 0 <= f < |info| ==>
      info2[f] == if info[f].owner == pid then PageInfo(0, 0) else info[f]
  }

  /** Between s and t pid's frames and its slot became free, and nothing else changed. */
  ghost predicate Gone(s: Snapshot, t: Snapshot, pid: int)
  {
    && 0 <= pid < |s.procs| && OwnerFreed(s.info, t.info, pid)
    && t == s.(info := t.info, tabs := s.tabs - {pid}, procs := s.procs[pid := s.procs[pid].(state := Free)])
  }

  /** The scan for the next process: the nearest runnable one runs; with none it goes on for ever. */
  ghost predicate Scheduled(s: Snapshot, t: Snapshot, halted: bool)
  {
    && t == s.(current := t.current)
    && halted == (forall pid :: 0 <= pid < |s.procs| ==> s.procs[pid].state != Runnable)
    && (halted ==> t.current == s.current)
    && (!halted ==> Scheduler.IsNext(RunnableSlots(s.procs), s.current, t.current))
  }

  /** The current process is gone and the next one scheduled. */
  ghost predicate Left(s: Snapshot, t: Snapshot, halted: bool)
  {
    exists u :: Gone(s, u, s.current) && Scheduled(u, t, halted)
  }

  /** What a fault does: demand paging serves it, or the process ends. */
  ghost predicate Faulted(s: Snapshot, t: Snapshot, addr: int, halted: bool)
  {
    if Served(s, s.current, addr) then !halted && PageGiven(s, t, s.current, addr) else Left(s, t, halted)
  }

  /** A byte the page table lets the process write. */
  ghost predicate MayStore(s: Snapshot, pid: int, addr: int)
  {
    && pid in s.tabs && PROC_START_ADDR <= addr < MEMSIZE_VIRTUAL
    && match Leaf(s.mem, s.tabs[pid].root, addr)
       case None => false
       case Some(e) => Present(e) && Writable(e) && User(e)
  }

  /** Between s and t the byte at pid's address addr became b, and nothing else changed. */
  ghost predicate Written(s: Snapshot, t: Snapshot, pid: int, addr: int, b: Byte)
  {
    && pid in s.tabs
    && var a := PhysAddr(s.mem, s.tabs[pid].root, addr);
    0 <= a < |s.mem| && t == s.(mem := s.mem[a := b])
  }

  /** The mapping call's checks: the process may write dest, and the last byte's page is mapped and writable,
      unless that has the page number of ptr. */
  predicate InfoAllowed(m: Memory, root: int, dest: int, ptr: int)
  {
    var end := (dest + INFO_SIZE - 1) % U64;
    && Writable(Lookup(m, root, dest).perm) && User(Lookup(m, root, dest).perm)
    && (AsInt32(end / PAGE) == AsInt32(ptr / PAGE)
        || (Writable(Lookup(m, root, end).perm) && Present(Lookup(m, root, end).perm)))
  }

  /** Between s and t the mapping of ptr was copied to the physical address of dest, if allowed, and on from
      there; nothing else changed. */
  ghost predicate InfoWritten(s: Snapshot, t: Snapshot, pid: int, dest: int, ptr: int, pad: seq<Byte>)
  {
    && pid in s.tabs && |pad| == 8
    && var root := s.tabs[pid].root;
    t == if !InfoAllowed(s.mem, root, dest, ptr) then s
         else s.(mem := Splice(s.mem, Lookup(s.mem, root, dest).pa, InfoBytes(Lookup(s.mem, root, ptr), pad)))
  }

  /** Exactly the processes with page tables are active, and runnable; slot 0 is never used. */
  ghost predicate Orderly(procs: seq<Proc>, tabs: map<int, Tables>)
  {
    && |procs| == NPROC
    && (forall pid :: pid in tabs ==>
          0 < pid < NPROC && procs[pid].pagetable == tabs[pid].root && Breaks(procs[pid]))
    && forall pid :: 0 <= pid < NPROC ==> procs[pid].state == if pid in tabs then Runnable else Free
  }

  /** One step of the current process; halted says that no process is left to run. A store that
      the page table forbids faults instead. */
  ghost predicate Handled(s: Snapshot, ev: Event, t: Snapshot, halted: bool)
  {
    && WellFormed(ev) && HasCurrent(s) && OthersKept(s.mem, t.mem, s.tabs, s.current)
    && match ev
       case SysBrk(addr) => !halted && BreakMoved(s, t, s.current, addr)
       case SysSbrk(increment) => !halted && BreakMoved(s, t, s.current, s.procs[s.current].programBreak + increment)
       case Fault(addr) => Faulted(s, t, addr, halted)
       case Yield => Scheduled(s, t, halted)
       case Exit => Left(s, t, halted)
       case Store(addr, b) =>
         if MayStore(s, s.current, addr) then !halted && Written(s, t, s.current, addr, b)
         else Faulted(s, t, addr, halted)
       case MapInfo(dest, ptr, pad) => !halted && InfoWritten(s, t, s.current, dest, ptr, pad)
  }

  /** A run of steps: each state follows from the one before, and every one keeps the accounting
      and the order of the process slots. */
  ghost predicate IsTrace(trace: seq<Snapshot>, events: seq<Event>, halted: bool)
  {
    && 0 < |trace| <= |events| + 1
    && (forall i :: 0 <= i < |trace| ==> KInv(trace[i].mem, trace[i].info, trace[i].tabs, {}))
    && (forall i :: 0 <= i < |trace| ==> Orderly(trace[i].procs, trace[i].tabs))
    && (forall i :: 0 <= i < |trace| - 1 ==> Handled(trace[i], events[i], trace[i + 1], halted && i == |trace| - 2))
    && (!halted ==> |trace| == |events| + 1)
  }
}
