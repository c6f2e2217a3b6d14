/** The mapping call copies 24 bytes to one physical address. Where they land when they do not fit the
    page, and whom that concerns. */
module MappingCall {
  import opened Words
  import opened PageTables
  import opened VirtualMemory
  import opened KernelState
  import opened Isolation
  import opened KernelSpec
  import opened Kernel
  import opened KernelLaws
  import Setup

  predicate InOnePage(p: int)
  {
    p % PAGE + INFO_SIZE <= PAGE
  }

  /** Every byte lands where the process has its address mapped exactly when they lie in one page, or the
      next page is mapped to the adjacent frame. */
  lemma LandsWhereAsked(m: Memory, root: int, p: int)
    requires 0 <= p && FrameAt(m, root, PageOfAddr(p)) >= 0
    ensures (forall v :: p <= v < p + INFO_SIZE ==> PhysAddr(m, root, v) == PhysAddr(m, root, p) + (v - p)) <==>
            InOnePage(p) || FrameAt(m, root, PageOfAddr(p) + PAGE) == FrameAt(m, root, PageOfAddr(p)) + 1
  {
    hide FrameAt;
    forall v | p <= v < p + INFO_SIZE
      ensures if v - p < PAGE - p % PAGE then PageOfAddr(v) == PageOfAddr(p) && v % PAGE == p % PAGE + (v - p)
              else PageOfAddr(v) == PageOfAddr(p) + PAGE && v % PAGE == p % PAGE + (v - p) - PAGE
    {
      Offset(p, v - p);
    }
    if !InOnePage(p) {
      Crossing(m, root, p);
      var v := PageOfAddr(p) + PAGE;
      assert p <= v < p + INFO_SIZE;
    }
  }

  /** The bytes that do not fit begin where the next page does, and in the adjacent frame. */
  lemma Crossing(m: Memory, root: int, p: int)
    requires 0 <= p && !InOnePage(p)
    ensures var v, n := PageOfAddr(p) + PAGE, PAGE - p % PAGE;
            && v == p + n && 0 < n < INFO_SIZE && PhysAddr(m, root, v) == FrameAt(m, root, v) * PAGE
            && PhysAddr(m, root, p) + n == (FrameAt(m, root, PageOfAddr(p)) + 1) * PAGE
  {
    hide FrameAt;
    Offset(p, PAGE - p % PAGE);
  }

  lemma Offset(p: int, i: int)
    requires 0 <= p && 0 <= i < PAGE
    ensures if i < PAGE - p % PAGE then PageOfAddr(p + i) == PageOfAddr(p) && (p + i) % PAGE == p % PAGE + i
            else PageOfAddr(p + i) == PageOfAddr(p) + PAGE && (p + i) % PAGE == p % PAGE + i - PAGE
  {
  }

  // ----- when it writes ------------------------------------------------------------------------

  /** The rights a lookup reports are those of the page map. */
  lemma LookupGrants(m: Memory, root: int, lay: Layout, va: int)
    requires Tree(m, root, lay) && 0 <= va
    ensures var r := Lookup(m, root, va);
            && (Writable(r.perm) && Present(r.perm) <==> Grants(m, root, va % VA_LIMIT, false))
            && (Writable(r.perm) && User(r.perm) <==> Grants(m, root, va % VA_LIMIT, true))
  {
    var v := va % VA_LIMIT;
    LookupOffset(m, root, va);
    LookupTranslates(m, root, lay, v);
    LeafNat(m, root, v);
    ZeroFlags();
    hide Leaf, Tree, Lookup, PteAddr, MappingOf;
    if Leaf(m, root, v).Some? {
      EntryStore(Leaf(m, root, v).value, v);
    } else {
      assert Translate(m, root, v) == UNMAPPED;
    }
    hide Present, Writable, User;
  }

  lemma ZeroFlags()
    ensures !Present(0) && !Writable(0) && !User(0)
  {
  }

  lemma SamePageNumber(x: int, y: int)
    ensures AsInt32(x) == AsInt32(y) <==> (x - y) % 0x1_0000_0000 == 0
  {
    var a, b := x + 0x8000_0000, y + 0x8000_0000;
    var q, p := a / 0x1_0000_0000, b / 0x1_0000_0000;
    assert x - y == (q - p) * 0x1_0000_0000 + (a % 0x1_0000_0000 - b % 0x1_0000_0000);
  }

  /** For every 64-bit destination, within a page or across two: the call writes exactly when the process may
      write dest and the last byte's page is mapped and writable, or has the page number of ptr modulo 2^32. */
  lemma WritesExactly(m: Memory, info: seq<PageInfo>, tabs: map<int, Tables>, pid: int, dest: int, ptr: int)
    requires KInv(m, info, tabs, {}) && pid in tabs && 0 <= dest
    ensures var root, last := tabs[pid].root, (dest + 23) % 0x1_0000_0000_0000_0000;
            InfoAllowed(m, root, dest, ptr) <==>
            && Grants(m, root, dest % VA_LIMIT, true)
            && (Grants(m, root, last % VA_LIMIT, false) || (last / 4096 - ptr / 4096) % 0x1_0000_0000 == 0)
  {
    hide KInv, Tree, Lookup, Grants, AsInt32, Present, Writable, User, InfoAllowed;
    TablesOf(m, info, tabs, pid);
    AllowedAt(m, tabs[pid].root, tabs[pid].lay, dest, ptr, (dest + 23) % 0x1_0000_0000_0000_0000);
  }

  lemma AllowedAt(m: Memory, root: int, lay: Layout, dest: int, ptr: int, last: int)
    requires Tree(m, root, lay) && 0 <= dest && last == (dest + 23) % 0x1_0000_0000_0000_0000
    ensures InfoAllowed(m, root, dest, ptr) <==>
            && Grants(m, root, dest % VA_LIMIT, true)
            && (Grants(m, root, last % VA_LIMIT, false) || (last / 4096 - ptr / 4096) % 0x1_0000_0000 == 0)
  {
    ChecksAt(m, root, dest, ptr, last);
    hide Tree, Lookup, Grants, AsInt32, Present, Writable, User, InfoAllowed;
    LookupGrants(m, root, lay, dest);
    LookupGrants(m, root, lay, last);
    SamePageNumber(last / 4096, ptr / 4096);
  }

  lemma ChecksAt(m: Memory, root: int, dest: int, ptr: int, last: int)
    requires last == (dest + 23) % 0x1_0000_0000_0000_0000
    ensures var r, o := Lookup(m, root, dest), Lookup(m, root, last);
            InfoAllowed(m, root, dest, ptr) <==>
            Writable(r.perm) && User(r.perm)
            && (AsInt32(last / 4096) == AsInt32(ptr / 4096) || (Writable(o.perm) && Present(o.perm)))
  {
    hide Lookup, AsInt32, Present, Writable, User;
  }

  /** So when the two pages of a destination that crosses are not both writable, nothing is written, unless the
      address asked about lies in the second. */
  lemma CallWrites(s: Snapshot, t: Snapshot, pid: int, dest: int, ptr: int, pad: seq<Byte>)
    requires KInv(s.mem, s.info, s.tabs, {}) && InfoWritten(s, t, pid, dest, ptr, pad)
    requires 0 <= dest && !OnConsole(dest % VA_LIMIT)
    ensures var root, p, last := s.tabs[pid].root, dest % VA_LIMIT, (dest + 23) % 0x1_0000_0000_0000_0000;
            if && Grants(s.mem, root, p, true)
               && (Grants(s.mem, root, last % VA_LIMIT, false) || (last / 4096 - ptr / 4096) % 0x1_0000_0000 == 0)
            then t == s.(mem := Splice(s.mem, PhysAddr(s.mem, root, p), InfoBytes(Lookup(s.mem, root, ptr), pad)))
            else t == s
  {
    WritesExactly(s.mem, s.info, s.tabs, pid, dest, ptr);
    hide KInv, Lookup, Grants, Splice, InfoBytes, PhysAddr, OnConsole;
    if InfoAllowed(s.mem, s.tabs[pid].root, dest, ptr) {
      CopyAddress(s.mem, s.info, s.tabs, pid, dest);
    }
  }

  // ----- whom it concerns ----------------------------------------------------------------------

  /** The accounting stands, and no other process and no frame of the kernel's has changed. */
  ghost predicate Unnoticed(m: Memory, m2: Memory, info: seq<PageInfo>, tabs: map<int, Tables>, pid: int)
  {
    KInv(m2, info, tabs, {}) && OthersKept(m, m2, tabs, pid) && HeldKept(m, info, m2, info)
  }

  /** Whatever 24 bytes are copied to where p is mapped. */
  ghost predicate Harmless(m: Memory, info: seq<PageInfo>, tabs: map<int, Tables>, pid: int, p: int)
    requires pid in tabs
  {
    forall bs: seq<Byte> :: |bs| == INFO_SIZE ==>
      Unnoticed(m, Splice(m, PhysAddr(m, tabs[pid].root, p), bs), info, tabs, pid)
  }

  /** There is no frame g, or it is free, or mapped at a user page of pid. */
  ghost predicate Disposable(m: Memory, info: seq<PageInfo>, tabs: map<int, Tables>, pid: int, g: int)
    requires pid in tabs && 0 <= g <= NPAGES == |info|
  {
    g == NPAGES || info[g] == PageInfo(0, 0) || exists v :: UserPage(v) && FrameAt(m, tabs[pid].root, v) == g
  }

  /** The copy concerns nobody else, whatever it contains, exactly when it stays in one page or runs into a
      frame that is free, the process's own, or missing. */
  lemma HarmlessExactly(m: Memory, info: seq<PageInfo>, tabs: map<int, Tables>, pid: int, p: int)
    requires KInv(m, info, tabs, {}) && pid in tabs && forall q :: q in tabs ==> |tabs[q].lay| == TABLE_PAGES
    requires PROC_START_ADDR <= p < MEMSIZE_VIRTUAL && FrameAt(m, tabs[pid].root, PageOfAddr(p)) >= 0
    ensures |info| == NPAGES && FrameAt(m, tabs[pid].root, PageOfAddr(p)) < NPAGES
    ensures Harmless(m, info, tabs, pid, p) <==>
            InOnePage(p) || Disposable(m, info, tabs, pid, FrameAt(m, tabs[pid].root, PageOfAddr(p)) + 1)
  {
    SizeOf(m, info, tabs, {});
    OwnedFrame(m, info, tabs, {}, pid, p);
    hide KInv, FrameAt, PhysAddr, PageOfAddr, Splice, Unnoticed, Disposable, InOnePage;
    var g := FrameAt(m, tabs[pid].root, PageOfAddr(p)) + 1;
    if InOnePage(p) || Disposable(m, info, tabs, pid, g) {
      forall bs: seq<Byte> | |bs| == INFO_SIZE
        ensures Unnoticed(m, Splice(m, PhysAddr(m, tabs[pid].root, p), bs), info, tabs, pid)
      {
        if InOnePage(p) {
          OnePageUnnoticed(m, info, tabs, pid, p, bs);
        } else {
          TwoFramesUnnoticed(m, info, tabs, pid, p, bs, g);
        }
      }
    } else {
      var c := ByteMatters(m, info, tabs, pid, g);
      var bs := OneByte(m, info, tabs, pid, p, g, c);
    }
  }

  /** The call's first check makes it copy to where dest is mapped. */
  lemma CopyAddress(m: Memory, info: seq<PageInfo>, tabs: map<int, Tables>, pid: int, dest: int)
    requires KInv(m, info, tabs, {}) && pid in tabs && 0 <= dest && !OnConsole(dest % VA_LIMIT)
    requires var r := Lookup(m, tabs[pid].root, dest); Writable(r.perm) && User(r.perm)
    ensures var root, p := tabs[pid].root, dest % VA_LIMIT;
            && PROC_START_ADDR <= p < MEMSIZE_VIRTUAL && FrameAt(m, root, PageOfAddr(p)) >= 0
            && Lookup(m, root, dest).pa == PhysAddr(m, root, p)
  {
    hide KInv, Lookup, FrameAt, Leaf, PhysAddr, PageOfAddr, Writable, User, OnConsole;
    LookupOffset(m, tabs[pid].root, dest);
    LookupStore(m, info, tabs, pid, dest % VA_LIMIT);
  }

  /** So whatever it is asked for, the call is harmless under that condition. */
  lemma CallUnnoticed(s: Snapshot, t: Snapshot, pid: int, dest: int, ptr: int, pad: seq<Byte>)
    requires KInv(s.mem, s.info, s.tabs, {}) && InfoWritten(s, t, pid, dest, ptr, pad)
    requires (forall q :: q in s.tabs ==> |s.tabs[q].lay| == TABLE_PAGES) && 0 <= dest && !OnConsole(dest % VA_LIMIT)
    requires var p := dest % VA_LIMIT;
             var g := FrameAt(s.mem, s.tabs[pid].root, PageOfAddr(p)) + 1;
             |s.info| == NPAGES && (0 < g < NPAGES ==> InOnePage(p) || Disposable(s.mem, s.info, s.tabs, pid, g))
    ensures Unnoticed(s.mem, t.mem, s.info, s.tabs, pid)
  {
    hide KInv, FrameAt, PhysAddr, PageOfAddr, Splice, Unnoticed, InOnePage, Lookup, InfoBytes, OnConsole;
    var root, p := s.tabs[pid].root, dest % VA_LIMIT;
    if InfoAllowed(s.mem, root, dest, ptr) {
      CopyAddress(s.mem, s.info, s.tabs, pid, dest);
      HarmlessExactly(s.mem, s.info, s.tabs, pid, p);
    } else {
      NothingUnnoticed(s.mem, s.info, s.tabs, pid);
    }
  }

  lemma OnePageUnnoticed(m: Memory, info: seq<PageInfo>, tabs: map<int, Tables>, pid: int, p: int, bs: seq<Byte>)
    requires KInv(m, info, tabs, {}) && pid in tabs && PROC_START_ADDR <= p < MEMSIZE_VIRTUAL
    requires FrameAt(m, tabs[pid].root, PageOfAddr(p)) >= 0 && p % PAGE + |bs| <= PAGE
    ensures Unnoticed(m, Splice(m, PhysAddr(m, tabs[pid].root, p), bs), info, tabs, pid)
  {
    hide KInv, FrameAt, PhysAddr, PageOfAddr, Splice, OthersKept, HeldKept, SameLeaves, ReadVirtual;
    SpliceSeen(m, info, tabs, {}, pid, p, bs);
  }

  lemma UnnoticedTwice(m: Memory, m1: Memory, m2: Memory, info: seq<PageInfo>, tabs: map<int, Tables>, pid: int)
    requires Unnoticed(m, m1, info, tabs, pid) && Unnoticed(m1, m2, info, tabs, pid)
    ensures Unnoticed(m, m2, info, tabs, pid)
  {
    hide KInv, OthersKept, HeldKept;
    OthersTwice(m, m1, m2, tabs, pid);
    HeldTwice(m, info, m1, info, m2, info);
  }

  lemma SpliceParts(m: Memory, a: int, bs: seq<Byte>, n: nat)
    requires n <= |bs|
    ensures Splice(m, a, bs) == Splice(Splice(m, a, bs[..n]), a + n, bs[n..])
  {
  }

  /** The first part fills the page; the rest goes to the start of the next frame. */
  lemma TwoFramesUnnoticed(m: Memory, info: seq<PageInfo>, tabs: map<int, Tables>, pid: int, p: int, bs: seq<Byte>,
                           g: int)
    requires KInv(m, info, tabs, {}) && pid in tabs && PROC_START_ADDR <= p < MEMSIZE_VIRTUAL && |info| == NPAGES
    requires FrameAt(m, tabs[pid].root, PageOfAddr(p)) == g - 1 && 1 <= g <= NPAGES
    requires Disposable(m, info, tabs, pid, g) && !InOnePage(p) && |bs| == INFO_SIZE
    ensures Unnoticed(m, Splice(m, PhysAddr(m, tabs[pid].root, p), bs), info, tabs, pid)
  {
    hide KInv, FrameAt, PhysAddr, PageOfAddr, Splice, OthersKept, HeldKept, SameLeaves, ReadVirtual, Disposable;
    hide Unnoticed, InOnePage;
    var root, n, a := tabs[pid].root, PAGE - p % PAGE, PhysAddr(m, tabs[pid].root, p);
    Crossing(m, root, p);
    var m1 := Splice(m, a, bs[..n]);
    SpliceSeen(m, info, tabs, {}, pid, p, bs[..n]);
    OnePageUnnoticed(m, info, tabs, pid, p, bs[..n]);
    SpliceParts(m, a, bs, n);
    RestUnnoticed(m, m1, info, tabs, pid, g, bs[n..]);
    UnnoticedTwice(m, m1, Splice(m, a, bs), info, tabs, pid);
  }

  lemma RestUnnoticed(m: Memory, m1: Memory, info: seq<PageInfo>, tabs: map<int, Tables>, pid: int, g: int,
                      bs: seq<Byte>)
    requires KInv(m1, info, tabs, {}) && pid in tabs && 1 <= g <= NPAGES == |info| && |bs| <= PAGE
    requires SameLeaves(m, m1, tabs[pid].root) && Disposable(m, info, tabs, pid, g)
    ensures Unnoticed(m1, Splice(m1, g * PAGE, bs), info, tabs, pid)
  {
    hide KInv, FrameAt, SameLeaves, Unnoticed, OthersKept, HeldKept;
    SizeOf(m1, info, tabs, {});
    if g == NPAGES {
      assert Splice(m1, g * PAGE, bs) == m1;
      NothingUnnoticed(m1, info, tabs, pid);
    } else if info[g] == PageInfo(0, 0) {
      hide Splice;
      FreeUnnoticed(m1, Splice(m1, g * PAGE, bs), info, tabs, pid, g);
    } else {
      hide Splice;
      var v :| UserPage(v) && FrameAt(m, tabs[pid].root, v) == g;
      assert PageOfAddr(v) == v && v % PAGE == 0;
      SameFrame(m, m1, tabs[pid].root, v);
      OnePageUnnoticed(m1, info, tabs, pid, v, bs);
    }
  }

  lemma SameFrame(m: Memory, m1: Memory, root: int, v: int)
    requires SameLeaves(m, m1, root) && UserPage(v)
    ensures FrameAt(m1, root, v) == FrameAt(m, root, v)
  {
    hide Leaf;
  }

  lemma NothingUnnoticed(m: Memory, info: seq<PageInfo>, tabs: map<int, Tables>, pid: int)
    requires KInv(m, info, tabs, {})
    ensures Unnoticed(m, m, info, tabs, pid)
  {
    hide KInv, OthersKept, HeldKept;
    NothingKept(m, tabs, pid);
    NothingHeld(m, info);
  }

  /** A free frame may hold anything. */
  lemma FreeUnnoticed(m: Memory, m2: Memory, info: seq<PageInfo>, tabs: map<int, Tables>, pid: int, g: int)
    requires KInv(m, info, tabs, {}) && pid in tabs && 0 < g < NPAGES == |info| && info[g] == PageInfo(0, 0)
    requires SameOutside(m, m2, g * PAGE, g * PAGE + PAGE)
    ensures Unnoticed(m, m2, info, tabs, pid)
  {
    OwnerPositive(m, info, tabs, {}, pid);
    assert |m2| == |m|;
    hide KInv, SameOutside, Leaf, UserKept, HeldKept;
    AllocFrame(m, m2, info, tabs, {}, g, pid);
    assert {} + {g} == {g} && {g} - {g} == {};
    Setup.FreeLoose(m2, info[g := PageInfo(pid, 1)], tabs, {g}, g);
    assert info[g := PageInfo(pid, 1)][g := PageInfo(0, 0)] == info;
    FillUnseen(m, m2, info, tabs, {}, g);
    HeldByFrame(m, info, m2, info, g);
  }

  // ----- a byte that matters ---------------------------------------------------------------------

  /** The copy may change the first byte of the next frame alone. */
  lemma OneByte(m: Memory, info: seq<PageInfo>, tabs: map<int, Tables>, pid: int, p: int, g: int, c: Byte)
    returns (bs: seq<Byte>)
    requires |m| == MEMSIZE_PHYSICAL && pid in tabs && PROC_START_ADDR <= p < MEMSIZE_VIRTUAL
    requires FrameAt(m, tabs[pid].root, PageOfAddr(p)) == g - 1 && 1 <= g < NPAGES && !InOnePage(p)
    ensures |bs| == INFO_SIZE && Splice(m, PhysAddr(m, tabs[pid].root, p), bs) == m[g * PAGE := c]
  {
    var n, a := PAGE - p % PAGE, PhysAddr(m, tabs[pid].root, p);
    hide FrameAt;
    assert a + n == g * PAGE && 0 <= n < INFO_SIZE && a + INFO_SIZE <= |m| && 0 <= a;
    bs := m[a..a + INFO_SIZE][n := c];
    hide PhysAddr;
    assert Splice(m, a, bs) == m[g * PAGE := c];
  }

  /** In a frame that is not disposable some first byte matters. */
  lemma ByteMatters(m: Memory, info: seq<PageInfo>, tabs: map<int, Tables>, pid: int, g: int) returns (c: Byte)
    requires KInv(m, info, tabs, {}) && pid in tabs && forall q :: q in tabs ==> |tabs[q].lay| == TABLE_PAGES
    requires 1 <= g <= NPAGES == |info| && !Disposable(m, info, tabs, pid, g)
    ensures g < NPAGES && g * PAGE < |m| && !Unnoticed(m, m[g * PAGE := c], info, tabs, pid)
  {
    SizeOf(m, info, tabs, {});
    hide ProcInv, FrameAt, OthersKept, InUse;
    c := if m[g * PAGE] == 0 then 1 else 0;
    if info[g].owner > 0 {
      var o := info[g].owner;
      assert o in tabs && InUse(m, g, tabs[o]);
      c := UsedByteMatters(m, info, tabs, pid, g, o);
    } else {
      assert info[g].owner < 0;
      assert !HeldKept(m, info, m[g * PAGE := c], info) by {
        HeldByteMatters(m, info, g, c);
      }
    }
  }

  lemma HeldByteMatters(m: Memory, info: seq<PageInfo>, g: int, c: Byte)
    requires 0 <= g < |info| && info[g].owner < 0 && 0 <= g * PAGE < |m| && m[g * PAGE] != c
    ensures !HeldKept(m, info, m[g * PAGE := c], info)
  {
    var m2 := m[g * PAGE := c];
    assert m2[g * PAGE] != m[g * PAGE];
    assert !SameBytes(m, m2, g * PAGE, g * PAGE + PAGE);
  }

  lemma UsedByteMatters(m: Memory, info: seq<PageInfo>, tabs: map<int, Tables>, pid: int, g: int, o: int)
    returns (c: Byte)
    requires KInv(m, info, tabs, {}) && pid in tabs && o in tabs && |tabs[o].lay| == TABLE_PAGES
    requires 1 <= g < NPAGES == |info| && InUse(m, g, tabs[o]) && !Disposable(m, info, tabs, pid, g)
    ensures g * PAGE < |m| && !Unnoticed(m, m[g * PAGE := c], info, tabs, pid)
  {
    SizeOf(m, info, tabs, {});
    hide KInv, FrameAt, OthersKept, HeldKept, InUse, Disposable;
    if g * PAGE in tabs[o].lay {
      c := TableByteMatters(m, info, tabs, o, g * PAGE);
    } else {
      var v := WhereUsed(m, info, tabs, pid, g, o);
      c := if m[g * PAGE] == 0 then 1 else 0;
      PageByteMatters(m, info, tabs, pid, o, v, c);
    }
  }

  lemma WhereUsed(m: Memory, info: seq<PageInfo>, tabs: map<int, Tables>, pid: int, g: int, o: int) returns (v: int)
    requires pid in tabs && o in tabs && 0 <= g < NPAGES == |info| && !Disposable(m, info, tabs, pid, g)
    requires InUse(m, g, tabs[o]) && g * PAGE !in tabs[o].lay
    ensures UserPage(v) && FrameAt(m, tabs[o].root, v) == g && o != pid
  {
    hide FrameAt;
    v :| UserPage(v) && FrameAt(m, tabs[o].root, v) == g;
  }

  /** A byte of another process's page. */
  lemma PageByteMatters(m: Memory, info: seq<PageInfo>, tabs: map<int, Tables>, pid: int, o: int, v: int, c: Byte)
    requires KInv(m, info, tabs, {}) && o in tabs && o != pid && UserPage(v) && FrameAt(m, tabs[o].root, v) >= 0
    requires var a := FrameAt(m, tabs[o].root, v) * PAGE; 0 <= a < |m| && m[a] != c
    ensures !OthersKept(m, m[FrameAt(m, tabs[o].root, v) * PAGE := c], tabs, pid)
  {
    hide KInv, Leaf, FrameAt, ReadVirtual;
    var root := tabs[o].root;
    assert PageOfAddr(v) == v && PhysAddr(m, root, v) == FrameAt(m, root, v) * PAGE;
    OwnedFrame(m, info, tabs, {}, o, v);
    SizeOf(m, info, tabs, {});
    ReadIs(m, root, v);
    StoreSeen(m, info, tabs, {}, o, v, c);
    assert !UserKept(m, m[FrameAt(m, root, v) * PAGE := c], root);
  }

  // ----- the first byte of a table ------------------------------------------------------------------

  lemma LowByte(m: Memory, t: int, c: Byte)
    requires 0 <= t && t + 8 <= |m|
    ensures exists k: nat :: Entry(m[t := c], t, 0) == c + 256 * k
  {
    var m2 := m[t := c];
    var w := m2[t..t + 8];
    assert w[0] == c;
    assert Decode(w) == c + 256 * Decode(w[1..]);
  }

  /** With 2 there the first entry is neither zero nor present, with 1 it is present. */
  lemma FirstEntry(m: Memory, t: int, c: Byte)
    requires 0 <= t && t + 8 <= |m|
    ensures c == 2 ==> Entry(m[t := c], t, 0) != 0 && !Present(Entry(m[t := c], t, 0))
    ensures c == 1 ==> Present(Entry(m[t := c], t, 0))
  {
    hide Entry;
    LowByte(m, t, c);
    var k: nat :| Entry(m[t := c], t, 0) == c + 256 * k;
    Parity(k);
  }

  lemma Parity(k: nat)
    ensures (2 + 256 * k) % 2 == 0 && (1 + 256 * k) % 2 == 1
  {
    assert 2 + 256 * k == 2 * (1 + 128 * k);
    Halve(128 * k, 1);
  }

  lemma ByteIsEntry(m: Memory, lay: Layout, t: int, c: Byte)
    requires TablePages(m, lay) && t in lay
    ensures EntrySet(m, m[t := c], lay, t, 0, Entry(m[t := c], t, 0))
  {
    var m2 := m[t := c];
    hide TablePages;
    assert t % PAGE == 0 && 0 < t && t + PAGE <= |m| && forall u :: u in lay ==> u % PAGE == 0 by {
      PageFacts(m, lay, t);
    }
    forall u, i | u in lay && 0 <= i < 512 && !(u == t && i == 0)
      ensures Entry(m2, u, i) == Entry(m, u, i)
    {
      PagesApart(t, u);
      ReadWordFrame(m, m2, u + 8 * i);
    }
  }

  lemma PageFacts(m: Memory, lay: Layout, t: int)
    requires TablePages(m, lay) && t in lay
    ensures t % PAGE == 0 && 0 < t && t + PAGE <= |m| && forall u :: u in lay ==> u % PAGE == 0
  {
  }

  lemma TableByteMatters(m: Memory, info: seq<PageInfo>, tabs: map<int, Tables>, q: int, t: int) returns (c: Byte)
    requires KInv(m, info, tabs, {}) && q in tabs && |tabs[q].lay| == TABLE_PAGES && t in tabs[q].lay
    ensures 0 <= t < |m| && !KInv(m[t := c], info, tabs, {})
  {
    TablesOf(m, info, tabs, q);
    PageFacts(m, tabs[q].lay, t);
    c := 2;
    FirstEntry(m, t, c);
    if tabs[q].lay[t].0 < 3 {
      hide Entry;
      assert !Tree(m[t := c], tabs[q].root, tabs[q].lay);
      NoTree(m[t := c], info, tabs, q);
    } else {
      hide Tree, Entry, KInv;
      LeafPages(m, info, tabs, q, t);
      if tabs[q].lay[t] == (3, 0) {
        LowByteMatters(m, info, tabs, q, t, c);
      } else if FrameAt(m, tabs[q].root, 0x20_0000) >= 0 {
        UnmapMatters(m, info, tabs, q, t, c);
      } else {
        c := 1;
        FirstEntry(m, t, c);
        MapMatters(m, info, tabs, q, t, c);
      }
    }
  }

  lemma NoTree(m: Memory, info: seq<PageInfo>, tabs: map<int, Tables>, q: int)
    requires q in tabs && !Tree(m, tabs[q].root, tabs[q].lay)
    ensures !KInv(m, info, tabs, {})
  {
    hide Tree;
    assert !ProcInv(m, info, q, tabs[q], {});
  }

  /** The two leaf tables are those of address 0 and of 2 MB. */
  lemma LeafPages(m: Memory, info: seq<PageInfo>, tabs: map<int, Tables>, q: int, t: int)
    requires KInv(m, info, tabs, {}) && q in tabs && |tabs[q].lay| == TABLE_PAGES
    requires t in tabs[q].lay && tabs[q].lay[t].0 >= 3
    ensures tabs[q].lay[t] == (3, 0) || tabs[q].lay[t] == (3, 1)
    ensures Walk(m, tabs[q].root, if tabs[q].lay[t] == (3, 0) then 0 else 0x20_0000, 3) == Some(t)
  {
    hide KInv, Tree, Leaf, Entry, PteAddr;
    var root, lay := tabs[q].root, tabs[q].lay;
    FiveTables(m, info, tabs, q);
    UserLeaf(m, info, tabs, {}, q, 0);
    UserLeaf(m, info, tabs, {}, q, 0x20_0000);
    PathOf(m, root, lay, 0);
    PathOf(m, root, lay, 0x20_0000);
    LeafWalk(m, root, lay, 0);
    LeafWalk(m, root, lay, 0x20_0000);
    hide Walk;
    var ls := TableList(m, root);
    assert t in ls;
  }

  lemma LeafWalk(m: Memory, root: int, lay: Layout, va: int)
    requires Tree(m, root, lay) && (va == 0 || va == 0x20_0000) && Leaf(m, root, va).Some?
    ensures Walk(m, root, va, 3).Some?
    ensures var w := Walk(m, root, va, 3).value; w in lay && lay[w] == (3, if va == 0 then 0 else 1)
  {
    PathIndices(va);
    WalkLayout(m, root, lay, va, 3);
  }

  /** The page map after the change. */
  lemma FirstLeaf(m: Memory, root: int, lay: Layout, t: int, c: Byte, va: int)
    requires Tree(m, root, lay) && t in lay && 0 <= t < |m| && 0 <= va < VA_LIMIT && Walk(m, root, va, 3) == Some(t)
    requires PageIndex(va, 3) == 0
    ensures LeafSet(m, m[t := c], root, va, Entry(m[t := c], t, 0))
    ensures Leaf(m[t := c], root, va) == Some(Entry(m[t := c], t, 0))
  {
    ByteIsEntry(m, lay, t, c);
    hide Tree, Entry, Walk, Leaf, PageIndex, EntrySet;
    forall v | 0 <= v < VA_LIMIT
      ensures Leaf(m[t := c], root, v) ==
              if v / PAGE == va / PAGE then Some(Entry(m[t := c], t, 0)) else Leaf(m, root, v)
    {
      LeafAfter(m, m[t := c], root, lay, va, Entry(m[t := c], t, 0), v);
    }
  }

  lemma FirstIndex()
    ensures PageIndex(0, 3) == 0 && PageIndex(0x20_0000, 3) == 0 && UserPage(0x20_0000)
  {
  }

  /** Address 0 is no longer mapped. */
  lemma LowByteMatters(m: Memory, info: seq<PageInfo>, tabs: map<int, Tables>, q: int, t: int, c: Byte)
    requires KInv(m, info, tabs, {}) && q in tabs && t in tabs[q].lay && 0 <= t < |m|
    requires Walk(m, tabs[q].root, 0, 3) == Some(t) && !Present(Entry(m[t := c], t, 0))
    ensures !KInv(m[t := c], info, tabs, {})
  {
    TablesOf(m, info, tabs, q);
    FirstIndex();
    FirstLeaf(m, tabs[q].root, tabs[q].lay, t, c, 0);
    hide Tree, Leaf, Entry, Walk, LeafSet, Present;
    assert !LowIdentity(m[t := c], tabs[q].root);
    assert !ProcInv(m[t := c], info, q, tabs[q], {});
  }

  /** The frame at 2 MB has lost its use. */
  lemma UnmapMatters(m: Memory, info: seq<PageInfo>, tabs: map<int, Tables>, q: int, t: int, c: Byte)
    requires KInv(m, info, tabs, {}) && q in tabs && t in tabs[q].lay && 0 <= t < |m|
    requires Walk(m, tabs[q].root, 0x20_0000, 3) == Some(t) && FrameAt(m, tabs[q].root, 0x20_0000) >= 0
    requires !Present(Entry(m[t := c], t, 0))
    ensures !KInv(m[t := c], info, tabs, {})
  {
    TablesOf(m, info, tabs, q);
    FirstIndex();
    var m2, root, e := m[t := c], tabs[q].root, Entry(m[t := c], t, 0);
    FirstLeaf(m, root, tabs[q].lay, t, c, 0x20_0000);
    FramesAfter(m, m2, root, 0x20_0000, e);
    var f := FrameAt(m, root, 0x20_0000);
    OwnedFrame(m, info, tabs, {}, q, 0x20_0000);
    OwnerPositive(m, info, tabs, {}, q);
    DistinctIn(m, info, tabs, q);
    hide KInv, Tree, Leaf, Entry, Walk, LeafSet, FrameAt;
    assert !InUse(m2, f, tabs[q]);
    Unused(m2, info, tabs, f);
  }

  lemma DistinctIn(m: Memory, info: seq<PageInfo>, tabs: map<int, Tables>, q: int)
    requires KInv(m, info, tabs, {}) && q in tabs
    ensures PagesDistinct(m, tabs[q].root) && PagesOwned(m, info, q, tabs[q], {})
  {
    assert ProcInv(m, info, q, tabs[q], {});
  }

  lemma Unused(m: Memory, info: seq<PageInfo>, tabs: map<int, Tables>, f: int)
    requires 0 <= f < |info| && info[f].owner > 0 && info[f].owner in tabs && !InUse(m, f, tabs[info[f].owner])
    ensures !KInv(m, info, tabs, {})
  {
    hide InUse, ProcInv;
    assert !Accounted(m, info, tabs, {});
  }

  /** The entry at 2 MB maps a frame that is not the process's, or that it has mapped elsewhere. */
  lemma MapMatters(m: Memory, info: seq<PageInfo>, tabs: map<int, Tables>, q: int, t: int, c: Byte)
    requires KInv(m, info, tabs, {}) && q in tabs && t in tabs[q].lay && 0 <= t < |m|
    requires Walk(m, tabs[q].root, 0x20_0000, 3) == Some(t) && FrameAt(m, tabs[q].root, 0x20_0000) < 0
    requires Present(Entry(m[t := c], t, 0))
    ensures !KInv(m[t := c], info, tabs, {})
  {
    TablesOf(m, info, tabs, q);
    FirstIndex();
    var m2, root, e := m[t := c], tabs[q].root, Entry(m[t := c], t, 0);
    FirstLeaf(m, root, tabs[q].lay, t, c, 0x20_0000);
    FramesAfter(m, m2, root, 0x20_0000, e);
    OwnerPositive(m, info, tabs, {}, q);
    var x := FrameAt(m2, root, 0x20_0000);
    hide Tree, Leaf, Entry, Walk, LeafSet, FrameAt;
    hide KInv;
    if PagesOwned(m2, info, q, tabs[q], {}) {
      assert info[x] == PageInfo(q, 1) && x * PAGE !in tabs[q].lay;
      var w := UsedAt(m, info, tabs, q, x);
      assert !PagesDistinct(m2, root);
    }
    assert !ProcInv(m2, info, q, tabs[q], {});
    NoProcess(m2, info, tabs, q);
  }

  lemma UsedAt(m: Memory, info: seq<PageInfo>, tabs: map<int, Tables>, q: int, x: int) returns (w: int)
    requires KInv(m, info, tabs, {}) && q in tabs && 0 < q && 0 <= x < |info| && info[x] == PageInfo(q, 1)
    requires x * PAGE !in tabs[q].lay
    ensures UserPage(w) && FrameAt(m, tabs[q].root, w) == x
  {
    hide ProcInv, FrameAt;
    assert InUse(m, x, tabs[q]);
    w :| UserPage(w) && FrameAt(m, tabs[q].root, w) == x;
  }

  lemma NoProcess(m: Memory, info: seq<PageInfo>, tabs: map<int, Tables>, q: int)
    requires q in tabs && !ProcInv(m, info, q, tabs[q], {})
    ensures !KInv(m, info, tabs, {})
  {
    hide ProcInv;
  }
}
