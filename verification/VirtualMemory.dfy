/** Physical memory and the two operations on a process's page tables: mapping a
    range and looking an address up. */
module VirtualMemory {
  import opened Words
  import opened PageTables

  /** A page number, physical address and flags; -1, all ones and 0 when unmapped. */
  datatype Mapping = Mapping(pn: int, pa: int, perm: int)

  const UNMAPPED := Mapping(-1, U64 - 1, 0)

  function MappingOf(e: int, va: int): Mapping
  {
    if Present(e) then Mapping(AsInt32(e / PAGE), PteAddr(e) + va % PAGE, PteFlags(e)) else UNMAPPED
  }

  /** The translation the page map gives: the leaf entry's frame, offset and flags. */
  function Translate(m: Memory, root: int, va: int): Mapping
  {
    match Leaf(m, root, va)
    case None => UNMAPPED
    case Some(e) => MappingOf(e, va)
  }

  // ----- the lookup loop -----------------------------------------------------------

  /** e & ~(pe & (W | U)): e without the W and U bits that pe has. */
  function Mask(e: int, pe: int): int
  {
    e - (if Writable(e) && Writable(pe) then PTE_W else 0) - (if User(e) && User(pe) then PTE_U else 0)
  }

  lemma Bits(hi: int, u: int, w: int, p: int)
    requires 0 <= hi && 0 <= u <= 1 && 0 <= w <= 1 && 0 <= p <= 1
    ensures var e := 8 * hi + 4 * u + 2 * w + p;
            && (Present(e) <==> p == 1) && (Writable(e) <==> w == 1) && (User(e) <==> u == 1)
            && PteAddr(e) == 4096 * (hi / 512)
  {
    LowBits(4 * hi + 2 * u + w, p, 2 * hi + u, w, hi, u);
    var e := 8 * hi + 4 * u + 2 * w + p;
    hide Present, Writable, User, PteAddr;
    AddrBits(hi, 4 * u + 2 * w + p);
  }

  lemma LowBits(a: int, p: int, b: int, w: int, hi: int, u: int)
    requires a == 2 * b + w && b == 2 * hi + u && 0 <= p <= 1 && 0 <= w <= 1 && 0 <= u <= 1
    ensures var e := 2 * a + p;
            (Present(e) <==> p == 1) && (Writable(e) <==> w == 1) && (User(e) <==> u == 1)
  {
    Halve(a, p);
    Halve(b, w);
    Halve(hi, u);
    Quarter(b, 2 * w + p);
  }

  lemma Halve(q: int, r: int)
    requires 0 <= r <= 1
    ensures (2 * q + r) / 2 == q && (2 * q + r) % 2 == r
  {
  }

  lemma Quarter(q: int, r: int)
    requires 0 <= r < 4
    ensures (4 * q + r) / 4 == q
  {
  }

  lemma AddrBits(hi: int, low: int)
    requires 0 <= hi && 0 <= low < 8
    ensures PteAddr(8 * hi + low) == 4096 * (hi / 512)
  {
    var q, r := hi / 512, hi % 512;
    var e, rest := 8 * hi + low, 8 * r + low;
    assert e == 4096 * q + rest && 0 <= rest < 4096;
    assert e % 4096 == rest;
  }

  lemma MaskBits(e: int, pe: int)
    requires 0 <= e
    ensures var r := Mask(e, pe);
            && 0 <= r && Present(r) == Present(e) && PteAddr(r) == PteAddr(e)
            && (Writable(r) <==> Writable(e) && !Writable(pe))
            && (User(r) <==> User(e) && !User(pe))
  {
    var hi, u, w, p := e / 8, e / 4 % 2, e / 2 % 2, e % 2;
    BitsOf(e);
    Bits(hi, u, w, p);
    var u2, w2 := if User(pe) then 0 else u, if Writable(pe) then 0 else w;
    Bits(hi, u2, w2, p);
    hide Present, Writable, User, PteAddr;
    assert Mask(e, pe) == 8 * hi + 4 * u2 + 2 * w2 + p;
  }

  lemma BitsOf(e: int)
    ensures e == 8 * (e / 8) + 4 * (e / 4 % 2) + 2 * (e / 2 % 2) + e % 2
  {
    assert e == 2 * (e / 2) + e % 2;
    assert e / 2 == 2 * (e / 4) + e / 2 % 2 by {
      assert e / 2 / 2 == e / 4;
    }
    assert e / 4 / 2 == e / 8;
  }

  /** The entry the loop ends with when it is at table pt, index level i, with pe. */
  function Follow(m: Memory, pt: int, pe: int, va: int, i: nat): int
    requires i <= 4
    decreases 4 - i
  {
    if i <= 3 && Present(pe) then
      var e := Mask(Entry(m, pt, PageIndex(va, i)), pe);
      Follow(m, PteAddr(e), e, va, i + 1)
    else pe
  }

  /** The entry of level l on the path of va, when the walk gets that far. */
  function PathEntry(m: Memory, root: int, va: int, l: nat): nat
    requires l <= 3
  {
    match Walk(m, root, va, l)
    case None => 0
    case Some(t) => Entry(m, t, PageIndex(va, l))
  }

  /** One turn of the loop, from level l of the walk to the next. */
  lemma FollowStep(m: Memory, root: int, va: int, l: nat, pe: int)
    requires l <= 3 && Present(pe) && Walk(m, root, va, l).Some?
    ensures var e := PathEntry(m, root, va, l);
            Follow(m, Walk(m, root, va, l).value, pe, va, l) ==
            Follow(m, PteAddr(e), Mask(e, pe), va, l + 1)
    ensures Present(PathEntry(m, root, va, l)) ==>
              Walk(m, root, va, l + 1) == Some(PteAddr(PathEntry(m, root, va, l)))
    ensures !Present(PathEntry(m, root, va, l)) ==>
              Walk(m, root, va, l + 1) == None && !Present(Mask(PathEntry(m, root, va, l), pe))
  {
    MaskBits(PathEntry(m, root, va, l), pe);
  }

  /** What the loop computes for any tables at all: the leaf entry, with W (and
      likewise U) cleared exactly when level 2 grants it and level 1 does not. */
  lemma LookupRights(m: Memory, root: int, va: int)
    requires Walk(m, root, va, 4).Some?
    ensures var r, e1, e2, e3 :=
              Follow(m, root, 7, va, 0),
              PathEntry(m, root, va, 1), PathEntry(m, root, va, 2), PathEntry(m, root, va, 3);
            && Present(r) && PteAddr(r) == PteAddr(e3)
            && (Writable(r) <==> Writable(e3) && !(Writable(e2) && !Writable(e1)))
            && (User(r) <==> User(e3) && !(User(e2) && !User(e1)))
            && (!(Writable(e2) && !Writable(e1)) && !(User(e2) && !User(e1)) ==> r == e3)
  {
    hide Follow, Walk, PathEntry, PageIndex, PteAddr, Mask, Writable, User;
    LoopEntry(m, root, va);
    var e1, e2, e3 := PathEntry(m, root, va, 1), PathEntry(m, root, va, 2), PathEntry(m, root, va, 3);
    var p0 := Mask(PathEntry(m, root, va, 0), 7);
    MaskBits(PathEntry(m, root, va, 0), 7);
    MaskBits(e1, p0);
    MaskBits(e2, Mask(e1, p0));
    MaskBits(e3, Mask(e2, Mask(e1, p0)));
    SevenGrants();
    MaskNothing(e3, Mask(e2, Mask(e1, p0)));
  }

  lemma SevenGrants()
    ensures Writable(7) && User(7)
  {
  }

  lemma MaskNothing(e: int, pe: int)
    ensures Mask(e, pe) == e - (if Writable(e) && Writable(pe) then 2 else 0) - (if User(e) && User(pe) then 4 else 0)
  {
    hide Writable, User;
  }

  /** The loop ends with the leaf entry, masked by the entries above it. */
  lemma LoopEntry(m: Memory, root: int, va: int)
    requires Walk(m, root, va, 4).Some?
    ensures Present(PathEntry(m, root, va, 3))
    ensures var e0, e1 := PathEntry(m, root, va, 0), PathEntry(m, root, va, 1);
            var e2, e3 := PathEntry(m, root, va, 2), PathEntry(m, root, va, 3);
            Follow(m, root, 7, va, 0) == Mask(e3, Mask(e2, Mask(e1, Mask(e0, 7))))
  {
    hide PathEntry, PageIndex, PteAddr, Mask, Writable, User, Present, Entry;
    WalkReaches(m, root, va);
    hide Follow, Walk;
    var e0, e1, e2, e3 :=
      PathEntry(m, root, va, 0), PathEntry(m, root, va, 1), PathEntry(m, root, va, 2), PathEntry(m, root, va, 3);
    var p0 := Mask(e0, 7);
    var p1 := Mask(e1, p0);
    var p2 := Mask(e2, p1);
    SevenPresent();
    MaskBits(e0, 7);
    MaskBits(e1, p0);
    MaskBits(e2, p1);
    MaskBits(e3, p2);
    FollowStep(m, root, va, 0, 7);
    FollowStep(m, root, va, 1, p0);
    FollowStep(m, root, va, 2, p1);
    FollowStep(m, root, va, 3, p2);
    FollowEnd(m, PteAddr(e3), Mask(e3, p2), va);
  }

  lemma SevenPresent()
    ensures Present(7)
  {
  }

  lemma FollowEnd(m: Memory, pt: int, pe: int, va: int)
    ensures Follow(m, pt, pe, va, 4) == pe
  {
  }

  lemma WalkReaches(m: Memory, root: int, va: int)
    requires Walk(m, root, va, 4).Some?
    ensures Walk(m, root, va, 3).Some? && Walk(m, root, va, 2).Some? && Walk(m, root, va, 1).Some?
    ensures Walk(m, root, va, 0) == Some(root)
  {
    hide Entry, PageIndex, PteAddr, Present;
  }

  /** Section 4.6 grants an access right only if all four entries do. The loop's
      answer agrees with that for W exactly when the leaf denies W, or level 2
      grants it without level 1, or all three interior levels grant it; same for U. */
  lemma RightsAgree(m: Memory, root: int, va: int)
    requires Walk(m, root, va, 4).Some?
    ensures var r, e0, e1, e2, e3 := Follow(m, root, 7, va, 0),
              PathEntry(m, root, va, 0), PathEntry(m, root, va, 1),
              PathEntry(m, root, va, 2), PathEntry(m, root, va, 3);
            && ((Writable(r) <==> Writable(e0) && Writable(e1) && Writable(e2) && Writable(e3)) <==>
                (!Writable(e3) || (Writable(e2) && !Writable(e1)) || (Writable(e0) && Writable(e1) && Writable(e2))))
            && ((User(r) <==> User(e0) && User(e1) && User(e2) && User(e3)) <==>
                (!User(e3) || (User(e2) && !User(e1)) || (User(e0) && User(e1) && User(e2))))
  {
    LookupRights(m, root, va);
    hide Follow, Walk, PathEntry, Writable, User;
  }

  /** A one-path table chain at pages 0 to 3, with the given flags at each level. */
  function Chain(f0: nat, f1: nat, f2: nat, f3: nat): Memory
  {
    var m := seq(4 * PAGE, _ => 0);
    var m2 := WriteWord(WriteWord(m, 0, PAGE + f0), PAGE, 2 * PAGE + f1);
    WriteWord(WriteWord(m2, 2 * PAGE, 3 * PAGE + f2), 3 * PAGE, f3)
  }

  lemma ChainReads(f0: nat, f1: nat, f2: nat, f3: nat)
    requires f0 < PAGE && f1 < PAGE && f2 < PAGE && f3 < PAGE
    ensures var m := Chain(f0, f1, f2, f3);
            && Entry(m, 0, 0) == PAGE + f0 && Entry(m, PAGE, 0) == 2 * PAGE + f1
            && Entry(m, 2 * PAGE, 0) == 3 * PAGE + f2 && Entry(m, 3 * PAGE, 0) == f3
  {
    var m := seq(4 * PAGE, _ => 0);
    var m0 := WriteWord(m, 0, PAGE + f0);
    var m1 := WriteWord(m0, PAGE, 2 * PAGE + f1);
    var m2 := WriteWord(m1, 2 * PAGE, 3 * PAGE + f2);
    WriteWordReads(m, 0, PAGE + f0);
    WriteWordReads(m0, PAGE, 2 * PAGE + f1);
    WriteWordReads(m1, 2 * PAGE, 3 * PAGE + f2);
    WriteWordReads(m2, 3 * PAGE, f3);
    hide WriteWord, ReadWord;
  }

  lemma ZeroIndex(l: nat)
    requires l <= 3
    ensures PageIndex(0, l) == 0
  {
  }

  /** The walk of address 0 along such a chain when its interior entries are present. */
  lemma ChainPath(m: Memory, f: nat, g: nat)
    requires f < PAGE && f % 2 == 1 && g < PAGE && g % 2 == 1
    requires Entry(m, 0, 0) == PAGE + f && Entry(m, PAGE, 0) == 2 * PAGE + f
    requires Entry(m, 2 * PAGE, 0) == 3 * PAGE + f && Entry(m, 3 * PAGE, 0) == g
    ensures Walk(m, 0, 0, 4).Some?
    ensures PathEntry(m, 0, 0, 0) == PAGE + f && PathEntry(m, 0, 0, 1) == 2 * PAGE + f
    ensures PathEntry(m, 0, 0, 2) == 3 * PAGE + f && PathEntry(m, 0, 0, 3) == g
  {
    hide Entry, PageIndex;
    ZeroIndex(0);
    ZeroIndex(1);
    ZeroIndex(2);
    ZeroIndex(3);
    assert Walk(m, 0, 0, 1) == Some(PAGE);
    assert Walk(m, 0, 0, 2) == Some(2 * PAGE);
    assert Walk(m, 0, 0, 3) == Some(3 * PAGE);
  }

  lemma FlagBits()
    ensures Writable(7) && User(7)
    ensures !Writable(PAGE + 1) && !Writable(2 * PAGE + 1) && !Writable(3 * PAGE + 1)
    ensures !User(PAGE + 1) && !User(2 * PAGE + 1) && !User(3 * PAGE + 1)
  {
  }

  /** With only the leaf granting W and U, the loop reports both; section 4.6 denies both. */
  lemma RightsOverstated()
    ensures var m := Chain(1, 1, 1, 7);
            && Walk(m, 0, 0, 4).Some? && !Writable(PathEntry(m, 0, 0, 0)) && !User(PathEntry(m, 0, 0, 0))
            && Writable(Follow(m, 0, 7, 0, 0)) && User(Follow(m, 0, 7, 0, 0))
  {
    hide Chain, Follow, Walk, PathEntry, Entry, ReadWord;
    ChainReads(1, 1, 1, 7);
    ChainPath(Chain(1, 1, 1, 7), 1, 7);
    LookupRights(Chain(1, 1, 1, 7), 0, 0);
    FlagBits();
  }

  /** In the tree the system builds, the loop finds the page map's translation. */
  lemma LookupTranslates(m: Memory, root: int, lay: Layout, va: int)
    requires Tree(m, root, lay) && 0 <= va < VA_LIMIT
    ensures Lookup(m, root, va) == Translate(m, root, va)
  {
    InteriorGrants(m, root, lay, va, 1);
    InteriorGrants(m, root, lay, va, 2);
    if Walk(m, root, va, 4).Some? {
      LookupRights(m, root, va);
      hide Follow, PageIndex, Writable, User;
    } else {
      FollowAbsent(m, root, va, 0, 7);
      hide Follow, PageIndex;
    }
  }

  lemma InteriorGrants(m: Memory, root: int, lay: Layout, va: int, l: nat)
    requires Tree(m, root, lay) && 0 <= va < VA_LIMIT && l <= 2
    ensures Walk(m, root, va, l + 1).Some? ==>
              Writable(PathEntry(m, root, va, l)) && User(PathEntry(m, root, va, l))
  {
    WalkLayout(m, root, lay, va, l);
    PrefixStep(va, l);
  }

  /** A walk that breaks off leaves the loop with an entry that is not present. */
  lemma {:induction false} FollowAbsent(m: Memory, root: int, va: int, l: nat, pe: int)
    requires l <= 3 && Present(pe) && Walk(m, root, va, l).Some? && Walk(m, root, va, 4).None?
    ensures !Present(Follow(m, Walk(m, root, va, l).value, pe, va, l))
    decreases 4 - l
  {
    FollowStep(m, root, va, l, pe);
    var e := PathEntry(m, root, va, l);
    MaskBits(e, pe);
    if Present(e) && l < 3 {
      FollowAbsent(m, root, va, l + 1, Mask(e, pe));
    }
  }

  /** What virtual_memory_lookup answers. */
  function Lookup(m: Memory, root: int, va: int): Mapping
  {
    MappingOf(Follow(m, root, 7, va, 0), va)
  }

  /** What the lookup answers, for any tables: page number -1, address 2^64 - 1 and no flags where the walk stops
      short of a present leaf, and otherwise the leaf's frame, the byte in it, and the leaf's low 12 bits but for
      the W or U that level 2 grants and level 1 does not. */
  ghost predicate Answers(m: Memory, root: int, va: int, r: Mapping)
  {
    if Walk(m, root, va, 4).None? then r.pn == -1 && r.pa == 0xFFFF_FFFF_FFFF_FFFF && r.perm == 0
    else
      var e1, e2, e3 := PathEntry(m, root, va, 1), PathEntry(m, root, va, 2), PathEntry(m, root, va, 3);
      && r.pn == AsInt32(e3 / 4096) && r.pa == e3 / 4096 * 4096 + va % 4096
      && r.perm == e3 % 4096 - (if Writable(e3) && Writable(e2) && !Writable(e1) then 2 else 0)
                             - (if User(e3) && User(e2) && !User(e1) then 4 else 0)
  }

  lemma LookupAnswers(m: Memory, root: int, va: int)
    ensures Answers(m, root, va, Lookup(m, root, va))
  {
    if Walk(m, root, va, 4).None? {
      FollowAbsent(m, root, va, 0, 7);
      hide Follow, PageIndex;
    } else {
      FollowMasks(m, root, va);
      var e1, e2, e3 := PathEntry(m, root, va, 1), PathEntry(m, root, va, 2), PathEntry(m, root, va, 3);
      hide Follow, Walk, PathEntry, PageIndex;
      MaskedAnswer(e1, e2, e3, Lookup(m, root, va), va);
    }
  }

  /** The entry the loop ends with is the leaf without the flags the rights rule takes away. */
  lemma FollowMasks(m: Memory, root: int, va: int)
    requires Walk(m, root, va, 4).Some?
    ensures var e1, e2, e3 := PathEntry(m, root, va, 1), PathEntry(m, root, va, 2), PathEntry(m, root, va, 3);
            && Present(e3)
            && Follow(m, root, 7, va, 0) ==
               e3 - (if Writable(e3) && Writable(e2) && !Writable(e1) then 2 else 0)
                  - (if User(e3) && User(e2) && !User(e1) then 4 else 0)
  {
    hide Follow, Walk, PathEntry, PageIndex, PteAddr, Mask, Writable, User;
    LoopEntry(m, root, va);
    var e1, e2, e3 := PathEntry(m, root, va, 1), PathEntry(m, root, va, 2), PathEntry(m, root, va, 3);
    var p0 := Mask(PathEntry(m, root, va, 0), 7);
    MaskBits(PathEntry(m, root, va, 0), 7);
    MaskBits(e1, p0);
    MaskBits(e2, Mask(e1, p0));
    SevenGrants();
    MaskNothing(e3, Mask(e2, Mask(e1, p0)));
  }

  lemma MaskedAnswer(e1: nat, e2: nat, e3: nat, r: Mapping, va: int)
    requires Present(e3)
    requires r == MappingOf(e3 - (if Writable(e3) && Writable(e2) && !Writable(e1) then 2 else 0)
                               - (if User(e3) && User(e2) && !User(e1) then 4 else 0), va)
    ensures r.pn == AsInt32(e3 / 4096) && r.pa == e3 / 4096 * 4096 + va % 4096
    ensures r.perm == e3 % 4096 - (if Writable(e3) && Writable(e2) && !Writable(e1) then 2 else 0)
                                - (if User(e3) && User(e2) && !User(e1) then 4 else 0)
  {
    var w, u := Writable(e3) && Writable(e2) && !Writable(e1), User(e3) && User(e2) && !User(e1);
    hide AsInt32;
    FlagsGone(e3, w, u);
  }

  /** Taking W or U away changes neither the frame nor the other flags. */
  lemma FlagsGone(e: nat, w: bool, u: bool)
    requires Present(e) && (w ==> Writable(e)) && (u ==> User(e))
    ensures var r := e - (if w then 2 else 0) - (if u then 4 else 0);
            && Present(r) && r / 4096 == e / 4096 && PteAddr(r) == e / 4096 * 4096
            && PteFlags(r) == e % 4096 - (if w then 2 else 0) - (if u then 4 else 0)
  {
    var q, f := e / 4096, e % 4096;
    assert e == q * 4096 + f;
    LowBitsOf(e);
    var g := f - (if w then 2 else 0) - (if u then 4 else 0);
    assert 0 <= g < 4096;
    PageParts(q, g);
    PageParity(q, g);
    PageParity(q, f);
    SameParity(f, g);
    hide Present, Writable, User;
  }

  lemma SameParity(f: int, g: int)
    requires g == f || g == f - 2 || g == f - 4 || g == f - 6
    ensures Present(f) == Present(g)
  {
  }

  lemma PageParts(q: int, g: int)
    requires 0 <= g < 4096
    ensures (q * 4096 + g) / 4096 == q && (q * 4096 + g) % 4096 == g
  {
  }

  lemma PageParity(q: int, g: int)
    ensures Present(q * 4096 + g) == Present(g)
  {
    assert q * 4096 + g == 2 * (q * 2048) + g;
    EvenShift(q * 2048, g);
  }

  lemma EvenShift(k: int, g: int)
    ensures (2 * k + g) % 2 == g % 2
  {
  }

  /** W and U weigh 2 and 4. */
  lemma LowBitsOf(e: nat)
    ensures Writable(e) ==> 2 <= e % 4096
    ensures User(e) ==> 4 <= e % 4096
    ensures Writable(e) && User(e) ==> 6 <= e % 4096
  {
    var q, f := e / 4096, e % 4096;
    BitsOf(e);
    assert e == 8 * (e / 8) + 4 * (e / 4 % 2) + 2 * (e / 2 % 2) + e % 2;
    var low := 4 * (e / 4 % 2) + 2 * (e / 2 % 2) + e % 2;
    LowPart(e / 8, low);
  }

  lemma LowPart(h: nat, low: nat)
    requires low < 8
    ensures low <= (8 * h + low) % 4096
  {
    var a, b := h / 512, h % 512;
    assert 8 * h + low == a * 4096 + (8 * b + low);
    PageParts(a, 8 * b + low);
  }

  /** The lookup sees only the low 48 bits of an address. */
  lemma {:induction false} FollowWraps(m: Memory, pt: int, pe: int, va: int, i: nat)
    requires i <= 4 && 0 <= va
    ensures Follow(m, pt, pe, va, i) == Follow(m, pt, pe, va % VA_LIMIT, i)
    decreases 4 - i
  {
    if i <= 3 && Present(pe) {
      IndexWraps(va, i);
      var e := Mask(Entry(m, pt, PageIndex(va, i)), pe);
      hide Entry, PageIndex, Mask, Present;
      FollowWraps(m, PteAddr(e), e, va, i + 1);
    }
  }

  lemma IndexWraps(va: int, i: nat)
    requires i <= 3 && 0 <= va
    ensures PageIndex(va % VA_LIMIT, i) == PageIndex(va, i)
  {
    var h, l := va / VA_LIMIT, va % VA_LIMIT;
    var n := if i == 0 then 1 else if i == 1 then 512 else if i == 2 then 0x4_0000 else 0x800_0000;
    assert va == (h * n * 512) * Span(i) + l;
    QuotientShift(h * n * 512, Span(i), l);
    RemainderShift(h * n, l / Span(i));
  }

  lemma QuotientShift(q: int, d: int, l: int)
    requires 0 < d
    ensures (q * d + l) / d == q + l / d
  {
    var r := l % d;
    var t := q + l / d;
    assert q * d + l == t * d + r;
    QuotientUnique(q * d + l, d, t, r);
  }

  lemma QuotientUnique(x: int, d: int, t: int, r: int)
    requires 0 < d && x == t * d + r && 0 <= r < d
    ensures x / d == t
  {
    var k := x / d - t;
    assert k * d == r - x % d;
    ZeroMultiple(k, d);
  }

  lemma ZeroMultiple(k: int, d: int)
    requires 0 < d && -d < k * d < d
    ensures k == 0
  {
    assert k * d < 1 * d && (-1) * d < k * d;
  }

  lemma RemainderShift(h: int, x: int)
    ensures (h * 512 + x) % 512 == x % 512
  {
  }

  // ----- mapping a range ---------------------------------------------------------------

  /** The entry stored for the k-th page of a mapping. */
  function NewEntry(pa: int, perm: int, k: int): int
  {
    if Present(perm) then pa + k * PAGE + perm else perm
  }

  /** Between m and m2 the page map changed on the first n pages of the range at va
      only, where it now holds the new entries wherever a leaf table exists. */
  ghost predicate MappedRange(m: Memory, m2: Memory, root: int, va: int, n: int, pa: int, perm: int)
  {
    forall v :: 0 <= v < VA_LIMIT ==>
      Leaf(m2, root, v) ==
        if va / PAGE <= v / PAGE < va / PAGE + n && Leaf(m, root, v).Some?
        then Some(NewEntry(pa, perm, v / PAGE - va / PAGE)) else Leaf(m, root, v)
  }

  /** The byte at a lies in a leaf table page. */
  ghost predicate InLeafTable(lay: Layout, a: int)
  {
    exists t :: t in lay && lay[t].0 == 3 && t <= a < t + PAGE
  }

  ghost predicate OnlyLeafTables(m: Memory, m2: Memory, lay: Layout)
  {
    |m2| == |m| && forall a :: 0 <= a < |m| && !InLeafTable(lay, a) ==> m2[a] == m[a]
  }

  ghost predicate WalksKept(m: Memory, m2: Memory, root: int)
  {
    forall v :: 0 <= v < VA_LIMIT ==> Walk(m2, root, v, 3) == Walk(m, root, v, 3)
  }

  /** A table address or NULL. */
  function TableOrNull(o: Option<int>): int
  {
    match o
    case None => 0
    case Some(t) => t
  }

  lemma MapOneAt(m: Memory, m1: Memory, m2: Memory, root: int, q: int, n: nat, pa: int, perm: int, u: int)
    requires Leaf(m1, root, u) ==
      if q <= u / PAGE < q + n && Leaf(m, root, u).Some?
      then Some(NewEntry(pa, perm, u / PAGE - q)) else Leaf(m, root, u)
    requires Leaf(m2, root, u) == if u / PAGE == q + n then Some(NewEntry(pa, perm, n)) else Leaf(m1, root, u)
    requires u / PAGE == q + n ==> Leaf(m, root, u).Some?
    ensures Leaf(m2, root, u) ==
      if q <= u / PAGE < q + (n + 1) && Leaf(m, root, u).Some?
      then Some(NewEntry(pa, perm, u / PAGE - q)) else Leaf(m, root, u)
  {
    hide Leaf, NewEntry;
  }

  /** An address on a page walks as the page's first address does. */
  lemma SamePageLeaf(m: Memory, root: int, u: int, v: int)
    requires 0 <= u < VA_LIMIT && 0 <= v < VA_LIMIT && u / PAGE == v / PAGE
    ensures Leaf(m, root, u) == Leaf(m, root, v)
  {
    SamePath(u, v);
    hide Walk, PageIndex, Prefix;
    WalkSamePath(m, root, u, v, 3);
  }

  lemma RangeExtend(m: Memory, m1: Memory, m2: Memory, root: int, va: int, n: nat, pa: int, perm: int)
    requires MappedRange(m, m1, root, va, n, pa, perm)
    requires 0 <= va && va % PAGE == 0 && va + n * PAGE < VA_LIMIT && Leaf(m, root, va + n * PAGE).Some?
    requires forall v :: 0 <= v < VA_LIMIT ==>
      Leaf(m2, root, v) == if v / PAGE == (va + n * PAGE) / PAGE then Some(NewEntry(pa, perm, n)) else Leaf(m1, root, v)
    ensures MappedRange(m, m2, root, va, n + 1, pa, perm)
  {
    hide Leaf, NewEntry;
    PageOf(va, n);
    forall u | 0 <= u < VA_LIMIT
      ensures Leaf(m2, root, u) ==
        if va / PAGE <= u / PAGE < va / PAGE + (n + 1) && Leaf(m, root, u).Some?
        then Some(NewEntry(pa, perm, u / PAGE - va / PAGE)) else Leaf(m, root, u)
    {
      if u / PAGE == va / PAGE + n {
        SamePageLeaf(m, root, u, va + n * PAGE);
      }
      MapOneAt(m, m1, m2, root, va / PAGE, n, pa, perm, u);
    }
  }

  lemma MapOne(m: Memory, m1: Memory, root: int, lay: Layout, va: int, n: nat, pa: int, perm: int)
    requires MappedRange(m, m1, root, va, n, pa, perm) && WalksKept(m, m1, root) && OnlyLeafTables(m, m1, lay)
    requires Tree(m1, root, lay) && 0 <= va && va % PAGE == 0 && va + n * PAGE < VA_LIMIT
    requires Walk(m1, root, va + n * PAGE, 3).Some?
    requires 0 <= NewEntry(pa, perm, n) < U64
    ensures var v := va + n * PAGE;
            var t := Walk(m1, root, v, 3).value;
            && 0 < t && t + PAGE <= |m1| && 0 <= PageIndex(v, 3) < 512
            && var m2 := WriteWord(m1, t + 8 * PageIndex(v, 3), NewEntry(pa, perm, n));
            && Tree(m2, root, lay) && MappedRange(m, m2, root, va, n + 1, pa, perm)
            && WalksKept(m, m2, root) && OnlyLeafTables(m, m2, lay)
  {
    var v := va + n * PAGE;
    var e := NewEntry(pa, perm, n);
    hide WriteWord, PageIndex, Walk, Leaf, NewEntry, OnlyLeafTables, SameOutside, MappedRange;
    LeafWrite(m1, root, lay, v, e);
    LeafExists(m, m1, root, v);
    var t := Walk(m1, root, v, 3).value;
    assert TablePages(m1, lay);
    hide Tree;
    var m2 := WriteWord(m1, t + 8 * PageIndex(v, 3), e);
    RangeExtend(m, m1, m2, root, va, n, pa, perm);
    LeafTableWrite(m, m1, m2, lay, t);
  }

  lemma LeafTableWrite(m: Memory, m1: Memory, m2: Memory, lay: Layout, t: int)
    requires OnlyLeafTables(m, m1, lay) && t in lay && lay[t].0 == 3 && SameOutside(m1, m2, t, t + PAGE)
    ensures OnlyLeafTables(m, m2, lay)
  {
    forall a | 0 <= a < |m| && !InLeafTable(lay, a)
      ensures m2[a] == m[a]
    {
      assert !(t <= a < t + PAGE);
    }
  }

  lemma MapSkip(m: Memory, m1: Memory, root: int, va: int, n: nat, pa: int, perm: int)
    requires MappedRange(m, m1, root, va, n, pa, perm) && WalksKept(m, m1, root)
    requires 0 <= va && va % PAGE == 0 && va + n * PAGE < VA_LIMIT
    requires Walk(m1, root, va + n * PAGE, 3).None?
    ensures MappedRange(m, m1, root, va, n + 1, pa, perm)
  {
    var v := va + n * PAGE;
    PageOf(va, n);
    hide Walk, NewEntry;
    LeafExists(m, m1, root, v);
    hide Leaf;
    forall u | 0 <= u < VA_LIMIT && u / PAGE == v / PAGE
      ensures Leaf(m, root, u).None?
    {
      SamePageLeaf(m, root, u, v);
    }
  }

  lemma PageOf(va: int, n: nat)
    requires va % PAGE == 0
    ensures (va + n * PAGE) / PAGE == va / PAGE + n
  {
  }

  lemma LeafExists(m: Memory, m1: Memory, root: int, v: int)
    requires WalksKept(m, m1, root) && 0 <= v < VA_LIMIT
    ensures Leaf(m, root, v).Some? <==> Walk(m1, root, v, 3).Some?
  {
    hide Walk;
  }

  class PhysicalMemory {
    var mem: Memory

    constructor (m: Memory)
      ensures mem == m
    {
      mem := m;
    }

    /** memset. */
    method Fill(p: int, c: Byte, n: int)
      requires 0 <= p && 0 <= n && p + n <= |mem|
      modifies this`mem
      ensures SameOutside(old(mem), mem, p, p + n) && Filled(mem, p, p + n, c)
    {
      var i := p;
      while i < p + n
        invariant p <= i <= p + n && SameOutside(old(mem), mem, p, p + n) && Filled(mem, p, i, c)
      {
        mem := mem[i := c];
        i := i + 1;
      }
    }

    /** memcpy to physical address a; what lies outside memory is lost. */
    method Copy(a: int, bs: seq<Byte>)
      modifies this`mem
      ensures mem == Splice(old(mem), a, bs)
    {
      var i := 0;
      while i < |bs|
        invariant 0 <= i <= |bs| && mem == Splice(old(mem), a, bs[..i])
      {
        if 0 <= a + i < |mem| {
          mem := mem[a + i := bs[i]];
        }
        i := i + 1;
      }
      assert bs[..i] == bs;
    }

    /** The leaf table for va, NULL when a level is missing. */
    method LookupL4PageTable(root: int, va: int, perm: int, ghost lay: Layout) returns (pt: int)
      requires Tree(mem, root, lay) && 0 <= va < VA_LIMIT && |mem| == MEMSIZE_PHYSICAL
      ensures pt == TableOrNull(Walk(mem, root, va, 3))
      ensures pt == 0 <==> Walk(mem, root, va, 3).None?
    {
      pt := root;
      var i := 0;
      while i <= 2
        invariant 0 <= i <= 3 && Walk(mem, root, va, i) == Some(pt)
      {
        var pe := Entry(mem, pt, PageIndex(va, i));
        WalkLayout(mem, root, lay, va, i);
        PrefixStep(va, i);
        if !Present(pe) {
          WalkStops(mem, root, va, i, 3);
          return 0;
        }
        assert PteAddr(pe) < MEMSIZE_PHYSICAL;
        assert Writable(perm) ==> Writable(pe);
        assert User(perm) ==> User(pe);
        pt := PteAddr(pe);
        i := i + 1;
      }
      WalkLayout(mem, root, lay, va, 3);
    }

    /** Map [va, va + sz) to pa onward with perm. 0 means every page was handled; -1
        that the page after the first `done` has no leaf table. */
    method VirtualMemoryMap(root: int, va0: int, pa0: int, sz0: int, perm: int, ghost lay: Layout)
      returns (r: int, ghost done: int)
      requires Tree(mem, root, lay) && |mem| == MEMSIZE_PHYSICAL
      requires 0 <= va0 && 0 <= sz0 && va0 % PAGE == 0 && sz0 % PAGE == 0 && va0 + sz0 <= VA_LIMIT
      requires Present(perm) ==> 0 <= pa0 && pa0 % PAGE == 0 && pa0 + sz0 <= MEMSIZE_PHYSICAL
      requires 0 <= perm < PAGE
      modifies this`mem
      ensures Tree(mem, root, lay) && |mem| == MEMSIZE_PHYSICAL
      ensures MappedRange(old(mem), mem, root, va0, done, pa0, perm)
      ensures WalksKept(old(mem), mem, root) && OnlyLeafTables(old(mem), mem, lay)
      ensures r == 0 ==> done == sz0 / PAGE
      ensures r == 0 && Present(perm) ==> forall k :: 0 <= k < done ==> Leaf(old(mem), root, va0 + k * PAGE).Some?
      ensures r != 0 ==> r == -1 && Present(perm) && 0 <= done < sz0 / PAGE
                         && Leaf(old(mem), root, va0 + done * PAGE).None?
    {
      hide Tree, Walk, PageIndex, MappedRange, WalksKept, OnlyLeafTables, WriteWord, TablePages;
      var va, pa, sz := va0, pa0, sz0;
      var lastIndex := -1;
      var l4 := 0;
      done := 0;
      RangeEmpty(mem, root, va0, pa0, perm, lay);
      while sz != 0
        invariant 0 <= done && va == va0 + done * PAGE && pa == pa0 + done * PAGE && sz == sz0 - done * PAGE && 0 <= sz
        invariant Tree(mem, root, lay) && |mem| == MEMSIZE_PHYSICAL
        invariant MappedRange(old(mem), mem, root, va0, done, pa0, perm)
        invariant WalksKept(old(mem), mem, root) && OnlyLeafTables(old(mem), mem, lay)
        invariant lastIndex == -1 ||
                  (0 < done && lastIndex == Prefix(va - PAGE, 3) &&
                   l4 == TableOrNull(Walk(old(mem), root, va - PAGE, 3)))
        invariant Present(perm) ==> forall k :: 0 <= k < done ==> Leaf(old(mem), root, va0 + k * PAGE).Some?
        decreases sz
      {
        var curIndex := va / Span(2);
        SameWalk(old(mem), mem, root, va);
        if curIndex != lastIndex {
          l4 := LookupL4PageTable(root, va, perm, lay);
          lastIndex := curIndex;
        } else {
          WalkSamePath(old(mem), root, va - PAGE, va, 3);
        }
        NullIsNone(mem, root, lay, va, l4);
        if l4 != 0 {
          EntryFits(pa0, perm, done, sz0);
          MapOne(old(mem), mem, root, lay, va0, done, pa0, perm);
          if Present(perm) {
            mem := WriteWord(mem, l4 + 8 * PageIndex(va, 3), pa + perm);
          } else {
            mem := WriteWord(mem, l4 + 8 * PageIndex(va, 3), perm);
          }
        } else if Present(perm) {
          return -1, done;
        } else {
          MapSkip(old(mem), mem, root, va0, done, pa0, perm);
        }
        va, pa, sz := va + PAGE, pa + PAGE, sz - PAGE;
        done := done + 1;
      }
      return 0, done;
    }

    /** The translation of va: page number, physical address, flags. */
    method VirtualMemoryLookup(root: int, va: int) returns (r: Mapping)
      requires 0 <= va < U64
      ensures r == Lookup(mem, root, va) && Answers(mem, root, va, r)
    {
      hide Answers;
      LookupAnswers(mem, root, va);
      var pt := root;
      var pe := 7;
      var i := 0;
      while i <= 3 && Present(pe)
        invariant 0 <= i <= 4 && Follow(mem, pt, pe, va, i) == Follow(mem, root, 7, va, 0)
        decreases 4 - i
      {
        pe := Mask(Entry(mem, pt, PageIndex(va, i)), pe);
        pt := PteAddr(pe);
        i := i + 1;
      }
      r := MappingOf(pe, va);
    }
  }

  lemma {:induction false} WalkStops(m: Memory, root: int, va: int, i: nat, level: nat)
    requires i < level <= 3 && Walk(m, root, va, i + 1).None?
    ensures Walk(m, root, va, level).None?
  {
    if i + 1 < level {
      WalkStops(m, root, va, i, level - 1);
    }
  }

  lemma RangeEmpty(m: Memory, root: int, va: int, pa: int, perm: int, lay: Layout)
    ensures MappedRange(m, m, root, va, 0, pa, perm) && WalksKept(m, m, root) && OnlyLeafTables(m, m, lay)
  {
  }

  lemma SameWalk(m: Memory, m2: Memory, root: int, va: int)
    requires WalksKept(m, m2, root) && 0 <= va < VA_LIMIT
    ensures Walk(m2, root, va, 3) == Walk(m, root, va, 3)
    ensures Leaf(m2, root, va).None? <==> Leaf(m, root, va).None?
  {
    hide Walk;
  }

  lemma NullIsNone(m: Memory, root: int, lay: Layout, va: int, pt: int)
    requires Tree(m, root, lay) && 0 <= va < VA_LIMIT && pt == TableOrNull(Walk(m, root, va, 3))
    ensures if pt == 0 then Walk(m, root, va, 3).None? else Walk(m, root, va, 3) == Some(pt)
    ensures Leaf(m, root, va).None? <==> pt == 0
    ensures 0 <= PageIndex(va, 3) < 512
  {
    WalkLayout(m, root, lay, va, 3);
    PrefixStep(va, 3);
    hide Walk;
  }

  lemma EntryFits(pa: int, perm: int, n: int, sz: int)
    requires 0 <= n && n * PAGE < sz && 0 <= perm < PAGE
    requires Present(perm) ==> 0 <= pa && pa + sz <= MEMSIZE_PHYSICAL
    ensures 0 <= NewEntry(pa, perm, n) < U64
  {
  }
}
