/** Four-level page tables in physical memory (Intel SDM Volume 3A, section 4.5):
    index arithmetic, the walk, and the tree shape the operating system builds. */
module PageTables {
  import opened Words

  const MEMSIZE_PHYSICAL := 0x200000
  const VA_LIMIT := 0x1_0000_0000_0000

  const PTE_W := 2
  const PTE_U := 4

  datatype Option<T> = None | Some(value: T)

  /** What lies above the index field of a level: bytes per entry at that level. */
  function Span(level: nat): int
    requires level <= 4
  {
    if level == 0 then 0x80_0000_0000
    else if level == 1 then 0x4000_0000
    else if level == 2 then 0x20_0000
    else if level == 3 then 0x1000
    else 1
  }

  /** The 9-bit index of va at a level. */
  function PageIndex(va: int, level: nat): int
    requires level <= 3
  {
    (va / Span(level)) % 512
  }

  /** The index path of va above a level, read as one number. */
  function Prefix(va: int, level: nat): int
    requires level <= 4
  {
    if level == 0 then 0 else va / Span(level - 1)
  }

  lemma PrefixStep(va: int, level: nat)
    requires 0 <= va < VA_LIMIT && level <= 3
    ensures Prefix(va, level + 1) == Prefix(va, level) * 512 + PageIndex(va, level)
    ensures 0 <= PageIndex(va, level) < 512
  {
  }

  /** The four indices are the base-512 digits of the page number ... */
  lemma IndicesAreDigits(va: int)
    requires 0 <= va < VA_LIMIT
    ensures va / PAGE == ((PageIndex(va, 0) * 512 + PageIndex(va, 1)) * 512 + PageIndex(va, 2)) * 512 + PageIndex(va, 3)
  {
    PrefixStep(va, 0);
    PrefixStep(va, 1);
    PrefixStep(va, 2);
    PrefixStep(va, 3);
  }

  /** ... and every digit string is the path of exactly one page: a bijection on
      36-bit page numbers. */
  lemma IndexBijection(a: int, b: int, c: int, d: int)
    requires 0 <= a < 512 && 0 <= b < 512 && 0 <= c < 512 && 0 <= d < 512
    ensures var va := (((a * 512 + b) * 512 + c) * 512 + d) * PAGE;
            && 0 <= va < VA_LIMIT
            && PageIndex(va, 0) == a && PageIndex(va, 1) == b && PageIndex(va, 2) == c && PageIndex(va, 3) == d
            && forall v :: (0 <= v < VA_LIMIT && PageIndex(v, 0) == a && PageIndex(v, 1) == b
                            && PageIndex(v, 2) == c && PageIndex(v, 3) == d) ==> v / PAGE == va / PAGE
  {
    var va := (((a * 512 + b) * 512 + c) * 512 + d) * PAGE;
    IndicesAreDigits(va);
    forall v | 0 <= v < VA_LIMIT && PageIndex(v, 0) == a && PageIndex(v, 1) == b
               && PageIndex(v, 2) == c && PageIndex(v, 3) == d
      ensures v / PAGE == va / PAGE
    {
      IndicesAreDigits(v);
    }
  }

  // ----- entries ---------------------------------------------------------------

  function PteAddr(e: int): int
  {
    e - e % PAGE
  }

  function PteFlags(e: int): int
  {
    e % PAGE
  }

  predicate Present(e: int)
  {
    e % 2 == 1
  }

  predicate Writable(e: int)
  {
    e / 2 % 2 == 1
  }

  predicate User(e: int)
  {
    e / 4 % 2 == 1
  }

  function Entry(m: Memory, t: int, i: int): nat
  {
    ReadWord(m, t + 8 * i)
  }

  /** The table reached after following `level` indices of va from root. */
  function Walk(m: Memory, root: int, va: int, level: nat): Option<int>
    requires level <= 4
  {
    if level == 0 then Some(root) else
    match Walk(m, root, va, level - 1)
    case None => None
    case Some(t) =>
      var e := Entry(m, t, PageIndex(va, level - 1));
      if Present(e) then Some(PteAddr(e)) else None
  }

  /** The level-4 entry for va, when its table exists: the page map the tables represent. */
  function Leaf(m: Memory, root: int, va: int): Option<int>
  {
    match Walk(m, root, va, 3)
    case None => None
    case Some(t) => Some(Entry(m, t, PageIndex(va, 3)))
  }

  // ----- the tree shape ----------------------------------------------------------

  /** Which table page serves which level and index path. */
  type Layout = map<int, (nat, int)>

  ghost predicate TablePages(m: Memory, lay: Layout)
  {
    forall t :: t in lay ==> t % PAGE == 0 && 0 < t && t + PAGE <= |m| && lay[t].0 <= 3
  }

  /** The tables below root are a tree: each page has one place in it, and every
      nonzero interior entry is present, leads to the page for its path and allows
      W and U. */
  ghost predicate Tree(m: Memory, root: int, lay: Layout)
  {
    && root in lay && lay[root] == (0, 0) && TablePages(m, lay)
    && forall t, i :: t in lay && lay[t].0 < 3 && 0 <= i < 512 && Entry(m, t, i) != 0 ==>
         var e := Entry(m, t, i);
         && Present(e) && Writable(e) && User(e) && PteAddr(e) in lay
         && lay[PteAddr(e)] == (lay[t].0 + 1, lay[t].1 * 512 + i)
  }

  lemma TreeStep(m: Memory, root: int, lay: Layout, t: int, i: int)
    requires Tree(m, root, lay) && t in lay && lay[t].0 < 3 && 0 <= i < 512 && Present(Entry(m, t, i))
    ensures var e := Entry(m, t, i);
            Writable(e) && User(e) && PteAddr(e) in lay && lay[PteAddr(e)] == (lay[t].0 + 1, lay[t].1 * 512 + i)
  {
    assert Entry(m, t, i) != 0;
    hide Entry;
  }

  /** The walk arrives at the page laid out for the path of va. */
  lemma {:induction false} WalkLayout(m: Memory, root: int, lay: Layout, va: int, level: nat)
    requires Tree(m, root, lay) && 0 <= va < VA_LIMIT && level <= 3
    ensures Walk(m, root, va, level).Some? ==>
              var t := Walk(m, root, va, level).value; t in lay && lay[t] == (level, Prefix(va, level))
  {
    if level > 0 {
      WalkLayout(m, root, lay, va, level - 1);
      PrefixStep(va, level - 1);
      hide Tree, Entry, PageIndex, Prefix;
      var w := Walk(m, root, va, level - 1);
      if w.Some? && Present(Entry(m, w.value, PageIndex(va, level - 1))) {
        TreeStep(m, root, lay, w.value, PageIndex(va, level - 1));
      }
    }
  }

  /** Distinct table pages share no entry. */
  lemma EntryFrame(m: Memory, m2: Memory, t: int, i: int)
    requires SameBytes(m, m2, t, t + PAGE) && 0 <= i < 512
    ensures Entry(m2, t, i) == Entry(m, t, i)
  {
    ReadWordFrame(m, m2, t + 8 * i);
  }

  /** Unchanged table pages: the same tree, walks and page map. */
  lemma {:induction false} WalkFrame(m: Memory, m2: Memory, root: int, lay: Layout, va: int, level: nat)
    requires Tree(m, root, lay) && 0 <= va < VA_LIMIT && level <= 3
    requires forall t, i :: t in lay && lay[t].0 < 3 && 0 <= i < 512 ==> Entry(m2, t, i) == Entry(m, t, i)
    ensures Walk(m2, root, va, level) == Walk(m, root, va, level)
  {
    hide Entry, PageIndex, Prefix, PteAddr, Present;
    if level > 0 {
      WalkFrame(m, m2, root, lay, va, level - 1);
      WalkLayout(m, root, lay, va, level - 1);
      PrefixStep(va, level - 1);
      hide Tree;
    }
  }

  lemma TreeFrame(m: Memory, m2: Memory, root: int, lay: Layout)
    requires Tree(m, root, lay) && |m| == |m2|
    requires forall t :: t in lay ==> SameBytes(m, m2, t, t + PAGE)
    ensures Tree(m2, root, lay)
    ensures forall va :: 0 <= va < VA_LIMIT ==> Leaf(m2, root, va) == Leaf(m, root, va)
  {
    forall t, i | t in lay && 0 <= i < 512
      ensures Entry(m2, t, i) == Entry(m, t, i)
    {
      EntryFrame(m, m2, t, i);
    }
    forall va | 0 <= va < VA_LIMIT
      ensures Leaf(m2, root, va) == Leaf(m, root, va)
    {
      WalkFrame(m, m2, root, lay, va, 3);
      WalkLayout(m, root, lay, va, 3);
    }
  }

  // ----- writing one leaf ------------------------------------------------------------

  lemma SamePath(va: int, v: int)
    requires 0 <= va < VA_LIMIT && 0 <= v < VA_LIMIT
    ensures Prefix(va, 3) == Prefix(v, 3) && PageIndex(va, 3) == PageIndex(v, 3) <==> va / PAGE == v / PAGE
  {
    PrefixStep(va, 3);
    PrefixStep(v, 3);
  }

  /** m2 is m with entry i of table t set to e and every other entry of the layout kept. */
  ghost predicate EntrySet(m: Memory, m2: Memory, lay: Layout, t: int, i: int, e: int)
  {
    && |m2| == |m| && Entry(m2, t, i) == e
    && SameOutside(m, m2, t, t + PAGE)
    && forall t2, i2 :: t2 in lay && 0 <= i2 < 512 && !(t2 == t && i2 == i) ==>
         Entry(m2, t2, i2) == Entry(m, t2, i2)
  }

  lemma PagesApart(t: int, u: int)
    requires t % PAGE == 0 && u % PAGE == 0
    ensures t == u || t + PAGE <= u || u + PAGE <= t
  {
  }

  lemma EntryWrite(m: Memory, lay: Layout, t: int, i: int, e: int)
    requires TablePages(m, lay) && t in lay && 0 <= i < 512 && 0 <= e < U64
    ensures EntrySet(m, WriteWord(m, t + 8 * i, e), lay, t, i, e)
  {
    WriteWordReads(m, t + 8 * i, e);
    hide WriteWord, ReadWord;
    var m2 := WriteWord(m, t + 8 * i, e);
    forall t2, i2 | t2 in lay && 0 <= i2 < 512 && !(t2 == t && i2 == i)
      ensures Entry(m2, t2, i2) == Entry(m, t2, i2)
    {
      PagesApart(t, t2);
    }
  }

  /** Addresses with the same index path walk to the same table. */
  lemma {:induction false} WalkSamePath(m: Memory, root: int, va: int, v: int, level: nat)
    requires 0 <= va < VA_LIMIT && 0 <= v < VA_LIMIT && level <= 3 && Prefix(va, level) == Prefix(v, level)
    ensures Walk(m, root, va, level) == Walk(m, root, v, level)
  {
    if level > 0 {
      PrefixStep(va, level - 1);
      PrefixStep(v, level - 1);
      hide PageIndex, Prefix;
      WalkSamePath(m, root, va, v, level - 1);
    }
  }

  lemma LeafAfter(m: Memory, m2: Memory, root: int, lay: Layout, va: int, e: int, v: int)
    requires Tree(m, root, lay) && 0 <= va < VA_LIMIT && 0 <= v < VA_LIMIT && Walk(m, root, va, 3).Some?
    requires EntrySet(m, m2, lay, Walk(m, root, va, 3).value, PageIndex(va, 3), e)
    ensures Walk(m2, root, v, 3) == Walk(m, root, v, 3)
    ensures Leaf(m2, root, v) == if v / PAGE == va / PAGE then Some(e) else Leaf(m, root, v)
  {
    hide Entry, PageIndex, Prefix, SameOutside, Walk, Tree;
    WalkLayout(m, root, lay, va, 3);
    WalkLayout(m, root, lay, v, 3);
    PrefixStep(v, 3);
    SamePath(va, v);
    if Prefix(va, 3) == Prefix(v, 3) {
      WalkSamePath(m, root, va, v, 3);
    }
    WalkFrame(m, m2, root, lay, v, 3);
  }

  lemma TreeAfter(m: Memory, m2: Memory, root: int, lay: Layout, t: int, i: int, e: int)
    requires Tree(m, root, lay) && t in lay && lay[t].0 == 3 && EntrySet(m, m2, lay, t, i, e)
    ensures Tree(m2, root, lay)
  {
    hide Entry, SameOutside;
  }

  /** Storing e in the leaf slot of va changes the page map at the page of va alone. */
  lemma LeafWrite(m: Memory, root: int, lay: Layout, va: int, e: int)
    requires Tree(m, root, lay) && 0 <= va < VA_LIMIT && Walk(m, root, va, 3).Some? && 0 <= e < U64
    ensures var t := Walk(m, root, va, 3).value;
            && t in lay && lay[t].0 == 3 && t + PAGE <= |m| && 0 <= t && 0 <= PageIndex(va, 3) < 512
            && var m2 := WriteWord(m, t + 8 * PageIndex(va, 3), e);
            && Tree(m2, root, lay) && SameOutside(m, m2, t, t + PAGE)
            && (forall v :: 0 <= v < VA_LIMIT ==> Walk(m2, root, v, 3) == Walk(m, root, v, 3))
            && (forall v :: 0 <= v < VA_LIMIT ==>
                  Leaf(m2, root, v) == if v / PAGE == va / PAGE then Some(e) else Leaf(m, root, v))
  {
    WalkLayout(m, root, lay, va, 3);
    PrefixStep(va, 3);
    var t, i := Walk(m, root, va, 3).value, PageIndex(va, 3);
    EntryWrite(m, lay, t, i, e);
    var m2 := WriteWord(m, t + 8 * i, e);
    hide WriteWord, Entry, PageIndex, Walk, Leaf;
    TreeAfter(m, m2, root, lay, t, i, e);
    forall v | 0 <= v < VA_LIMIT
      ensures Walk(m2, root, v, 3) == Walk(m, root, v, 3)
      ensures Leaf(m2, root, v) == if v / PAGE == va / PAGE then Some(e) else Leaf(m, root, v)
    {
      LeafAfter(m, m2, root, lay, va, e, v);
    }
  }
}
