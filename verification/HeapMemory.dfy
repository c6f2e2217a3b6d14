/** The two block lists as they lie in memory: every block starts with a 32-byte
    header holding its size, its request and the two links. */
module HeapMemory {
  import opened Words
  import opened Blocks

  datatype Header = Header(size: int, req: int, prev: int, next: int)

  function Hdr(m: Memory, a: int): Header
  {
    Header(ReadWord(m, a), ReadWord(m, a + 8), ReadWord(m, a + 16), ReadWord(m, a + 24))
  }

  /** The address of block i of s, NULL off either end. */
  function Link(s: seq<Block>, i: int): int
  {
    if 0 <= i < |s| then s[i].addr else 0
  }

  /** The header h describes block i of list s; a free block's request field is stale. */
  ghost predicate Describes(h: Header, s: seq<Block>, i: int)
    requires 0 <= i < |s|
  {
    && h.size == s[i].size
    && (s[i].req != 0 ==> h.req == s[i].req)
    && h.prev == Link(s, i - 1) && h.next == Link(s, i + 1)
  }

  ghost predicate Linked(m: Memory, s: seq<Block>)
  {
    forall i :: 0 <= i < |s| ==> Describes(Hdr(m, s[i].addr), s, i)
  }

  /** The list s is what head, tail, count and the links in memory spell out. */
  ghost predicate ListRep(m: Memory, s: seq<Block>, head: int, tail: int, count: int)
  {
    Linked(m, s) && head == Link(s, 0) && tail == Link(s, |s| - 1) && count == |s|
  }

  /** Headers at a and b do not overlap. */
  predicate Away(a: int, b: int)
  {
    a + HEADER <= b || b + HEADER <= a
  }

  predicate Node(x: Block)
  {
    0 < x.addr && HEADER <= x.size && x.End() <= MEMSIZE_VIRTUAL
  }

  /** No two blocks of s overlap. */
  ghost predicate Spread(s: seq<Block>)
  {
    && (forall i :: 0 <= i < |s| ==> Node(s[i]))
    && (forall i, j :: 0 <= i < j < |s| ==> Apart(s[i], s[j]))
  }

  /** b overlaps no block of s. */
  ghost predicate ApartFrom(b: Block, s: seq<Block>)
  {
    forall i :: 0 <= i < |s| ==> Apart(s[i], b)
  }

  ghost predicate ApartLists(s: seq<Block>, t: seq<Block>)
  {
    forall i, j :: 0 <= i < |s| && 0 <= j < |t| ==> Apart(s[i], t[j])
  }

  // ----- what one field write does ---------------------------------------

  /** m2 is m with the header at a replaced by h, and no other byte changed. */
  ghost predicate HeaderSet(m: Memory, m2: Memory, a: int, h: Header)
  {
    && SameOutside(m, m2, a, a + HEADER)
    && Hdr(m2, a) == h
    && forall b :: Away(a, b) ==> Hdr(m2, b) == Hdr(m, b)
  }

  lemma HeaderElsewhere(m: Memory, m2: Memory, a: int, b: int)
    requires SameOutside(m, m2, a, a + HEADER) && Away(a, b)
    ensures Hdr(m2, b) == Hdr(m, b)
  {
    ReadWordFrame(m, m2, b);
    ReadWordFrame(m, m2, b + 8);
    ReadWordFrame(m, m2, b + 16);
    ReadWordFrame(m, m2, b + 24);
  }

  lemma FieldWrite(m: Memory, a: nat, off: nat, v: nat)
    requires a + HEADER <= |m| && off in {0, 8, 16, 24} && v < U64
    ensures var h := Hdr(m, a);
            HeaderSet(m, WriteWord(m, a + off, v), a,
              if off == 0 then h.(size := v) else if off == 8 then h.(req := v)
              else if off == 16 then h.(prev := v) else h.(next := v))
  {
    var m2 := WriteWord(m, a + off, v);
    WriteWordReads(m, a + off, v);
    hide WriteWord, ReadWord;
    forall b | Away(a, b)
      ensures Hdr(m2, b) == Hdr(m, b)
    {
      HeaderElsewhere(m, m2, a, b);
    }
  }

  // ----- relinking ---------------------------------------------------------

  /** Every header of s as in m, except that block k - 1 points forward to x and
      block k points back to y. */
  ghost predicate Relinked(m: Memory, m2: Memory, s: seq<Block>, k: int, x: int, y: int)
  {
    forall i :: 0 <= i < |s| ==>
      var h := Hdr(m, s[i].addr);
      Hdr(m2, s[i].addr) == if i == k - 1 then h.(next := x) else if i == k then h.(prev := y) else h
  }

  lemma InsertLinked(m: Memory, m2: Memory, s: seq<Block>, k: nat, b: Block)
    requires k <= |s| && Linked(m, s) && Relinked(m, m2, s, k, b.addr, b.addr)
    requires var h := Hdr(m2, b.addr);
             h.size == b.size && (b.req != 0 ==> h.req == b.req) && h.prev == Link(s, k - 1) && h.next == Link(s, k)
    ensures Linked(m2, InsertAt(s, k, b))
  {
    hide Hdr, Describes;
    var r := InsertAt(s, k, b);
    assert |r| == |s| + 1;
    hide InsertAt;
    forall i | 0 <= i < |r|
      ensures Describes(Hdr(m2, r[i].addr), r, i)
    {
      InsertDescribes(m, m2, s, k, b, i);
    }
  }

  lemma InsertDescribes(m: Memory, m2: Memory, s: seq<Block>, k: nat, b: Block, i: nat)
    requires k <= |s| && i <= |s| && Relinked(m, m2, s, k, b.addr, b.addr)
    requires i < k ==> Describes(Hdr(m, s[i].addr), s, i)
    requires k < i ==> Describes(Hdr(m, s[i - 1].addr), s, i - 1)
    requires var h := Hdr(m2, b.addr);
             h.size == b.size && (b.req != 0 ==> h.req == b.req) && h.prev == Link(s, k - 1) && h.next == Link(s, k)
    ensures var r := InsertAt(s, k, b); |r| == |s| + 1 && Describes(Hdr(m2, r[i].addr), r, i)
  {
    hide Hdr;
    var r := InsertAt(s, k, b);
    InsertedLinks(s, k, b, i);
    hide InsertAt, Link;
    if i < k {
      assert Hdr(m2, s[i].addr) == if i == k - 1 then Hdr(m, s[i].addr).(next := b.addr) else Hdr(m, s[i].addr);
    } else if i > k {
      var h := Hdr(m, s[i - 1].addr);
      assert Hdr(m2, s[i - 1].addr) == if i == k + 1 then h.(prev := b.addr) else h;
    }
  }

  /** The blocks around position i after an insertion. */
  lemma InsertedLinks(s: seq<Block>, k: nat, b: Block, i: nat)
    requires k <= |s| && i <= |s|
    ensures var r := InsertAt(s, k, b);
            && |r| == |s| + 1 && r[i] == (if i < k then s[i] else if i == k then b else s[i - 1])
            && Link(r, i - 1) == (if i <= k then Link(s, i - 1) else if i == k + 1 then b.addr else Link(s, i - 2))
            && Link(r, i + 1) == (if i + 1 < k then Link(s, i + 1) else if i + 1 == k then b.addr else Link(s, i))
  {
  }

  /** As Relinked, around the block k that is leaving. */
  ghost predicate Bypassed(m: Memory, m2: Memory, s: seq<Block>, k: int)
  {
    forall i :: 0 <= i < |s| && i != k ==>
      var h := Hdr(m, s[i].addr);
      Hdr(m2, s[i].addr) ==
        if i == k - 1 then h.(next := Link(s, k + 1)) else if i == k + 1 then h.(prev := Link(s, k - 1)) else h
  }

  lemma RemoveLinked(m: Memory, m2: Memory, s: seq<Block>, k: nat)
    requires k < |s| && Linked(m, s) && Bypassed(m, m2, s, k)
    ensures Linked(m2, RemoveAt(s, k))
  {
    hide Hdr, Describes;
    var r := RemoveAt(s, k);
    assert |r| == |s| - 1;
    hide RemoveAt;
    forall i | 0 <= i < |r|
      ensures Describes(Hdr(m2, r[i].addr), r, i)
    {
      var j := if i < k then i else i + 1;
      assert Describes(Hdr(m, s[j].addr), s, j);
      RemoveDescribes(m, m2, s, k, i);
    }
  }

  lemma RemoveDescribes(m: Memory, m2: Memory, s: seq<Block>, k: nat, i: nat)
    requires k < |s| && i < |s| - 1 && Bypassed(m, m2, s, k)
    requires var j := if i < k then i else i + 1; Describes(Hdr(m, s[j].addr), s, j)
    ensures var r := RemoveAt(s, k); |r| == |s| - 1 && Describes(Hdr(m2, r[i].addr), r, i)
  {
    hide Hdr;
    RemainingLinks(s, k, i);
    hide RemoveAt, Link;
    var j := if i < k then i else i + 1;
    assert Hdr(m2, s[j].addr) ==
           if j == k - 1 then Hdr(m, s[j].addr).(next := Link(s, k + 1))
           else if j == k + 1 then Hdr(m, s[j].addr).(prev := Link(s, k - 1)) else Hdr(m, s[j].addr);
  }

  /** The blocks around position i after a removal. */
  lemma RemainingLinks(s: seq<Block>, k: nat, i: nat)
    requires k < |s| && i < |s| - 1
    ensures var r := RemoveAt(s, k);
            && |r| == |s| - 1 && r[i] == s[if i < k then i else i + 1]
            && Link(r, i - 1) == Link(s, if i <= k then i - 1 else i)
            && Link(r, i + 1) == Link(s, if i + 1 < k then i + 1 else i + 2)
  {
  }

  // ----- what a list operation may write --------------------------------------

  /** The byte at a belongs to a header of s. */
  ghost predicate InHeader(s: seq<Block>, a: int)
  {
    exists i :: 0 <= i < |s| && s[i].addr <= a < s[i].Payload()
  }

  /** Between m and m2 only header bytes of blocks of s change. */
  ghost predicate OnlyHeaders(m: Memory, m2: Memory, s: seq<Block>)
  {
    |m| == |m2| && forall a :: 0 <= a < |m| && !InHeader(s, a) ==> m2[a] == m[a]
  }

  lemma OneHeader(m: Memory, m2: Memory, s: seq<Block>, k: int)
    requires 0 <= k < |s| && SameOutside(m, m2, s[k].addr, s[k].Payload())
    ensures OnlyHeaders(m, m2, s)
  {
    forall a | 0 <= a < |m| && !InHeader(s, a)
      ensures m2[a] == m[a]
    {
      assert !(s[k].addr <= a < s[k].Payload());
    }
  }

  /** The payload bytes of the block z are the same in both memories. */
  ghost predicate SamePayload(m: Memory, m2: Memory, z: Block)
  {
    SameBytes(m, m2, z.Payload(), z.End())
  }

  /** No payload byte of a block of s differs between the memories. */
  ghost predicate PayloadsKept(m: Memory, m2: Memory, s: seq<Block>)
  {
    forall z :: z in s ==> SamePayload(m, m2, z)
  }

  lemma PayloadMissesHeader(s: seq<Block>, i: int, z: Block)
    requires Spread(s) && 0 <= i < |s| && (z in s || ApartFrom(z, s))
    ensures s[i].Payload() <= z.Payload() || z.End() <= s[i].addr
  {
    if z in s {
      var j :| 0 <= j < |s| && s[j] == z;
      assert i < j ==> Apart(s[i], s[j]);
      assert j < i ==> Apart(s[j], s[i]);
    }
  }

  /** Header writes into s miss the payload of any block of s or apart from all of s. */
  lemma HeadersMissPayload(m: Memory, m2: Memory, s: seq<Block>, z: Block)
    requires OnlyHeaders(m, m2, s) && Spread(s)
    requires z in s || ApartFrom(z, s)
    ensures SamePayload(m, m2, z)
  {
    forall a | 0 <= a < |m| && z.Payload() <= a < z.End()
      ensures m2[a] == m[a]
    {
      forall i | 0 <= i < |s|
        ensures !(s[i].addr <= a < s[i].Payload())
      {
        PayloadMissesHeader(s, i, z);
      }
      assert !InHeader(s, a);
    }
  }

  lemma HeadersMissPayloads(m: Memory, m2: Memory, s: seq<Block>, t: seq<Block>)
    requires OnlyHeaders(m, m2, s) && Spread(s) && (t == s || ApartLists(s, t))
    ensures PayloadsKept(m, m2, t)
  {
    forall z | z in t
      ensures SamePayload(m, m2, z)
    {
      HeadersMissPayload(m, m2, s, z);
    }
  }

  /** A list whose headers lie apart from everything written keeps its links. */
  lemma LinkedElsewhere(m: Memory, m2: Memory, t: seq<Block>)
    requires Linked(m, t)
    requires forall j :: 0 <= j < |t| ==> Hdr(m2, t[j].addr) == Hdr(m, t[j].addr)
    ensures Linked(m2, t)
  {
    hide Hdr;
  }

  // ----- from the tiling invariant ------------------------------------------

  lemma AllocDistinct(s: State, loose: multiset<Block>, i: int, j: int)
    requires InvWith(s, loose) && 0 <= i < j < |s.alloc|
    ensures Apart(s.alloc[i], s.alloc[j])
  {
    var m := All(s, loose);
    assert s.alloc[i] in m && s.alloc[j] in m;
    forall x | x in s.alloc
      ensures multiset(s.alloc)[x] == 1
    {
      assert x in m && multiset(s.alloc)[x] <= m[x];
    }
    NoRepeats(s.alloc, i, j);
  }

  lemma Layout(s: State, loose: multiset<Block>)
    requires InvWith(s, loose)
    ensures Spread(s.free) && Spread(s.alloc) && ApartLists(s.free, s.alloc) && ApartLists(s.alloc, s.free)
  {
    hide InvWith, Apart, Node;
    forall i | 0 <= i < |s.free|
      ensures Node(s.free[i])
    {
      NodeListed(s, loose, s.free[i]);
    }
    forall i | 0 <= i < |s.alloc|
      ensures Node(s.alloc[i])
    {
      NodeListed(s, loose, s.alloc[i]);
    }
    forall i, j | 0 <= i < j < |s.free|
      ensures Apart(s.free[i], s.free[j])
    {
      FreeDistinct(s, loose, i, j);
    }
    forall i, j | 0 <= i < j < |s.alloc|
      ensures Apart(s.alloc[i], s.alloc[j])
    {
      AllocDistinct(s, loose, i, j);
    }
    forall i, j | 0 <= i < |s.free| && 0 <= j < |s.alloc|
      ensures Apart(s.free[i], s.alloc[j]) && Apart(s.alloc[j], s.free[i])
    {
      ListsDistinct(s, loose, i, j);
    }
  }

  lemma NodeListed(s: State, loose: multiset<Block>, x: Block)
    requires InvWith(s, loose) && (x in s.free || x in s.alloc)
    ensures Node(x)
  {
    assert x in All(s, loose);
  }

  lemma FreeDistinct(s: State, loose: multiset<Block>, i: int, j: int)
    requires InvWith(s, loose) && 0 <= i < j < |s.free|
    ensures Apart(s.free[i], s.free[j])
  {
    assert s.free[i] in All(s, loose) && s.free[j] in All(s, loose);
  }

  lemma ListsDistinct(s: State, loose: multiset<Block>, i: int, j: int)
    requires InvWith(s, loose) && 0 <= i < |s.free| && 0 <= j < |s.alloc|
    ensures Apart(s.free[i], s.alloc[j]) && Apart(s.alloc[j], s.free[i])
  {
    assert s.free[i] in All(s, loose) && s.alloc[j] in All(s, loose);
  }

  /** A loose block lies apart from both lists. */
  lemma LooseLayout(s: State, b: Block, loose: multiset<Block>)
    requires InvWith(s, loose + multiset{b})
    ensures Node(b) && ApartFrom(b, s.free) && ApartFrom(b, s.alloc)
  {
    assert b in All(s, loose + multiset{b});
    forall i | 0 <= i < |s.free|
      ensures Apart(s.free[i], b)
    {
      LooseApart(s, b, loose, s.free[i]);
    }
    forall i | 0 <= i < |s.alloc|
      ensures Apart(s.alloc[i], b)
    {
      LooseApart(s, b, loose, s.alloc[i]);
    }
  }

  // ----- writes into a live payload -------------------------------------------

  lemma PayloadWriteSparesHeader(m: Memory, m2: Memory, b: Block, x: Block)
    requires SameOutside(m, m2, b.Payload(), b.End()) && HEADER <= x.size
    requires x == b || Apart(x, b)
    ensures Hdr(m2, x.addr) == Hdr(m, x.addr)
  {
    ReadWordFrame(m, m2, x.addr);
    ReadWordFrame(m, m2, x.addr + 8);
    ReadWordFrame(m, m2, x.addr + 16);
    ReadWordFrame(m, m2, x.addr + 24);
  }

  lemma PayloadWriteSparesList(m: Memory, m2: Memory, b: Block, s: seq<Block>)
    requires SameOutside(m, m2, b.Payload(), b.End()) && Linked(m, s) && Spread(s)
    requires forall i :: 0 <= i < |s| ==> s[i] == b || Apart(s[i], b)
    ensures Linked(m2, s)
  {
    hide Hdr;
    forall i | 0 <= i < |s|
      ensures Hdr(m2, s[i].addr) == Hdr(m, s[i].addr)
    {
      assert Node(s[i]);
      PayloadWriteSparesHeader(m, m2, b, s[i]);
    }
    LinkedElsewhere(m, m2, s);
  }

  lemma ListedApart(s: State, b: Block, x: Block)
    requires Inv(s) && b in s.alloc && (x in s.free || x in s.alloc)
    ensures x == b || Apart(x, b)
  {
    assert b in All(s, multiset{}) && x in All(s, multiset{});
  }

  /** Writing inside one live payload keeps both lists and every other payload. */
  lemma PayloadWrite(s: State, m: Memory, m2: Memory, b: Block)
    requires Inv(s) && b in s.alloc && Linked(m, s.free) && Linked(m, s.alloc)
    requires SameOutside(m, m2, b.Payload(), b.End())
    ensures Linked(m2, s.free) && Linked(m2, s.alloc)
    ensures forall z :: z in s.alloc && z != b ==> SamePayload(m, m2, z)
  {
    Layout(s, multiset{});
    forall x | x in s.free || x in s.alloc
      ensures x == b || Apart(x, b)
    {
      ListedApart(s, b, x);
    }
    OtherPayloads(s, m, m2, b);
    hide InvWith, Linked, Spread, ApartLists, SameOutside, SamePayload;
    PayloadWriteSparesList(m, m2, b, s.free);
    PayloadWriteSparesList(m, m2, b, s.alloc);
  }

  lemma OtherPayloads(s: State, m: Memory, m2: Memory, b: Block)
    requires SameOutside(m, m2, b.Payload(), b.End()) && forall x :: x in s.alloc ==> x == b || Apart(x, b)
    ensures forall z :: z in s.alloc && z != b ==> SamePayload(m, m2, z)
  {
  }

  lemma OthersAway(s: seq<Block>, k: nat)
    requires Spread(s) && k < |s|
    ensures forall i :: 0 <= i < |s| && i != k ==> Away(s[k].addr, s[i].addr) && Away(s[i].addr, s[k].addr)
  {
    forall i | 0 <= i < |s| && i != k
      ensures Away(s[i].addr, s[k].addr)
    {
      assert Node(s[i]) && Node(s[k]);
      assert i < k ==> Apart(s[i], s[k]);
      assert k < i ==> Apart(s[k], s[i]);
    }
  }

  /** Storing another size in block k's header spells out the list with that size. */
  lemma ResizeLinked(m: Memory, m2: Memory, s: seq<Block>, k: nat, size: int)
    requires k < |s| && Linked(m, s) && Spread(s)
    requires HeaderSet(m, m2, s[k].addr, Hdr(m, s[k].addr).(size := size))
    ensures Linked(m2, s[k := s[k].(size := size)])
  {
    OthersAway(s, k);
    hide Hdr, Spread;
    var r := s[k := s[k].(size := size)];
    assert forall i :: 0 <= i < |s| ==> r[i].addr == s[i].addr;
    forall i | 0 <= i < |r|
      ensures Describes(Hdr(m2, r[i].addr), r, i)
    {
      assert Describes(Hdr(m, s[i].addr), s, i);
      assert Link(r, i - 1) == Link(s, i - 1) && Link(r, i + 1) == Link(s, i + 1);
    }
  }
}
