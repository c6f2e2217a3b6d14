/** The abstract state of the user-space heap allocator: the two block lists,
    and the tiling invariant of the region between heap base and break. */
module Blocks {
  import opened Words

  const HEADER := 32

  /** A heap block: header address, total bytes including the header, and the
      bytes the caller asked for (0 exactly for a free block). */
  datatype Block = Block(addr: int, size: int, req: int) {
    function End(): int { addr + size }
    function Payload(): int { addr + HEADER }
    predicate Holds(a: int) { addr <= a < addr + size }
  }

  datatype State = State(free: seq<Block>, alloc: seq<Block>, base: int, brk: int)

  predicate Apart(x: Block, y: Block)
  {
    x.End() <= y.addr || y.End() <= x.addr
  }

  predicate WellShaped(x: Block, base: int, brk: int)
  {
    && base <= x.addr && x.End() <= brk
    && x.addr % 8 == 0 && x.size % 8 == 0 && HEADER <= x.size
    && 0 <= x.req && HEADER + x.req <= x.size
  }

  /** Some block of m holds the byte at a. */
  ghost predicate Covered(m: multiset<Block>, a: int)
  {
    exists x :: x in m && x.Holds(a)
  }

  /** The blocks of m are pairwise disjoint and together fill exactly [base, brk). */
  ghost predicate Tiles(m: multiset<Block>, base: int, brk: int)
  {
    && (forall x :: x in m ==> WellShaped(x, base, brk))
    && (forall x :: x in m ==> m[x] == 1)
    && (forall x, y :: x in m && y in m && x != y ==> Apart(x, y))
    && (forall a :: base <= a < brk ==> Covered(m, a))
  }

  ghost predicate Ascending(s: seq<Block>)
  {
    forall i, j :: 0 <= i < j < |s| ==> s[i].End() <= s[j].addr
  }

  ghost predicate ByRequest(s: seq<Block>)
  {
    forall i, j :: 0 <= i < j < |s| ==> s[i].req >= s[j].req
  }

  /** The blocks of both lists and the loose ones: blocks an operation has
      unlinked, or just created, and not linked yet. */
  ghost function All(s: State, loose: multiset<Block>): multiset<Block>
  {
    multiset(s.free) + multiset(s.alloc) + loose
  }

  ghost predicate InvWith(s: State, loose: multiset<Block>)
  {
    && 0 < s.base <= s.brk < MEMSIZE_VIRTUAL - PAGE
    && s.base % 8 == 0 && s.brk % 8 == 0
    && Tiles(All(s, loose), s.base, s.brk)
    && Ascending(s.free) && ByRequest(s.alloc)
    && (forall x :: x in s.free ==> x.req == 0)
    && (forall x :: x in s.alloc ==> 0 < x.req)
  }

  /** The invariant between operations. */
  ghost predicate Inv(s: State)
  {
    InvWith(s, multiset{})
  }

  // ----- list positions ------------------------------------------------

  function InsertAt(s: seq<Block>, k: nat, b: Block): seq<Block>
    requires k <= |s|
  {
    s[..k] + [b] + s[k..]
  }

  function RemoveAt(s: seq<Block>, k: nat): seq<Block>
    requires k < |s|
  {
    s[..k] + s[k + 1..]
  }

  /** Where the free list takes b: before the first block at a higher address. */
  function FreePos(s: seq<Block>, b: Block): (k: nat)
    ensures k <= |s|
    ensures forall i :: 0 <= i < k ==> s[i].addr <= b.addr
    ensures k < |s| ==> b.addr < s[k].addr
  {
    if s == [] || b.addr < s[0].addr then 0 else 1 + FreePos(s[1..], b)
  }

  /** Where the allocated list takes b: before the first smaller request, so
      after every equal one. */
  function AllocPos(s: seq<Block>, b: Block): (k: nat)
    ensures k <= |s|
    ensures forall i :: 0 <= i < k ==> s[i].req >= b.req
    ensures k < |s| ==> b.req > s[k].req
  {
    if s == [] || b.req > s[0].req then 0 else 1 + AllocPos(s[1..], b)
  }

  /** First-fit search: the index of the first block of at least n bytes, |s| if none. */
  function FirstFit(s: seq<Block>, n: int): (k: nat)
    ensures k <= |s|
    ensures forall i :: 0 <= i < k ==> s[i].size < n
    ensures k < |s| ==> s[k].size >= n
  {
    if s == [] || s[0].size >= n then 0 else 1 + FirstFit(s[1..], n)
  }

  /** The index of the block whose payload starts at p, |s| if none. */
  function IndexOf(s: seq<Block>, p: int): (k: nat)
    ensures k <= |s|
    ensures forall i :: 0 <= i < k ==> s[i].Payload() != p
    ensures k < |s| ==> s[k].Payload() == p
  {
    if s == [] || s[0].Payload() == p then 0 else 1 + IndexOf(s[1..], p)
  }

  function InsertFree(s: seq<Block>, b: Block): seq<Block>
  {
    InsertAt(s, FreePos(s, b), b)
  }

  function InsertAlloc(s: seq<Block>, b: Block): seq<Block>
  {
    InsertAt(s, AllocPos(s, b), b)
  }

  lemma InsertAtMultiset(s: seq<Block>, k: nat, b: Block)
    requires k <= |s|
    ensures multiset(InsertAt(s, k, b)) == multiset(s) + multiset{b}
  {
    assert s == s[..k] + s[k..];
  }

  lemma RemoveAtMultiset(s: seq<Block>, k: nat)
    requires k < |s|
    ensures multiset(s) == multiset(RemoveAt(s, k)) + multiset{s[k]}
    ensures multiset(RemoveAt(s, k)) == multiset(s) - multiset{s[k]}
  {
    assert s == s[..k] + [s[k]] + s[k + 1..];
  }

  /** Two positions of a list hold different blocks when no block occurs twice. */
  lemma NoRepeats(s: seq<Block>, i: int, j: int)
    requires forall x :: x in s ==> multiset(s)[x] == 1
    requires 0 <= i < j < |s|
    ensures s[i] != s[j]
  {
    RemoveAtMultiset(s, i);
    assert s[j] == RemoveAt(s, i)[j - 1];
    assert s[j] in multiset(RemoveAt(s, i));
    assert multiset(s)[s[i]] == 1;
  }

  // ----- the moves every operation is made of --------------------------

  lemma Regroup(f: multiset<Block>, f2: multiset<Block>, a: multiset<Block>, l: multiset<Block>, b: Block)
    requires f == f2 + multiset{b}
    ensures f2 + a + (l + multiset{b}) == f + a + l
    ensures a + f2 + (l + multiset{b}) == a + f + l
  {
  }

  lemma RemoveKeeps(s: seq<Block>, k: nat)
    requires k < |s|
    ensures Ascending(s) ==> Ascending(RemoveAt(s, k))
    ensures ByRequest(s) ==> ByRequest(RemoveAt(s, k))
    ensures forall x :: x in RemoveAt(s, k) ==> x in s
  {
  }

  lemma UnlinkFree(s: State, k: nat, loose: multiset<Block>)
    requires InvWith(s, loose) && k < |s.free|
    ensures InvWith(s.(free := RemoveAt(s.free, k)), loose + multiset{s.free[k]})
  {
    var f2, b := RemoveAt(s.free, k), s.free[k];
    RemoveAtMultiset(s.free, k);
    RemoveKeeps(s.free, k);
    hide Tiles, RemoveAt, Ascending, ByRequest;
    Regroup(multiset(s.free), multiset(f2), multiset(s.alloc), loose, b);
  }

  lemma UnlinkAlloc(s: State, k: nat, loose: multiset<Block>)
    requires InvWith(s, loose) && k < |s.alloc|
    ensures InvWith(s.(alloc := RemoveAt(s.alloc, k)), loose + multiset{s.alloc[k]})
  {
    var a2, b := RemoveAt(s.alloc, k), s.alloc[k];
    RemoveAtMultiset(s.alloc, k);
    RemoveKeeps(s.alloc, k);
    hide Tiles, RemoveAt, Ascending, ByRequest;
    Regroup(multiset(s.alloc), multiset(a2), multiset(s.free), loose, b);
  }

  /** A loose block is apart from every listed one. */
  lemma LooseApart(s: State, b: Block, loose: multiset<Block>, x: Block)
    requires InvWith(s, loose + multiset{b})
    requires x in s.free || x in s.alloc
    ensures Apart(x, b)
  {
    var m := All(s, loose + multiset{b});
    assert x in m && b in m;
    assert x == b ==> m[b] >= 2;
  }

  lemma InsertAtMembers(s: seq<Block>, k: nat, b: Block)
    requires k <= |s|
    ensures forall x :: x in InsertAt(s, k, b) <==> x in s || x == b
  {
    assert forall x :: x in s <==> x in s[..k] || x in s[k..] by {
      assert s == s[..k] + s[k..];
    }
  }

  lemma InsertFreeKeeps(s: seq<Block>, b: Block)
    requires Ascending(s) && 0 < b.size
    requires forall i :: 0 <= i < |s| ==> 0 < s[i].size && Apart(s[i], b)
    ensures Ascending(InsertFree(s, b))
  {
    var k := FreePos(s, b);
    var r := InsertFree(s, b);
    forall i, j | 0 <= i < j < |r|
      ensures r[i].End() <= r[j].addr
    {
      if i == k {
        assert r[j] == s[j - 1];
        assert k < j - 1 ==> s[k].End() <= s[j - 1].addr;
      } else if j == k {
        assert r[i] == s[i];
      }
    }
  }

  lemma InsertAllocKeeps(s: seq<Block>, b: Block)
    requires ByRequest(s)
    ensures ByRequest(InsertAlloc(s, b))
  {
  }

  lemma AmongFree(s: State, b: Block, loose: multiset<Block>)
    requires InvWith(s, loose + multiset{b})
    ensures 0 < b.size && forall i :: 0 <= i < |s.free| ==> 0 < s.free[i].size && Apart(s.free[i], b)
  {
    var m := All(s, loose + multiset{b});
    assert b in m;
    forall i | 0 <= i < |s.free|
      ensures 0 < s.free[i].size && Apart(s.free[i], b)
    {
      assert s.free[i] in m;
      LooseApart(s, b, loose, s.free[i]);
    }
  }

  lemma LinkFree(s: State, b: Block, loose: multiset<Block>)
    requires InvWith(s, loose + multiset{b}) && b.req == 0
    ensures InvWith(s.(free := InsertFree(s.free, b)), loose)
  {
    InsertAtMultiset(s.free, FreePos(s.free, b), b);
    AmongFree(s, b, loose);
    hide Tiles, InsertAt;
    InsertFreeKeeps(s.free, b);
    InsertAtMembers(s.free, FreePos(s.free, b), b);
    hide Ascending, ByRequest, FreePos;
    Regroup(multiset(InsertFree(s.free, b)), multiset(s.free), multiset(s.alloc), loose, b);
  }

  lemma LinkAlloc(s: State, b: Block, loose: multiset<Block>)
    requires InvWith(s, loose + multiset{b}) && 0 < b.req
    ensures InvWith(s.(alloc := InsertAlloc(s.alloc, b)), loose)
  {
    InsertAtMultiset(s.alloc, AllocPos(s.alloc, b), b);
    InsertAllocKeeps(s.alloc, b);
    InsertAtMembers(s.alloc, AllocPos(s.alloc, b), b);
    hide Tiles, InsertAlloc, Ascending, ByRequest;
    Regroup(multiset(InsertAlloc(s.alloc, b)), multiset(s.alloc), multiset(s.free), loose, b);
  }

  /** A block of a tiling that lies outside a tiled part of it stays clear of that part. */
  lemma ClearOf(m: multiset<Block>, outs: multiset<Block>, lo: int, hi: int, base: int, brk: int, z: Block)
    requires Tiles(m, base, brk) && outs <= m && Tiles(outs, lo, hi) && lo < hi
    requires z in m - outs
    ensures z.End() <= lo || hi <= z.addr
  {
    var a := if z.addr < lo then lo else z.addr;
    if a < hi {
      assert Covered(outs, a);
      var o :| o in outs && o.Holds(a);
      assert o in m && z in m;
      assert o == z ==> m[z] >= 2;
    }
  }

  /** Replacing some blocks by others that fill the same bytes keeps the tiling. */
  lemma Retile(m: multiset<Block>, outs: multiset<Block>, ins: multiset<Block>, lo: int, hi: int,
               base: int, brk: int)
    requires Tiles(m, base, brk) && outs <= m && lo < hi
    requires Tiles(outs, lo, hi) && Tiles(ins, lo, hi) && base <= lo && hi <= brk
    ensures Tiles(m - outs + ins, base, brk)
  {
    var m2 := m - outs + ins;
    forall z | z in m - outs
      ensures z in m && z !in ins && (z.End() <= lo || hi <= z.addr)
    {
      ClearOf(m, outs, lo, hi, base, brk, z);
    }
    forall a | base <= a < brk
      ensures Covered(m2, a)
    {
      assert Covered(m, a);
      var x :| x in m && x.Holds(a);
      if x in outs {
        assert Covered(ins, a);
        var z :| z in ins && z.Holds(a);
        assert z in m2;
      } else {
        assert x in m2;
      }
    }
  }

  /** A block on its own tiles its own bytes. */
  lemma TilesOne(b: Block)
    requires WellShaped(b, b.addr, b.End())
    ensures Tiles(multiset{b}, b.addr, b.End())
  {
    assert b in multiset{b};
    forall a | b.addr <= a < b.End()
      ensures Covered(multiset{b}, a)
    {
      assert b.Holds(a);
    }
  }

  lemma TilesTwo(x: Block, y: Block)
    requires WellShaped(x, x.addr, x.End()) && WellShaped(y, y.addr, y.End()) && x.End() == y.addr
    ensures Tiles(multiset{x, y}, x.addr, y.End())
  {
    var m := multiset{x, y};
    assert x in m && y in m;
    forall a | x.addr <= a < y.End()
      ensures Covered(m, a)
    {
      assert x.Holds(a) || y.Holds(a);
    }
  }

  /** Loose blocks may be replaced by others that fill the same bytes. */
  lemma Reshape(s: State, outs: multiset<Block>, ins: multiset<Block>, lo: int, hi: int, loose: multiset<Block>)
    requires InvWith(s, loose + outs) && s.base <= lo < hi <= s.brk
    requires Tiles(outs, lo, hi) && Tiles(ins, lo, hi)
    ensures InvWith(s, loose + ins)
  {
    var m := All(s, loose + outs);
    Retile(m, outs, ins, lo, hi, s.base, s.brk);
    hide Tiles;
    assert m - outs + ins == All(s, loose + ins);
  }

  /** A block above all others extends the tiling. */
  lemma TilesExtend(m: multiset<Block>, c: Block, base: int, brk: int)
    requires Tiles(m, base, brk) && base <= brk
    requires c.addr == brk && WellShaped(c, base, c.End())
    ensures Tiles(m + multiset{c}, base, c.End())
  {
    var m2 := m + multiset{c};
    assert c !in m && c in m2;
    forall a | base <= a < c.End()
      ensures Covered(m2, a)
    {
      if a < brk {
        assert Covered(m, a);
        var x :| x in m && x.Holds(a);
        assert x in m2;
      } else {
        assert c.Holds(a);
      }
    }
  }

  /** Raising the break adds one loose block above everything. */
  lemma Extend(s: State, c: Block)
    requires Inv(s) && c.addr == s.brk && c.req == 0
    requires HEADER <= c.size && c.size % 8 == 0 && c.End() < MEMSIZE_VIRTUAL - PAGE
    ensures InvWith(s.(brk := c.End()), multiset{c})
  {
    TilesExtend(All(s, multiset{}), c, s.base, s.brk);
    hide Tiles;
    assert All(s.(brk := c.End()), multiset{c}) == All(s, multiset{}) + multiset{c};
  }
}
