/** Byte-addressed memory with 64-bit little-endian words, as both the heap
    allocator (list headers) and the page tables (entries) store them. */
module Words {

  type Byte = b: int | 0 <= b < 256
  type Memory = seq<Byte>

  const U64 := 0x1_0000_0000_0000_0000
  const PAGE := 4096
  const MEMSIZE_VIRTUAL := 0x300000

  /** C's conversion to a 32-bit int. */
  function AsInt32(x: int): int
  {
    (x + 0x8000_0000) % 0x1_0000_0000 - 0x8000_0000
  }

  /** 256 to the power n: the number of values n bytes can hold. */
  function Pow256(n: nat): nat
  {
    if n == 0 then 1 else 256 * Pow256(n - 1)
  }

  function Encode(v: nat, n: nat): (bs: seq<Byte>)
    ensures |bs| == n
  {
    if n == 0 then [] else [v % 256] + Encode(v / 256, n - 1)
  }

  function Decode(bs: seq<Byte>): nat
  {
    if bs == [] then 0 else bs[0] + 256 * Decode(bs[1..])
  }

  lemma {:induction false} DecodeEncode(v: nat, n: nat)
    requires v < Pow256(n)
    ensures Decode(Encode(v, n)) == v
  {
    if n != 0 {
      DecodeEncode(v / 256, n - 1);
      assert Encode(v, n)[1..] == Encode(v / 256, n - 1);
    }
  }

  lemma Pow256Of8()
    ensures Pow256(8) == U64
  {
    assert Pow256(4) == 0x1_0000_0000;
    assert Pow256(6) == 0x1_0000_0000_0000;
  }

  /** The 64-bit word at address a; 0 when a is not backed by memory. */
  function ReadWord(m: Memory, a: int): nat
  {
    if 0 <= a && a + 8 <= |m| then Decode(m[a..a + 8]) else 0
  }

  function WriteWord(m: Memory, a: nat, v: nat): (r: Memory)
    requires a + 8 <= |m|
    ensures |r| == |m|
  {
    m[..a] + Encode(v, 8) + m[a + 8..]
  }

  /** m and m2 agree on every byte of [lo, hi). */
  ghost predicate SameBytes(m: Memory, m2: Memory, lo: int, hi: int)
  {
    |m| == |m2| && forall i :: 0 <= i < |m| && lo <= i < hi ==> m2[i] == m[i]
  }

  /** m and m2 agree on every byte outside [lo, hi). */
  ghost predicate SameOutside(m: Memory, m2: Memory, lo: int, hi: int)
  {
    |m| == |m2| && forall i :: 0 <= i < |m| && !(lo <= i < hi) ==> m2[i] == m[i]
  }

  lemma ReadWordFrame(m: Memory, m2: Memory, b: int)
    requires SameBytes(m, m2, b, b + 8)
    ensures ReadWord(m2, b) == ReadWord(m, b)
  {
    if 0 <= b && b + 8 <= |m| {
      assert m2[b..b + 8] == m[b..b + 8];
    }
  }

  /** A stored word reads back, and nothing else moves. */
  lemma WriteWordReads(m: Memory, a: nat, v: nat)
    requires a + 8 <= |m| && v < U64
    ensures ReadWord(WriteWord(m, a, v), a) == v
    ensures SameOutside(m, WriteWord(m, a, v), a, a + 8)
    ensures forall b :: b + 8 <= a || a + 8 <= b ==> ReadWord(WriteWord(m, a, v), b) == ReadWord(m, b)
  {
    var r := WriteWord(m, a, v);
    assert r[a..a + 8] == Encode(v, 8);
    Pow256Of8();
    DecodeEncode(v, 8);
    forall b | b + 8 <= a || a + 8 <= b
      ensures ReadWord(r, b) == ReadWord(m, b)
    {
      ReadWordFrame(m, r, b);
    }
  }

  /** The n bytes of m at dst are the n bytes of m0 at src. */
  ghost predicate Copied(m0: Memory, src: int, m: Memory, dst: int, n: int)
  {
    && 0 <= src && src + n <= |m0| && 0 <= dst && dst + n <= |m|
    && forall a :: dst <= a < dst + n ==> m[a] == m0[a - dst + src]
  }

  /** Every byte of [lo, hi) is c. */
  /** m with the bytes bs from address a on; those outside it are lost. */
  function Splice(m: Memory, a: int, bs: seq<Byte>): (m2: Memory)
    ensures SameOutside(m, m2, a, a + |bs|)
  {
    seq(|m|, i requires 0 <= i < |m| => if a <= i < a + |bs| then bs[i - a] else m[i])
  }

  /** Byte by byte. */
  lemma SpliceOne(m: Memory, a: int, bs: seq<Byte>)
    requires bs != [] && 0 <= a < |m|
    ensures Splice(m, a, bs) == Splice(m[a := bs[0]], a + 1, bs[1..])
  {
  }

  lemma SpliceNone(m: Memory, a: int)
    ensures Splice(m, a, []) == m
  {
  }

  ghost predicate Filled(m: Memory, lo: int, hi: int, c: Byte)
  {
    0 <= lo && hi <= |m| && forall a :: lo <= a < hi ==> m[a] == c
  }
}
