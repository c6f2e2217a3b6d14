/** Numbers as digit strings: what fill_numbuf writes, and why it is the only choice. */
module Numerals {
  import opened Words

  const NUMBUFSIZ := 24

  predicate Base(base: int)
  {
    base == 10 || base == 16 || base == -16
  }

  function Radix(base: int): int
  {
    if base < 0 then -base else base
  }

  /** Division and multiplication by the radix, spelled out for its two values. */
  function Quot(v: nat, base: int): nat
  {
    if Radix(base) == 10 then v / 10 else v / 16
  }

  function Rem(v: nat, base: int): (r: nat)
    ensures r < 16
  {
    if Radix(base) == 10 then v % 10 else v % 16
  }

  function Times(v: int, base: int): int
  {
    if Radix(base) == 10 then v * 10 else v * 16
  }

  lemma QuotRem(v: nat, base: int)
    requires Base(base)
    ensures Times(Quot(v, base), base) + Rem(v, base) == v && Rem(v, base) < Radix(base)
    ensures Quot(v, base) == v / Radix(base) && Rem(v, base) == v % Radix(base)
    ensures v < Radix(base) <==> Quot(v, base) == 0
    ensures 0 < v ==> Quot(v, base) < v
  {
  }

  lemma TimesUnique(q: int, x: int, p: int, y: int, base: int)
    requires Base(base) && Times(q, base) + x == Times(p, base) + y && 0 <= x < Radix(base) && 0 <= y < Radix(base)
    ensures q == p && x == y
  {
  }

  /** The digit character: a negative base asks for lower case. */
  function Digit(d: int, base: int): char
    requires 0 <= d < 16
  {
    if base < 0 then "0123456789abcdef"[d] else "0123456789ABCDEF"[d]
  }

  function DigitValue(c: char): int
  {
    if '0' <= c <= '9' then c as int - '0' as int
    else if 'a' <= c <= 'f' then c as int - 'a' as int + 10
    else if 'A' <= c <= 'F' then c as int - 'A' as int + 10
    else 0
  }

  /** c is a digit of the base, in its case. */
  predicate IsDigit(c: char, base: int)
  {
    || '0' <= c <= '9'
    || (base == 16 && 'A' <= c <= 'F')
    || (base == -16 && 'a' <= c <= 'f')
  }

  lemma DigitRoundTrip(d: int, base: int)
    requires Base(base) && 0 <= d < Radix(base)
    ensures IsDigit(Digit(d, base), base) && DigitValue(Digit(d, base)) == d
  {
    var up, down := "0123456789ABCDEF", "0123456789abcdef";
    assert up[0] == '0' && up[1] == '1' && up[2] == '2' && up[3] == '3' && up[4] == '4' && up[5] == '5' && up[6] == '6';
    assert up[7] == '7' && up[8] == '8' && up[9] == '9' && up[10] == 'A' && up[11] == 'B' && up[12] == 'C';
    assert down[0] == '0' && down[1] == '1' && down[2] == '2' && down[3] == '3' && down[4] == '4' && down[5] == '5';
    assert down[6] == '6' && down[7] == '7' && down[8] == '8' && down[9] == '9' && down[10] == 'a' && down[11] == 'b';
  }

  /** The digits of val, most significant first; one zero for 0. */
  function Numeral(val: nat, base: int): seq<char>
  {
    (if Quot(val, base) == 0 then [] else Numeral(Quot(val, base), base)) + [Digit(Rem(val, base), base)]
  }

  function ValueOf(s: seq<char>, base: int): int
  {
    if s == [] then 0 else Times(ValueOf(s[..|s| - 1], base), base) + DigitValue(s[|s| - 1])
  }

  /** A numeral of the base without leading zeros. */
  ghost predicate Canonical(s: seq<char>, base: int)
  {
    && 0 < |s| && (forall i :: 0 <= i < |s| ==> IsDigit(s[i], base))
    && (1 < |s| ==> s[0] != '0')
  }

  /** The numeral denotes val and has no leading zero. */
  lemma {:induction false} NumeralDenotes(val: nat, base: int)
    requires Base(base)
    ensures ValueOf(Numeral(val, base), base) == val
    ensures Canonical(Numeral(val, base), base)
    ensures val > 0 ==> Numeral(val, base)[0] != '0'
  {
    QuotRem(val, base);
    DigitRoundTrip(Rem(val, base), base);
    var q := Quot(val, base);
    if q != 0 {
      NumeralDenotes(q, base);
      var t := Numeral(q, base);
      assert Numeral(val, base)[..|t|] == t;
    } else {
      assert Numeral(val, base)[..0] == [];
      assert val > 0 ==> Rem(val, base) != 0;
    }
    hide Quot, Rem, Times, Digit, DigitValue;
  }

  /** Digits of one case are determined by their values. */
  lemma DigitUnique(c: char, d: char, base: int)
    requires Base(base) && IsDigit(c, base) && IsDigit(d, base) && DigitValue(c) == DigitValue(d)
    ensures c == d
  {
  }

  lemma {:induction false} ValuePositive(s: seq<char>, base: int)
    requires Base(base) && Canonical(s, base)
    ensures 0 <= ValueOf(s, base)
    ensures s[0] != '0' ==> 0 < ValueOf(s, base)
  {
    if |s| > 1 {
      ValuePositive(s[..|s| - 1], base);
    }
  }

  /** No other digit string without leading zeros denotes the same value. */
  lemma {:induction false} NumeralUnique(s: seq<char>, t: seq<char>, base: int)
    requires Base(base) && Canonical(s, base) && Canonical(t, base) && ValueOf(s, base) == ValueOf(t, base)
    ensures s == t
    decreases |s|
  {
    var r := Radix(base);
    var s0, t0, c, d := s[..|s| - 1], t[..|t| - 1], s[|s| - 1], t[|t| - 1];
    assert 0 <= DigitValue(c) < r && 0 <= DigitValue(d) < r;
    TimesUnique(ValueOf(s0, base), DigitValue(c), ValueOf(t0, base), DigitValue(d), base);
    DigitUnique(c, d, base);
    if s0 == [] || t0 == [] {
      if s0 != [] {
        ValuePositive(s0, base);
      }
      if t0 != [] {
        ValuePositive(t0, base);
      }
    } else {
      NumeralUnique(s0, t0, base);
    }
    assert s == s0 + [c] && t == t0 + [d];
  }

  function Power(base: int, k: nat): int
  {
    if k == 0 then 1 else Times(Power(base, k - 1), base)
  }

  lemma {:induction false} NumeralLength(val: nat, base: int, k: nat)
    requires Base(base) && val < Power(base, k) && 0 < k
    ensures |Numeral(val, base)| <= k
  {
    QuotRem(val, base);
    if Quot(val, base) != 0 {
      assert Power(base, 1) == Times(1, base);
      assert k != 1;
      NumeralLength(Quot(val, base), base, k - 1);
    }
  }

  /** A 64-bit value takes at most 20 digits, so with its terminator at most 21 of 24 bytes. */
  lemma NumeralFits(val: nat, base: int)
    requires Base(base) && val < U64
    ensures |Numeral(val, base)| <= 20
  {
    if base == 10 {
      PowersOf10();
      NumeralLength(val, base, 20);
    } else {
      PowersOf16(base);
      NumeralLength(val, base, 16);
    }
  }

  lemma PowersOf10()
    ensures Power(10, 20) == 1_0000_0000_0000_0000_0000
  {
    assert Power(10, 5) == 10_0000;
    assert Power(10, 10) == 100_0000_0000;
    assert Power(10, 15) == 1000_0000_0000_0000;
  }

  lemma PowersOf16(base: int)
    requires base == 16 || base == -16
    ensures Power(base, 16) == U64
  {
    assert Power(base, 2) == 0x100;
    assert Power(base, 4) == 0x1_0000;
    assert Power(base, 6) == 0x100_0000;
    assert Power(base, 8) == 0x1_0000_0000;
    assert Power(base, 10) == 0x100_0000_0000;
    assert Power(base, 12) == 0x1_0000_0000_0000;
    assert Power(base, 14) == 0x100_0000_0000_0000;
  }

  /** Write val's numeral and a terminator backwards from end; returns where it starts. */
  method FillNumbuf(buf: array<char>, end: nat, val0: nat, base0: int) returns (start: nat)
    requires Base(base0) && val0 < U64 && end == buf.Length == NUMBUFSIZ
    modifies buf
    ensures start < end && end - start <= 21
    ensures buf[start..end] == Numeral(val0, base0) + ['\0']
  {
    hide Quot, Rem, Times, Numeral, Digit, Base;
    var base := base0;
    var digits := "0123456789ABCDEF";
    if base < 0 {
      digits := "0123456789abcdef";
      base := -base;
    }
    NumeralFits(val0, base0);
    var val := val0;
    start := end - 1;
    buf[start] := '\0';
    ghost var tail: seq<char> := [];
    while true
      invariant 0 <= val < U64 && start + |tail| + 1 == end && buf[start..end] == tail + ['\0']
      invariant Numeral(val0, base0) == Numeral(val, base0) + tail && |Numeral(val0, base0)| <= 20
      decreases val
    {
      Turn(val, base0, base, digits);
      NumeralStep(val, base0, tail);
      ghost var before := buf[start..end];
      start := start - 1;
      buf[start] := digits[val % base];
      assert buf[start + 1..end] == before;
      tail := [Digit(Rem(val, base0), base0)] + tail;
      assert buf[start..end] == tail + ['\0'];
      val := val / base;
      if val == 0 {
        break;
      }
    }
  }

  /** The machine's remainder, quotient and digit are the model's. */
  lemma Turn(val: nat, base0: int, base: int, digits: seq<char>)
    requires Base(base0) && base == Radix(base0)
    requires digits == if base0 < 0 then "0123456789abcdef" else "0123456789ABCDEF"
    ensures base != 0 && 0 <= val % base < 16 && val / base == Quot(val, base0) && 0 <= val / base
    ensures digits[val % base] == Digit(Rem(val, base0), base0)
    ensures 0 < val ==> val / base < val
  {
    QuotRem(val, base0);
  }

  /** One turn: the last digit of what is left joins the tail. */
  lemma NumeralStep(val: nat, base: int, tail: seq<char>)
    requires Base(base)
    ensures var q := Quot(val, base);
            Numeral(val, base) + tail ==
            (if q == 0 then [] else Numeral(q, base)) + ([Digit(Rem(val, base), base)] + tail)
    ensures 0 < |Numeral(val, base)|
  {
    hide Quot, Rem, Digit;
  }
}
