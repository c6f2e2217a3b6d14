/** Formatted output: the directives of printer_vprintf, and the bounded buffer behind vsnprintf. */
module Printer {
  import opened Numerals
  import opened Words

  const U32 := 0x1_0000_0000

  /** One variable argument: a number, or the text a char pointer leads to. */
  datatype Arg = Num(v: int) | Text(s: seq<char>)

  /** What a directive converts. */
  datatype Item =
    | Signed(x: int)
    | Unsigned(v: nat, base: int, pointer: bool)
    | Chars(s: seq<char>)
    | Color

  /** A directive after parsing; next and used say where the format and the arguments go on. */
  datatype Directive = Directive(
    alt: bool, zero: bool, left: bool, space: bool, plus: bool,
    width: int, precision: int, item: Item, next: nat, used: nat)

  // ---- arguments -----------------------------------------------------------------------

  function NumAt(args: seq<Arg>, n: nat): int
  {
    if n < |args| && args[n].Num? then args[n].v else 0
  }

  function TextAt(args: seq<Arg>, n: nat): seq<char>
  {
    if n < |args| && args[n].Text? then args[n].s else []
  }

  /** v read as a two's complement number of the given modulus, half of which is negative. */
  function Wrapped(v: int, modulus: int): (r: int)
    requires modulus == U32 || modulus == U64
    ensures -modulus <= 2 * r < modulus
  {
    if v % modulus < modulus / 2 then v % modulus else v % modulus - modulus
  }

  function Modulus(long: bool): int
  {
    if long then U64 else U32
  }

  /** The index of the first NUL, or the length: strlen. */
  function NulAt(s: seq<char>): (k: nat)
    ensures k <= |s| && (k < |s| ==> s[k] == '\0') && forall i :: 0 <= i < k ==> s[i] != '\0'
  {
    if s == [] || s[0] == '\0' then 0 else 1 + NulAt(s[1..])
  }

  function CString(s: seq<char>): seq<char>
  {
    s[..NulAt(s)]
  }

  function Byte(v: int): char
  {
    (v % 256) as char
  }

  // ---- parsing ---------------------------------------------------------------------------

  function At(fmt: seq<char>, i: nat): char
  {
    if i < |fmt| then fmt[i] else '\0'
  }

  predicate IsFlag(c: char)
  {
    c == '#' || c == '0' || c == '-' || c == ' ' || c == '+'
  }

  predicate IsNum(c: char)
  {
    '0' <= c <= '9'
  }

  function FlagsEnd(fmt: seq<char>, i: nat): (j: nat)
    requires i <= |fmt|
    ensures i <= j <= |fmt|
    decreases |fmt| - i
  {
    if i < |fmt| && IsFlag(fmt[i]) then FlagsEnd(fmt, i + 1) else i
  }

  function NumEnd(fmt: seq<char>, i: nat): (j: nat)
    requires i <= |fmt|
    ensures i <= j <= |fmt|
    decreases |fmt| - i
  {
    if i < |fmt| && IsNum(fmt[i]) then NumEnd(fmt, i + 1) else i
  }

  function LengthEnd(fmt: seq<char>, i: nat): (j: nat)
    requires i <= |fmt|
    ensures i <= j <= |fmt|
    decreases |fmt| - i
  {
    if i < |fmt| && (fmt[i] == 'l' || fmt[i] == 'z') then LengthEnd(fmt, i + 1) else i
  }

  /** A number read from the format or the arguments, and where both go on. */
  datatype Reading = Reading(value: int, next: nat, used: nat)

  function Width(fmt: seq<char>, i: nat, args: seq<Arg>, n: nat): (r: Reading)
    requires i <= |fmt|
    ensures i <= r.next <= |fmt|
  {
    if '1' <= At(fmt, i) <= '9' then Reading(ValueOf(fmt[i..NumEnd(fmt, i)], 10), NumEnd(fmt, i), n)
    else if At(fmt, i) == '*' then Reading(Wrapped(NumAt(args, n), U32), i + 1, n + 1)
    else Reading(-1, i, n)
  }

  function Precision(fmt: seq<char>, i: nat, args: seq<Arg>, n: nat): (r: Reading)
    requires i <= |fmt|
    ensures i <= r.next <= |fmt|
  {
    if At(fmt, i) != '.' then Reading(-1, i, n)
    else if IsNum(At(fmt, i + 1)) then Reading(ValueOf(fmt[i + 1..NumEnd(fmt, i + 1)], 10), NumEnd(fmt, i + 1), n)
    else if At(fmt, i + 1) == '*' then
      var v := Wrapped(NumAt(args, n), U32);
      Reading(if v < 0 then 0 else v, i + 2, n + 1)
    else Reading(0, i + 1, n)
  }

  function ItemOf(c: char, long: bool, args: seq<Arg>, n: nat): Item
  {
    if c == 'd' || c == 'i' then Signed(Wrapped(NumAt(args, n), Modulus(long)))
    else if c == 'u' then Unsigned(NumAt(args, n) % Modulus(long), 10, false)
    else if c == 'x' then Unsigned(NumAt(args, n) % Modulus(long), -16, false)
    else if c == 'X' then Unsigned(NumAt(args, n) % Modulus(long), 16, false)
    else if c == 'p' then Unsigned(NumAt(args, n) % U64, -16, true)
    else if c == 's' then Chars(CString(TextAt(args, n)))
    else if c == 'c' then Chars(CString([Byte(NumAt(args, n))]))
    else if c == 'C' then Color
    else Chars([if c == '\0' then '%' else c])
  }

  predicate TakesArg(c: char)
  {
    c in "diuxXpscC"
  }

  /** The directive whose text starts at i, just after its percent sign. */
  function Parse(fmt: seq<char>, i: nat, args: seq<Arg>, n: nat): (d: Directive)
    requires i <= |fmt|
    ensures i <= d.next <= |fmt|
  {
    var j := FlagsEnd(fmt, i);
    var flags := fmt[i..j];
    var w := Width(fmt, j, args, n);
    var p := Precision(fmt, w.next, args, w.used);
    var k := LengthEnd(fmt, p.next);
    var c := At(fmt, k);
    Directive('#' in flags, '0' in flags, '-' in flags, ' ' in flags, '+' in flags, w.value, p.value,
              ItemOf(c, p.next < k, args, p.used),
              if c == '\0' then k else k + 1,
              if TakesArg(c) then p.used + 1 else p.used)
  }

  // ---- one field ---------------------------------------------------------------------------

  predicate Numeric(d: Directive)
  {
    d.item.Signed? || d.item.Unsigned?
  }

  function Prefix(d: Directive): (p: seq<char>)
    ensures |p| <= 2
  {
    match d.item
    case Signed(x) => if x < 0 then "-" else if d.plus then "+" else if d.space then " " else ""
    case Unsigned(v, base, pointer) =>
      if (d.alt || pointer) && base != 10 && (v != 0 || pointer) then (if base < 0 then "0x" else "0X") else ""
    case Chars(_) => ""
    case Color => ""
  }

  function Data(d: Directive): seq<char>
  {
    match d.item
    case Signed(x) => Numeral(if x < 0 then -x else x, 10)
    case Unsigned(v, base, _) => Numeral(v, base)
    case Chars(s) => if 0 <= d.precision < |s| then s[..d.precision] else s
    case Color => []
  }

  function Max(a: int, b: int): int
  {
    if a < b then b else a
  }

  function Zeros(d: Directive): nat
  {
    if Numeric(d) && 0 <= d.precision then Max(d.precision - |Data(d)|, 0)
    else if Numeric(d) && d.zero && !d.left then Max(d.width - |Data(d)| - |Prefix(d)|, 0)
    else 0
  }

  function Fill(c: char, k: int): (s: seq<char>)
    ensures |s| == Max(k, 0) && forall i :: 0 <= i < |s| ==> s[i] == c
  {
    if k <= 0 then [] else Fill(c, k - 1) + [c]
  }

  function Body(d: Directive): seq<char>
  {
    Prefix(d) + Fill('0', Zeros(d)) + Data(d)
  }

  /** The characters one directive prints; a colour change prints none. */
  function Field(d: Directive): (s: seq<char>)
    ensures !d.item.Color? ==> |s| == Max(d.width, |Prefix(d)| + Zeros(d) + |Data(d)|)
  {
    if d.item.Color? then []
    else if d.left then Body(d) + Fill(' ', d.width - |Body(d)|)
    else Fill(' ', d.width - |Body(d)|) + Body(d)
  }

  /** Everything the format prints from position i on, the arguments starting at n. */
  function Output(fmt: seq<char>, i: nat, args: seq<Arg>, n: nat): seq<char>
    decreases |fmt| - i
  {
    if At(fmt, i) == '\0' then []
    else if fmt[i] != '%' then [fmt[i]] + Output(fmt, i + 1, args, n)
    else
      var d := Parse(fmt, i + 1, args, n);
      Field(d) + Output(fmt, d.next, args, d.used)
  }

  // ---- what the fields mean --------------------------------------------------------------------

  /** The characters of s from the first that is not c. */
  function Skip(c: char, s: seq<char>): (r: seq<char>)
    ensures |r| <= |s|
  {
    if s != [] && s[0] == c then Skip(c, s[1..]) else s
  }

  /** The leading decimal digits. */
  function DigitRun(s: seq<char>): (r: seq<char>)
    ensures |r| <= |s|
  {
    if s != [] && IsNum(s[0]) then [s[0]] + DigitRun(s[1..]) else []
  }

  /** How a reader takes a decimal integer: spaces, an optional sign, digits. */
  function ReadInt(s: seq<char>): int
  {
    var t := Skip(' ', s);
    if t != [] && t[0] == '-' then -ValueOf(DigitRun(t[1..]), 10)
    else if t != [] && t[0] == '+' then ValueOf(DigitRun(t[1..]), 10)
    else ValueOf(DigitRun(t), 10)
  }

  lemma {:induction false} SkipFill(c: char, k: int, s: seq<char>)
    ensures Skip(c, Fill(c, k) + s) == Skip(c, s)
    decreases k
  {
    if k > 0 {
      var f := Fill(c, k);
      assert (f + s)[0] == c && f[1..] == Fill(c, k - 1) by {
        FillTail(c, k);
      }
      assert (f + s)[1..] == f[1..] + s;
      SkipFill(c, k - 1, s);
    } else {
      assert Fill(c, k) + s == s;
    }
  }

  lemma FillTail(c: char, k: int)
    requires k > 0
    ensures Fill(c, k)[1..] == Fill(c, k - 1)
  {
  }

  lemma {:induction false} RunStops(s: seq<char>, t: seq<char>)
    requires forall i :: 0 <= i < |s| ==> IsNum(s[i])
    requires t == [] || !IsNum(t[0])
    ensures DigitRun(s + t) == s
  {
    if s != [] {
      assert (s + t)[1..] == s[1..] + t;
      RunStops(s[1..], t);
      assert s == [s[0]] + s[1..];
    }
  }

  lemma {:induction false} ZerosKeepValue(k: int, s: seq<char>, base: int)
    requires s != [] && Base(base)
    ensures ValueOf(Fill('0', k) + s, base) == ValueOf(s, base)
    decreases |s|
  {
    hide Fill, Times, DigitValue;
    var f, n := Fill('0', k), |s| - 1;
    LastDigit(f, s, base);
    if n == 0 {
      assert s[..n] == [] && f + s[..n] == f;
      ZerosAreZero(k, base);
    } else {
      ZerosKeepValue(k, s[..n], base);
    }
  }

  lemma LastDigit(f: seq<char>, s: seq<char>, base: int)
    requires s != []
    ensures ValueOf(f + s, base) == Times(ValueOf(f + s[..|s| - 1], base), base) + DigitValue(s[|s| - 1])
    ensures ValueOf(s, base) == Times(ValueOf(s[..|s| - 1], base), base) + DigitValue(s[|s| - 1])
  {
    hide Times, DigitValue;
    assert (f + s)[..|f + s| - 1] == f + s[..|s| - 1];
  }

  lemma {:induction false} ZerosAreZero(k: int, base: int)
    requires Base(base)
    ensures ValueOf(Fill('0', k), base) == 0
    decreases k
  {
    if k > 0 {
      var f := Fill('0', k);
      assert f[..|f| - 1] == Fill('0', k - 1);
      ZerosAreZero(k - 1, base);
    }
  }

  lemma Assoc(a: seq<char>, b: seq<char>, c: seq<char>)
    ensures a + b + c == a + (b + c)
  {
  }

  /** Leading spaces do not matter to the reader. */
  lemma ReadSkips(k: int, s: seq<char>)
    ensures ReadInt(Fill(' ', k) + s) == ReadInt(s)
  {
    hide ValueOf, Fill, DigitRun, Skip;
    SkipFill(' ', k, s);
  }

  ghost predicate AllNum(s: seq<char>)
  {
    s != [] && forall i :: 0 <= i < |s| ==> IsNum(s[i])
  }

  /** A sign, digits, then nothing or a space: the reader takes them all. */
  lemma SignedDigits(p: seq<char>, digits: seq<char>, after: seq<char>)
    requires AllNum(digits) && (after == [] || after[0] == ' ')
    requires p == "" || p == "-" || p == "+" || p == " "
    ensures ReadInt(p + (digits + after)) == if p == "-" then -ValueOf(digits, 10) else ValueOf(digits, 10)
  {
    hide ValueOf, DigitRun;
    var u := digits + after;
    RunStops(digits, after);
    assert u != [] && u[0] == digits[0];
    assert Skip(' ', u) == u;
    var t := p + u;
    if p == "" {
      assert t == u;
    } else {
      assert t[0] == p[0] && t[1..] == u;
      assert Skip(' ', t) == if p == " " then u else t;
    }
  }

  /** The number behind a numeric directive, without its sign, and its base. */
  function Magnitude(d: Directive): int
    requires Numeric(d)
  {
    match d.item
    case Signed(x) => if x < 0 then -x else x
    case Unsigned(v, _, _) => v
  }

  function BaseOf(d: Directive): int
    requires Numeric(d)
  {
    if d.item.Signed? then 10 else d.item.base
  }

  /** Zeros and digits together are digits of the base that denote the number: padding never changes it. */
  lemma BodyDenotes(d: Directive) returns (digits: seq<char>)
    requires Numeric(d) && Base(BaseOf(d))
    ensures digits == Fill('0', Zeros(d)) + Data(d) && digits != []
    ensures forall i :: 0 <= i < |digits| ==> IsDigit(digits[i], BaseOf(d))
    ensures ValueOf(digits, BaseOf(d)) == Magnitude(d)
  {
    NumeralDenotes(Magnitude(d), BaseOf(d));
    assert Data(d) == Numeral(Magnitude(d), BaseOf(d));
    hide ValueOf, Zeros, Data, Fill, Numeral, Magnitude, BaseOf, Base, Digit;
    digits := Fill('0', Zeros(d)) + Data(d);
    ZerosKeepValue(Zeros(d), Data(d), BaseOf(d));
    assert IsDigit('0', BaseOf(d));
  }

  /** Whatever flags, width and precision a signed conversion has, its field reads back as the number. */
  lemma SignedReadsBack(d: Directive)
    requires d.item.Signed?
    ensures ReadInt(Field(d)) == d.item.x
  {
    var digits := BodyDenotes(d);
    assert AllNum(digits);
    hide ValueOf, ReadInt, Zeros, Data, AllNum;
    Assoc(Prefix(d), Fill('0', Zeros(d)), Data(d));
    assert Body(d) == Prefix(d) + digits;
    hide Body;
    var pad := Fill(' ', d.width - |Body(d)|);
    if d.left {
      Assoc(Prefix(d), digits, pad);
      SignedDigits(Prefix(d), digits, pad);
    } else {
      ReadSkips(d.width - |Body(d)|, Body(d));
      assert digits + [] == digits;
      SignedDigits(Prefix(d), digits, []);
    }
  }

  /** A format without percent signs prints itself. */
  lemma {:induction false} PlainText(fmt: seq<char>, i: nat, args: seq<Arg>, n: nat)
    requires i <= |fmt| && forall j :: i <= j < |fmt| ==> fmt[j] != '%'
    ensures Output(fmt, i, args, n) == CString(fmt[i..])
    decreases |fmt| - i
  {
    if i < |fmt| && fmt[i] != '\0' {
      PlainText(fmt, i + 1, args, n);
      assert fmt[i..][1..] == fmt[i + 1..];
      assert CString(fmt[i..]) == [fmt[i]] + CString(fmt[i + 1..]);
    }
  }

  /** Text before a directive prints first and leaves the arguments alone. */
  lemma {:induction false} TextThenDirective(fmt: seq<char>, i: nat, k: nat, args: seq<Arg>, n: nat)
    requires i <= k < |fmt| && fmt[k] == '%' && forall j :: i <= j < k ==> fmt[j] != '%' && fmt[j] != '\0'
    ensures var d := Parse(fmt, k + 1, args, n);
            Output(fmt, i, args, n) == fmt[i..k] + Field(d) + Output(fmt, d.next, args, d.used)
    decreases k - i
  {
    hide Parse, Field;
    if i < k {
      TextThenDirective(fmt, i + 1, k, args, n);
      assert fmt[i..k] == [fmt[i]] + fmt[i + 1..k];
    }
  }

  /** Printing any long with "%ld" into 21 bytes loses nothing: the text is complete and reads back as the number. */
  lemma LongRoundTrip(x: int)
    requires -U64 <= 2 * x < U64
    ensures var text := Output("%ld", 0, [Num(x)], 0);
            ReadInt(text) == x && |text| < 21
  {
    var fmt, args := "%ld", [Num(x)];
    var d := Directive(false, false, false, false, false, -1, -1, Signed(x), 3, 1);
    LongParses(x);
    assert Output(fmt, 3, args, 1) == [];
    assert Output(fmt, 0, args, 0) == Field(d) + [] == Field(d);
    SignedReadsBack(d);
    hide Field, ReadInt;
    LongLength(d);
  }

  lemma LongParses(x: int)
    requires -U64 <= 2 * x < U64
    ensures Parse("%ld", 1, [Num(x)], 0) == Directive(false, false, false, false, false, -1, -1, Signed(x), 3, 1)
  {
    var fmt := "%ld";
    assert fmt[1] == 'l' && fmt[2] == 'd' && fmt[1..1] == [];
    assert LengthEnd(fmt, 2) == 2 && LengthEnd(fmt, 1) == 2;
    assert 'd' in "diuxXpscC" by {
      assert "diuxXpscC"[0] == 'd';
    }
  }

  lemma LongLength(d: Directive)
    requires d.item.Signed? && -U64 <= 2 * d.item.x < U64 && d.width == -1 && d.precision == -1 && !d.zero
    ensures |Field(d)| < 21
  {
    PowerNineteen();
    NumeralLength(Magnitude(d), 10, 19);
  }

  lemma PowerNineteen()
    ensures Power(10, 19) == 1000_0000_0000_0000_0000
  {
    PowersOf10();
    assert Power(10, 20) == Times(Power(10, 19), 10);
  }

  // ---- the machine -------------------------------------------------------------------------------

  /** Collect the flag characters from i on. */
  method ScanFlags(fmt: seq<char>, i: nat)
    returns (alt: bool, zero: bool, left: bool, space: bool, plus: bool, j: nat)
    requires i <= |fmt|
    ensures j == FlagsEnd(fmt, i)
    ensures var flags := fmt[i..j];
            && alt == ('#' in flags) && zero == ('0' in flags) && left == ('-' in flags)
            && space == (' ' in flags) && plus == ('+' in flags)
  {
    alt, zero, left, space, plus, j := false, false, false, false, false, i;
    while At(fmt, j) != '\0'
      invariant i <= j <= |fmt| && FlagsEnd(fmt, i) == FlagsEnd(fmt, j)
      invariant var flags := fmt[i..j];
                && alt == ('#' in flags) && zero == ('0' in flags) && left == ('-' in flags)
                && space == (' ' in flags) && plus == ('+' in flags)
      decreases |fmt| - j
    {
      var c := fmt[j];
      if !IsFlag(c) {
        break;
      }
      assert fmt[i..j + 1] == fmt[i..j] + [c];
      alt, zero, left := alt || c == '#', zero || c == '0', left || c == '-';
      space, plus := space || c == ' ', plus || c == '+';
      j := j + 1;
    }
  }

  /** Read a decimal number. */
  method ScanNumber(fmt: seq<char>, i: nat) returns (v: int, j: nat)
    requires i <= |fmt|
    ensures j == NumEnd(fmt, i) && v == ValueOf(fmt[i..j], 10)
  {
    v, j := 0, i;
    while IsNum(At(fmt, j))
      invariant i <= j <= |fmt| && NumEnd(fmt, i) == NumEnd(fmt, j) && v == ValueOf(fmt[i..j], 10)
      decreases |fmt| - j
    {
      assert fmt[i..j + 1][..j - i] == fmt[i..j];
      v := 10 * v + (fmt[j] as int - '0' as int);
      j := j + 1;
    }
  }

  method ScanWidth(fmt: seq<char>, i: nat, args: seq<Arg>, n: nat) returns (width: int, j: nat, m: nat)
    requires i <= |fmt|
    ensures Reading(width, j, m) == Width(fmt, i, args, n)
  {
    width, j, m := -1, i, n;
    if '1' <= At(fmt, j) <= '9' {
      width, j := ScanNumber(fmt, j);
    } else if At(fmt, j) == '*' {
      width := Wrapped(NumAt(args, m), U32);
      j, m := j + 1, m + 1;
    }
  }

  method ScanPrecision(fmt: seq<char>, i: nat, args: seq<Arg>, n: nat) returns (precision: int, j: nat, m: nat)
    requires i <= |fmt|
    ensures Reading(precision, j, m) == Precision(fmt, i, args, n)
  {
    precision, j, m := -1, i, n;
    if At(fmt, j) == '.' {
      j := j + 1;
      if IsNum(At(fmt, j)) {
        precision, j := ScanNumber(fmt, j);
        ValueNonNegative(fmt[i + 1..j]);
      } else if At(fmt, j) == '*' {
        precision := Wrapped(NumAt(args, m), U32);
        j, m := j + 1, m + 1;
      }
      if precision < 0 {
        precision := 0;
      }
    }
  }

  lemma {:induction false} ValueNonNegative(s: seq<char>)
    ensures 0 <= ValueOf(s, 10)
  {
    if s != [] {
      ValueNonNegative(s[..|s| - 1]);
    }
  }

  /** The length letters, then the conversion letter's place. */
  method ScanLength(fmt: seq<char>, i: nat) returns (long: bool, k: nat)
    requires i <= |fmt|
    ensures k == LengthEnd(fmt, i) && long == (i < k)
  {
    long, k := false, i;
    while At(fmt, k) == 'l' || At(fmt, k) == 'z'
      invariant i <= k <= |fmt| && LengthEnd(fmt, i) == LengthEnd(fmt, k) && long == (i < k)
      decreases |fmt| - k
    {
      long := true;
      k := k + 1;
    }
  }

  /** The converted argument as the printing code keeps it: number, base, flags, or character data. */
  datatype Converted = Converted(
    num: nat, base: int, numeric: bool, signed: bool, negative: bool, alt2: bool, data: seq<char>)

  /** The conversion switch; the colour change prints nothing and leaves early. */
  method Convert(c: char, long: bool, args: seq<Arg>, n: nat) returns (r: Converted, colour: bool, m: nat)
    ensures m == (if TakesArg(c) then n + 1 else n) && colour == ItemOf(c, long, args, n).Color?
    ensures Stands(r, ItemOf(c, long, args, n))
  {
    r, colour, m := Converted(0, 10, false, false, false, false, ""), false, n;
    var v := NumAt(args, n);
    if c == 'd' || c == 'i' {
      var x := Wrapped(v, Modulus(long));
      r := r.(num := if x < 0 then -x else x, numeric := true, signed := true, negative := x < 0);
    } else if c == 'u' || c == 'x' || c == 'X' {
      var base := if c == 'x' then -16 else if c == 'X' then 16 else 10;
      r := r.(num := v % Modulus(long), base := base, numeric := true);
    } else if c == 'p' {
      r := r.(num := v % U64, base := -16, numeric := true, alt2 := true);
    } else if c == 's' {
      r := r.(data := TextAt(args, n));
    } else if c == 'C' {
      colour := true;
    } else if c == 'c' {
      r := r.(data := [Byte(v), '\0']);
      ShortString(Byte(v));
    } else {
      r := r.(data := [if c != '\0' then c else '%', '\0']);
      ShortString(r.data[0]);
    }
    if TakesArg(c) {
      m := n + 1;
    }
  }

  /** r is what the printing code keeps of the item. */
  ghost predicate Stands(r: Converted, item: Item)
  {
    match item
    case Signed(x) =>
      && r.numeric && r.signed && r.negative == (x < 0)
      && r.num == (if x < 0 then -x else x) && r.num < U64 && r.base == 10
    case Unsigned(v, base, pointer) =>
      r.numeric && !r.signed && r.num == v < U64 && r.base == base && Base(base) && r.alt2 == pointer
    case Chars(s) => !r.numeric && CString(r.data) == s
    case Color => true
  }

  /** The sign or base marker. */
  method ChoosePrefix(ghost d: Directive, r: Converted, alt: bool, space: bool, plus: bool) returns (prefix: seq<char>)
    requires Stands(r, d.item) && !d.item.Color? && alt == d.alt && space == d.space && plus == d.plus
    ensures prefix == Prefix(d)
  {
    prefix := "";
    if r.numeric && r.signed {
      if r.negative {
        prefix := "-";
      } else if plus {
        prefix := "+";
      } else if space {
        prefix := " ";
      }
    } else if r.numeric && (alt || r.alt2) && (r.base == 16 || r.base == -16) && (r.num != 0 || r.alt2) {
      prefix := if r.base == -16 then "0x" else "0X";
    }
  }

  /** The characters to print, and how many of them. */
  method Measure(ghost d: Directive, r: Converted, precision: int) returns (data: seq<char>, len: nat)
    requires Stands(r, d.item) && !d.item.Color? && precision == d.precision
    ensures len <= |data| && data[..len] == Data(d) && len == |Data(d)| && r.numeric == Numeric(d)
  {
    hide Numeral;
    data := r.data;
    if r.numeric {
      var numbuf := new char[NUMBUFSIZ];
      var start := FillNumbuf(numbuf, NUMBUFSIZ, r.num, r.base);
      data := numbuf[start..NUMBUFSIZ];
      NumeralLen(r.num, r.base);
    }
    len := NulAt(data);
    if 0 <= precision < len && !r.numeric {
      len := precision;
    }
  }

  lemma ShortString(c: char)
    ensures CString([c, '\0']) == CString([c])
    ensures c != '\0' ==> CString([c]) == [c]
  {
    assert [c, '\0'][1..] == ['\0'] && [c][1..] == [];
    assert NulAt(['\0']) == 0;
  }

  /** A numeral and its terminator measure as long as the numeral. */
  lemma NumeralLen(v: nat, base: int)
    requires Base(base)
    ensures NulAt(Numeral(v, base) + ['\0']) == |Numeral(v, base)|
  {
    NumeralDenotes(v, base);
    var t := Numeral(v, base);
    hide Numeral, NulAt, ValueOf;
    var s := t + ['\0'];
    assert s[|t|] == '\0' && forall i :: 0 <= i < |t| ==> s[i] != '\0';
  }

  /** A printer into a bounded buffer: s is the cursor, end the last place, kept for the terminator. */
  class StringPrinter {
    const buf: array<char>
    const end: nat
    var s: nat
    ghost var out: seq<char>

    /** The buffer holds the start of what was printed, as much as fits before end. */
    ghost predicate Valid()
      reads this, buf
    {
      && end < buf.Length
      && s == (if |out| < end then |out| else end)
      && buf[..s] == out[..s]
    }

    constructor (buf0: array<char>, size: nat)
      requires 0 < size <= buf0.Length
      ensures Valid() && out == [] && s == 0 && buf == buf0 && end == size - 1
    {
      buf, end, s, out := buf0, size - 1, 0, [];
    }

    /** Nothing past the cursor's reach changes. */
    twostate predicate Beyond()
      reads this, buf
    {
      forall i :: end <= i < buf.Length ==> buf[i] == old(buf[i])
    }

    method Putc(c: char)
      requires Valid()
      modifies this, buf
      ensures Valid() && out == old(out) + [c] && Beyond()
    {
      if s < end {
        buf[s] := c;
        s := s + 1;
      }
      out := out + [c];
    }

    /** A countdown loop that prints one character again and again. */
    method Repeat(c: char, count0: int)
      requires Valid()
      modifies this, buf
      ensures Valid() && Beyond() && out == old(out) + Fill(c, count0)
    {
      var count := count0;
      ghost var done := 0;
      while count > 0
        invariant Valid() && Beyond() && done == Max(count0, 0) - Max(count, 0) && out == old(out) + Fill(c, done)
        decreases count
      {
        Putc(c);
        count, done := count - 1, done + 1;
      }
    }

    /** A countdown loop that prints the first len characters of data. */
    method Puts(data: seq<char>, len0: nat)
      requires Valid() && len0 <= |data|
      modifies this, buf
      ensures Valid() && Beyond() && out == old(out) + data[..len0]
    {
      var len, i := len0, 0;
      while len > 0
        invariant Valid() && Beyond() && 0 <= len == len0 - i && 0 <= i && out == old(out) + data[..i]
      {
        Putc(data[i]);
        i, len := i + 1, len - 1;
      }
    }

    /** The padding, prefix, zeros and data of one field. */
    method Emit(left: bool, width0: int, prefix: seq<char>, zeros: nat, data: seq<char>, len: nat)
      requires Valid() && len <= |data|
      modifies this, buf
      ensures Valid() && Beyond()
      ensures var body := prefix + Fill('0', zeros) + data[..len];
              out == old(out) + (if left then body + Fill(' ', width0 - |body|) else Fill(' ', width0 - |body|) + body)
    {
      hide Fill, Valid;
      ghost var base, z, pad := out, Fill('0', zeros), width0 - (|prefix| + zeros + len);
      var width := width0 - (len + zeros + |prefix|);
      if !left {
        Repeat(' ', width);
        width := 0;
      }
      ghost var lead, after := if left then [] else Fill(' ', pad), Fill(' ', width);
      assert out == base + lead by {
        Neutral(base);
      }
      Puts(prefix, |prefix|);
      Repeat('0', zeros);
      Puts(data, len);
      Repeat(' ', width);
      assert prefix[..|prefix|] == prefix;
      assert out == base + lead + prefix + z + data[..len] + after;
      FieldJoined(base, lead, prefix, z, data[..len], after);
      ghost var body := prefix + z + data[..len];
      assert |body| == |prefix| + zeros + len;
      NoFill();
      Neutral(lead + body);
      Neutral(body);
      assert out == base + (lead + body + after);
    }

    /** The field of a converted argument. */
    method PrintItem(ghost d: Directive, r: Converted, alt: bool, zero: bool, left: bool, space: bool, plus: bool,
                     width: int, precision: int)
      requires Valid() && Stands(r, d.item) && !d.item.Color? && width == d.width && precision == d.precision
      requires alt == d.alt && zero == d.zero && left == d.left && space == d.space && plus == d.plus
      modifies this, buf
      ensures Valid() && Beyond() && out == old(out) + Field(d)
    {
      hide Numeral, Fill, Valid, Prefix;
      var prefix := ChoosePrefix(d, r, alt, space, plus);
      var data, len := Measure(d, r, precision);
      hide Stands, Data;
      var zeros := 0;
      if r.numeric && precision >= 0 {
        zeros := if precision > len then precision - len else 0;
      } else if r.numeric && zero && !left && len + |prefix| < width {
        zeros := width - len - |prefix|;
      }
      assert zeros == Zeros(d);
      Emit(left, width, prefix, zeros, data, len);
    }

    /** One directive, its text starting at i. */
    method PrintDirective(fmt: seq<char>, i: nat, args: seq<Arg>, n: nat) returns (next: nat, used: nat)
      requires Valid() && i <= |fmt|
      modifies this, buf
      ensures var d := Parse(fmt, i, args, n);
              Valid() && Beyond() && out == old(out) + Field(d) && next == d.next && used == d.used
    {
      hide Valid, Field, Stands, ItemOf;
      ghost var d := Parse(fmt, i, args, n);
      var alt, zero, left, space, plus, j := ScanFlags(fmt, i);
      var width, precision, m, long, k, r, colour;
      width, j, m := ScanWidth(fmt, j, args, n);
      precision, j, m := ScanPrecision(fmt, j, args, m);
      long, k := ScanLength(fmt, j);
      var c := At(fmt, k);
      r, colour, used := Convert(c, long, args, m);
      next := if c == '\0' then k else k + 1;
      if colour {
        ColourPrintsNothing(d);
        assert out + [] == out;
        return;
      }
      PrintItem(d, r, alt, zero, left, space, plus, width, precision);
    }

    /** Print the whole format. */
    method VPrintf(fmt: seq<char>, args: seq<Arg>)
      requires Valid()
      modifies this, buf
      ensures Valid() && Beyond() && out == old(out) + Output(fmt, 0, args, 0)
    {
      hide Valid, Parse, Field;
      var i, n := 0, 0;
      while At(fmt, i) != '\0'
        invariant Valid() && Beyond() && i <= |fmt|
        invariant old(out) + Output(fmt, 0, args, 0) == out + Output(fmt, i, args, n)
        decreases |fmt| - i
      {
        ghost var before := out;
        if fmt[i] != '%' {
          Putc(fmt[i]);
          Assoc(before, [fmt[i]], Output(fmt, i + 1, args, n));
          i := i + 1;
          continue;
        }
        ghost var d := Parse(fmt, i + 1, args, n);
        i, n := PrintDirective(fmt, i + 1, args, n);
        Assoc(before, Field(d), Output(fmt, i, args, n));
      }
      assert out + [] == out;
    }
  }

  lemma ColourPrintsNothing(d: Directive)
    requires d.item.Color?
    ensures Field(d) == []
  {
  }

  /** Format into size bytes: the start of the full text that fits, and a terminator after it. */
  method Vsnprintf(buf: array<char>, size: nat, fmt: seq<char>, args: seq<Arg>) returns (r: int)
    requires size <= buf.Length
    modifies buf
    ensures size == 0 ==> r == 0 && buf[..] == old(buf[..])
    ensures size > 0 ==>
      var text := Output(fmt, 0, args, 0);
      && 0 <= r < size && r == (if |text| < size then |text| else size - 1)
      && buf[..r] == text[..r] && buf[r] == '\0'
    ensures forall i :: size <= i < buf.Length ==> buf[i] == old(buf[i])
  {
    r := 0;
    if size != 0 {
      var sp := new StringPrinter(buf, size);
      sp.VPrintf(fmt, args);
      ghost var text := Output(fmt, 0, args, 0);
      assert sp.out == text;
      buf[sp.s] := '\0';
      r := sp.s;
    }
  }

  lemma NoFill()
    ensures Fill(' ', 0) == []
  {
  }

  lemma Neutral(a: seq<char>)
    ensures a + [] == a && [] + a == a
  {
  }

  lemma FieldJoined(base: seq<char>, lead: seq<char>, p: seq<char>, z: seq<char>, data: seq<char>, after: seq<char>)
    ensures base + lead + p + z + data + after == base + (lead + (p + z + data) + after)
  {
    Joined(base + lead, p, z, data);
    Joined(base, lead, p + z + data, after);
  }

  lemma Joined(a: seq<char>, b: seq<char>, c: seq<char>, d: seq<char>)
    ensures a + b + c + d == a + (b + c + d)
  {
    Assoc(a, b, c);
    Assoc(a, b + c, d);
  }
}
