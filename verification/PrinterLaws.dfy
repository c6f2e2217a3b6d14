/** What each conversion prints, said from the directive's text and its argument: the number or the
    characters, the sign or base marker, the zeros and the blanks. */
module PrinterLaws {
  import opened Words
  import opened Numerals
  import opened Printer

  // ----- the text of a directive ---------------------------------------------------------------

  /** A width or precision as it is written: not at all, in digits, or as a star that takes an argument; for a
      precision also as a point alone. */
  datatype Given = Absent | Digits(ds: seq<char>) | Star | Point

  /** What stands between the percent sign and the conversion's end. */
  datatype Written = Written(flags: seq<char>, width: Given, precision: Given, length: seq<char>, letter: char)

  predicate AllDigits(s: seq<char>)
  {
    forall i :: 0 <= i < |s| ==> '0' <= s[i] <= '9'
  }

  predicate Lengths(s: seq<char>)
  {
    forall i :: 0 <= i < |s| ==> s[i] == 'l' || s[i] == 'z'
  }

  predicate AllFlags(s: seq<char>)
  {
    forall i :: 0 <= i < |s| ==> s[i] in "#0- +"
  }

  /** The letter is no flag, digit, star, point or length letter, and a width starts with no zero. */
  predicate WellWritten(w: Written)
  {
    && AllFlags(w.flags) && Lengths(w.length)
    && !w.width.Point? && (w.width.Digits? ==> w.width.ds != [] && AllDigits(w.width.ds) && w.width.ds[0] != '0')
    && (w.precision.Digits? ==> w.precision.ds != [] && AllDigits(w.precision.ds))
    && w.letter !in "#0- +123456789*.lz" && w.letter != '\0'
  }

  function WidthText(g: Given): seq<char>
  {
    match g
    case Absent => ""
    case Digits(ds) => ds
    case Star => "*"
    case Point => ""
  }

  function PrecisionText(g: Given): seq<char>
  {
    match g
    case Absent => ""
    case Digits(ds) => "." + ds
    case Star => ".*"
    case Point => "."
  }

  function Spelled(w: Written): seq<char>
  {
    w.flags + (WidthText(w.width) + (PrecisionText(w.precision) + (w.length + [w.letter])))
  }

  /** s stands in fmt at i. */
  predicate StandsAt(fmt: seq<char>, i: nat, s: seq<char>)
  {
    i + |s| <= |fmt| && fmt[i..i + |s|] == s
  }

  function Stars(g: Given): nat
  {
    if g.Star? then 1 else 0
  }

  // ----- what it means ---------------------------------------------------------------------------

  /** x is v as a C int. */
  predicate IsInt(x: int, v: int)
  {
    -0x8000_0000 <= x < 0x8000_0000 && (x - v) % 0x1_0000_0000 == 0
  }

  /** x is v as a C long. */
  predicate IsLong(x: int, v: int)
  {
    -0x8000_0000_0000_0000 <= x < 0x8000_0000_0000_0000 && (x - v) % 0x1_0000_0000_0000_0000 == 0
  }

  /** The width or precision g stands for, given the next argument; -1 for none. A negative precision is 0. */
  predicate WidthIs(g: Given, args: seq<Arg>, n: nat, width: int)
  {
    match g
    case Absent => width == -1
    case Digits(ds) => width == ValueOf(ds, 10)
    case Star => n < |args| && args[n].Num? && IsInt(width, args[n].v)
    case Point => false
  }

  predicate PrecisionIs(g: Given, args: seq<Arg>, n: nat, precision: int)
  {
    match g
    case Absent => precision == -1
    case Digits(ds) => precision == ValueOf(ds, 10)
    case Star => n < |args| && args[n].Num? && 0 <= precision
                 && (IsInt(precision, args[n].v) || (precision == 0 && IsNegative(args[n].v)))
    case Point => precision == 0
  }

  predicate IsNegative(v: int)
  {
    v % 0x1_0000_0000 >= 0x8000_0000
  }

  function AtLeast0(k: int): nat
  {
    if k < 0 then 0 else k
  }

  /** text is the prefix, zeros and data, with blanks up to the width: before them, or after them when the
      directive has a minus flag. */
  ghost predicate Laid(w: Written, width: int, prefix: seq<char>, zeros: nat, data: seq<char>, text: seq<char>)
  {
    var body := prefix + Fill('0', zeros) + data;
    var blanks := Fill(' ', AtLeast0(width - |body|));
    text == if '-' in w.flags then body + blanks else blanks + body
  }

  /** digits, the numeral of v in the base, is laid out as a number: as many digits as the precision asks for; without
      one, a zero flag and no minus flag fill the width with zeros. */
  ghost predicate NumberLaid(w: Written, width: int, precision: int, prefix: seq<char>, v: nat, base: int,
                             text: seq<char>)
  {
    exists digits ::
      && Canonical(digits, base) && ValueOf(digits, base) == v
      && Laid(w, width, prefix,
              if precision >= 0 then AtLeast0(precision - |digits|)
              else if '0' in w.flags && '-' !in w.flags then AtLeast0(width - |prefix| - |digits|) else 0,
              digits, text)
  }

  /** data is s up to its first NUL, cut to the precision, if any. */
  predicate Cut(s: seq<char>, precision: int, data: seq<char>)
  {
    && |data| <= |s| && data == s[..|data|] && '\0' !in data && (precision >= 0 ==> |data| <= precision)
    && (|data| == |s| || s[|data|] == '\0' || |data| == precision)
  }

  ghost predicate CharsLaid(w: Written, width: int, precision: int, s: seq<char>, text: seq<char>)
  {
    exists data :: Cut(s, precision, data) && Laid(w, width, "", 0, data, text)
  }

  function UnsignedOf(w: Written, v: int): nat
  {
    if w.length == [] then v % 0x1_0000_0000 else v % 0x1_0000_0000_0000_0000
  }

  /** The argument the letter takes is there and of its kind. */
  predicate HasArgument(letter: char, args: seq<Arg>, n: nat)
  {
    && (letter in "diuxXpcC" ==> n < |args| && args[n].Num?)
    && (letter == 's' ==> n < |args| && args[n].Text?)
  }

  /** What the conversion prints of the argument at n, letter by letter. */
  ghost predicate Prints(w: Written, width: int, precision: int, args: seq<Arg>, n: nat, text: seq<char>)
    requires HasArgument(w.letter, args, n)
  {
    if w.letter == 'd' || w.letter == 'i' then
      exists x ::
        && (if w.length == [] then IsInt(x, args[n].v) else IsLong(x, args[n].v))
        && var sign := if x < 0 then "-" else if '+' in w.flags then "+" else if ' ' in w.flags then " " else "";
        NumberLaid(w, width, precision, sign, if x < 0 then -x else x, 10, text)
    else if w.letter == 'u' then
      NumberLaid(w, width, precision, "", UnsignedOf(w, args[n].v), 10, text)
    else if w.letter == 'x' then
      var v := UnsignedOf(w, args[n].v);
      NumberLaid(w, width, precision, if '#' in w.flags && v != 0 then "0x" else "", v, -16, text)
    else if w.letter == 'X' then
      var v := UnsignedOf(w, args[n].v);
      NumberLaid(w, width, precision, if '#' in w.flags && v != 0 then "0X" else "", v, 16, text)
    else if w.letter == 'p' then
      NumberLaid(w, width, precision, "0x", args[n].v % 0x1_0000_0000_0000_0000, -16, text)
    else if w.letter == 's' then CharsLaid(w, width, precision, args[n].s, text)
    else if w.letter == 'c' then CharsLaid(w, width, precision, [(args[n].v % 256) as char], text)
    else if w.letter == 'C' then text == []
    else CharsLaid(w, width, precision, [w.letter], text)
  }

  // ----- parsing undoes spelling ------------------------------------------------------------------

  lemma StandsParts(fmt: seq<char>, i: nat, a: seq<char>, b: seq<char>)
    requires StandsAt(fmt, i, a + b)
    ensures StandsAt(fmt, i, a) && StandsAt(fmt, i + |a|, b)
  {
    var s := fmt[i..i + |a + b|];
    assert s == a + b;
    assert fmt[i..i + |a|] == s[..|a|] == a;
    assert fmt[i + |a|..i + |a| + |b|] == s[|a|..] == b;
  }

  lemma StandsFirst(fmt: seq<char>, i: nat, s: seq<char>)
    requires StandsAt(fmt, i, s) && s != []
    ensures i < |fmt| && At(fmt, i) == fmt[i] == s[0]
  {
    assert fmt[i..i + |s|][0] == s[0];
  }

  lemma {:induction false} FlagsRun(fmt: seq<char>, i: nat, s: seq<char>)
    requires StandsAt(fmt, i, s) && AllFlags(s) && !IsFlag(At(fmt, i + |s|))
    ensures FlagsEnd(fmt, i) == i + |s|
    decreases |s|
  {
    if s != [] {
      StandsFirst(fmt, i, s);
      assert s == [s[0]] + s[1..];
      StandsParts(fmt, i, [s[0]], s[1..]);
      assert s[0] in "#0- +";
      FlagsRun(fmt, i + 1, s[1..]);
    }
  }

  lemma {:induction false} DigitsRun(fmt: seq<char>, i: nat, s: seq<char>)
    requires StandsAt(fmt, i, s) && AllDigits(s) && !IsNum(At(fmt, i + |s|))
    ensures NumEnd(fmt, i) == i + |s|
    decreases |s|
  {
    if s != [] {
      StandsFirst(fmt, i, s);
      assert s == [s[0]] + s[1..];
      StandsParts(fmt, i, [s[0]], s[1..]);
      DigitsRun(fmt, i + 1, s[1..]);
    }
  }

  lemma {:induction false} LengthRun(fmt: seq<char>, i: nat, s: seq<char>)
    requires StandsAt(fmt, i, s) && Lengths(s) && At(fmt, i + |s|) != 'l' && At(fmt, i + |s|) != 'z'
    ensures LengthEnd(fmt, i) == i + |s|
    decreases |s|
  {
    if s != [] {
      StandsFirst(fmt, i, s);
      assert s == [s[0]] + s[1..];
      StandsParts(fmt, i, [s[0]], s[1..]);
      LengthRun(fmt, i + 1, s[1..]);
    }
  }

  lemma WrappedIs(v: int)
    ensures IsInt(Wrapped(v, U32), v) && IsLong(Wrapped(v, U64), v)
    ensures Wrapped(v, U32) < 0 <==> IsNegative(v)
  {
    Congruent(v, U32);
    Congruent(v, U64);
  }

  lemma Congruent(v: int, m: int)
    requires m == U32 || m == U64
    ensures (v % m - v) % m == 0 && (v % m - m - v) % m == 0
  {
    var q := v / m;
    assert v == q * m + v % m;
    assert v % m - v == (-q) * m && v % m - m - v == (-q - 1) * m;
    Multiple(-q, m);
    Multiple(-q - 1, m);
  }

  lemma Multiple(k: int, m: int)
    requires m == U32 || m == U64
    ensures k * m % m == 0
  {
  }

  /** What follows the width in a directive starts with no digit. */
  predicate NoDigitFirst(s: seq<char>)
  {
    s != [] && !IsNum(s[0])
  }

  lemma WidthRead(fmt: seq<char>, i: nat, g: Given, rest: seq<char>, args: seq<Arg>, n: nat)
    requires StandsAt(fmt, i, WidthText(g) + rest) && NoDigitFirst(rest) && rest[0] != '*' && !g.Point?
    requires g.Digits? ==> g.ds != [] && AllDigits(g.ds) && g.ds[0] != '0'
    requires g.Star? ==> n < |args| && args[n].Num?
    ensures var r := Width(fmt, i, args, n);
            WidthIs(g, args, n, r.value) && r.next == i + |WidthText(g)| && r.used == n + Stars(g)
  {
    StandsParts(fmt, i, WidthText(g), rest);
    StandsFirst(fmt, i + |WidthText(g)|, rest);
    match g
    case Absent =>
    case Digits(ds) =>
      StandsFirst(fmt, i, ds);
      DigitsRun(fmt, i, ds);
    case Star =>
      StandsFirst(fmt, i, "*");
      WrappedIs(args[n].v);
    case Point =>
  }

  lemma PrecisionRead(fmt: seq<char>, i: nat, g: Given, rest: seq<char>, args: seq<Arg>, n: nat)
    requires StandsAt(fmt, i, PrecisionText(g) + rest) && NoDigitFirst(rest) && rest[0] != '*' && rest[0] != '.'
    requires g.Digits? ==> g.ds != [] && AllDigits(g.ds)
    requires g.Star? ==> n < |args| && args[n].Num?
    ensures var r := Precision(fmt, i, args, n);
            PrecisionIs(g, args, n, r.value) && r.next == i + |PrecisionText(g)| && r.used == n + Stars(g)
  {
    StandsParts(fmt, i, PrecisionText(g), rest);
    StandsFirst(fmt, i + |PrecisionText(g)|, rest);
    match g
    case Absent =>
    case Digits(ds) =>
      StandsParts(fmt, i, ".", ds);
      StandsFirst(fmt, i, ".");
      StandsFirst(fmt, i + 1, ds);
      DigitsRun(fmt, i + 1, ds);
    case Star =>
      assert ".*" == "." + "*";
      StandsParts(fmt, i, ".", "*");
      StandsFirst(fmt, i, ".");
      StandsFirst(fmt, i + 1, "*");
      WrappedIs(args[n].v);
    case Point =>
      StandsFirst(fmt, i, ".");
  }

  /** What the parser makes of a well-written directive. */
  ghost predicate ParsedAs(w: Written, d: Directive, i: nat, args: seq<Arg>, n: nat)
  {
    var m, k := n + Stars(w.width), n + Stars(w.width) + Stars(w.precision);
    && d.alt == ('#' in w.flags) && d.zero == ('0' in w.flags) && d.left == ('-' in w.flags)
    && d.space == (' ' in w.flags) && d.plus == ('+' in w.flags)
    && WidthIs(w.width, args, n, d.width) && PrecisionIs(w.precision, args, m, d.precision)
    && d.item == ItemOf(w.letter, w.length != [], args, k)
    && d.next == i + |Spelled(w)| && d.used == if w.letter in "diuxXpscC" then k + 1 else k
  }

  /** The arguments the stars take are numbers. */
  predicate StarsServed(w: Written, args: seq<Arg>, n: nat)
  {
    var m := n + Stars(w.width);
    && (w.width.Star? ==> n < |args| && args[n].Num?)
    && (w.precision.Star? ==> m < |args| && args[m].Num?)
  }

  lemma Parsed(fmt: seq<char>, i: nat, w: Written, args: seq<Arg>, n: nat)
    requires WellWritten(w) && StandsAt(fmt, i, Spelled(w)) && StarsServed(w, args, n)
    ensures ParsedAs(w, Parse(fmt, i, args, n), i, args, n)
  {
    hide ItemOf, Width, Precision, FlagsEnd, LengthEnd, WidthIs, PrecisionIs, StandsAt, WellWritten, Spelled;
    hide StarsServed, At;
    Pieces(fmt, i, w, args, n);
  }

  /** The places where the parts of a directive end, and what they read as. */
  lemma Pieces(fmt: seq<char>, i: nat, w: Written, args: seq<Arg>, n: nat)
    requires WellWritten(w) && StandsAt(fmt, i, Spelled(w)) && StarsServed(w, args, n)
    ensures i + |Spelled(w)| <= |fmt| && w.letter != '\0'
    ensures var j := FlagsEnd(fmt, i);
            var wd := Width(fmt, j, args, n);
            var p := Precision(fmt, wd.next, args, wd.used);
            var k := LengthEnd(fmt, p.next);
            && fmt[i..j] == w.flags
            && WidthIs(w.width, args, n, wd.value) && wd.used == n + Stars(w.width)
            && PrecisionIs(w.precision, args, wd.used, p.value) && p.used == wd.used + Stars(w.precision)
            && (p.next < k <==> w.length != []) && At(fmt, k) == w.letter && k + 1 == i + |Spelled(w)|
  {
    hide Width, Precision, FlagsEnd, LengthEnd, WidthIs, PrecisionIs, StandsAt, WidthText, PrecisionText;
    hide At, NoDigitFirst, IsFlag, AllFlags, AllDigits, Lengths;
    var mid := PrecisionText(w.precision) + (w.length + [w.letter]);
    Starts(w);
    SpelledLength(w);
    StandsParts(fmt, i, w.flags, WidthText(w.width) + mid);
    var j := FlagsRead(fmt, i, w.flags, WidthText(w.width) + mid);
    WidthRead(fmt, j, w.width, mid, args, n);
    StandsParts(fmt, j, WidthText(w.width), mid);
    hide Spelled;
    TailRead(fmt, j + |WidthText(w.width)|, w.precision, w.length, w.letter, args, n + Stars(w.width));
  }

  /** Precision, length letters and conversion letter. */
  lemma TailRead(fmt: seq<char>, i: nat, g: Given, length: seq<char>, c: char, args: seq<Arg>, n: nat)
    requires StandsAt(fmt, i, PrecisionText(g) + (length + [c])) && NoDigitFirst(length + [c])
    requires (length + [c])[0] != '*' && (length + [c])[0] != '.'
    requires Lengths(length) && c != 'l' && c != 'z'
    requires (g.Digits? ==> g.ds != [] && AllDigits(g.ds)) && (g.Star? ==> n < |args| && args[n].Num?)
    ensures i <= |fmt|
    ensures var p := Precision(fmt, i, args, n);
            var k := LengthEnd(fmt, p.next);
            && PrecisionIs(g, args, n, p.value) && p.used == n + Stars(g)
            && (p.next < k <==> length != []) && At(fmt, k) == c
            && k == i + |PrecisionText(g)| + |length| < |fmt|
  {
    hide Precision, LengthEnd, PrecisionIs, PrecisionText, At, NoDigitFirst, AllDigits, Lengths;
    StandsParts(fmt, i, PrecisionText(g), length + [c]);
    PrecisionRead(fmt, i, g, length + [c], args, n);
    LetterRead(fmt, i + |PrecisionText(g)|, length, c);
  }

  lemma SpelledLength(w: Written)
    ensures |Spelled(w)| ==
            |w.flags| + |WidthText(w.width)| + |PrecisionText(w.precision)| + |w.length| + 1
  {
  }

  lemma FlagsRead(fmt: seq<char>, i: nat, flags: seq<char>, rest: seq<char>) returns (j: nat)
    requires StandsAt(fmt, i, flags) && StandsAt(fmt, i + |flags|, rest) && rest != [] && !IsFlag(rest[0])
    requires AllFlags(flags)
    ensures j == i + |flags| <= |fmt| && FlagsEnd(fmt, i) == j && fmt[i..j] == flags
  {
    j := i + |flags|;
    StandsFirst(fmt, j, rest);
    FlagsRun(fmt, i, flags);
  }

  lemma LetterRead(fmt: seq<char>, i: nat, length: seq<char>, c: char)
    requires StandsAt(fmt, i, length + [c]) && Lengths(length) && c != 'l' && c != 'z'
    ensures i <= LengthEnd(fmt, i) == i + |length| < |fmt| && At(fmt, i + |length|) == c
  {
    StandsParts(fmt, i, length, [c]);
    StandsFirst(fmt, i + |length|, [c]);
    LengthRun(fmt, i, length);
  }

  /** How the parts of a directive begin. */
  lemma Starts(w: Written)
    requires WellWritten(w)
    ensures var tail := w.length + [w.letter];
            var mid := PrecisionText(w.precision) + tail;
            var rest := WidthText(w.width) + mid;
            && NoDigitFirst(tail) && tail[0] != '*' && tail[0] != '.' && w.letter != 'l' && w.letter != 'z'
            && NoDigitFirst(mid) && mid[0] != '*'
            && rest != [] && !IsFlag(rest[0])
  {
    var tail := w.length + [w.letter];
    assert tail[0] == 'l' || tail[0] == 'z' || tail[0] == w.letter;
    LetterFacts(w.letter);
    var mid := PrecisionText(w.precision) + tail;
    assert mid[0] == '.' || mid[0] == tail[0];
    var rest := WidthText(w.width) + mid;
    assert rest[0] == mid[0] || rest[0] == '*' || (w.width.Digits? && rest[0] == w.width.ds[0]);
  }

  lemma LetterFacts(c: char)
    requires c !in "#0- +123456789*.lz"
    ensures !IsNum(c) && !IsFlag(c) && c != '*' && c != '.' && c != 'l' && c != 'z'
  {
    var s := "#0- +123456789*.lz";
    assert s[0] == '#' && s[1] == '0' && s[2] == '-' && s[3] == ' ' && s[4] == '+' && s[5] == '1' && s[6] == '2';
    assert s[7] == '3' && s[8] == '4' && s[9] == '5' && s[10] == '6' && s[11] == '7' && s[12] == '8' && s[13] == '9';
    assert s[14] == '*' && s[15] == '.' && s[16] == 'l' && s[17] == 'z';
  }

  // ----- the field is what the letter asks for -------------------------------------------------------

  lemma FieldLaid(w: Written, d: Directive)
    requires d.left == ('-' in w.flags) && !d.item.Color?
    ensures Laid(w, d.width, Prefix(d), Zeros(d), Data(d), Field(d))
  {
    hide Prefix, Zeros, Data, Fill;
    var body := Body(d);
    assert Fill(' ', d.width - |body|) == Fill(' ', AtLeast0(d.width - |body|)) by {
      FillNone(' ', d.width - |body|);
    }
  }

  lemma FillNone(c: char, k: int)
    ensures Fill(c, k) == Fill(c, AtLeast0(k))
  {
  }

  lemma NumberField(w: Written, d: Directive, prefix: seq<char>, v: nat, base: int)
    requires d.left == ('-' in w.flags) && d.zero == ('0' in w.flags) && Base(base)
    requires Numeric(d) && Prefix(d) == prefix && Data(d) == Numeral(v, base)
    ensures NumberLaid(w, d.width, d.precision, prefix, v, base, Field(d))
  {
    NumeralDenotes(v, base);
    FieldLaid(w, d);
    hide Prefix, Data, Numeral, Field, Laid, ValueOf, Canonical;
    var digits := Data(d);
    assert Zeros(d) == if d.precision >= 0 then AtLeast0(d.precision - |digits|)
                       else if '0' in w.flags && '-' !in w.flags then AtLeast0(d.width - |prefix| - |digits|) else 0;
  }

  lemma CharsField(w: Written, d: Directive, s: seq<char>)
    requires d.left == ('-' in w.flags) && d.item == Chars(CString(s))
    ensures CharsLaid(w, d.width, d.precision, s, Field(d))
  {
    FieldLaid(w, d);
    hide Field, Laid;
    var data := Data(d);
    assert Cut(s, d.precision, data);
  }

  /** The directive's field is what its text and argument ask for. */
  lemma FieldPrints(w: Written, d: Directive, i: nat, args: seq<Arg>, n: nat)
    requires WellWritten(w) && ParsedAs(w, d, i, args, n)
    requires HasArgument(w.letter, args, n + Stars(w.width) + Stars(w.precision))
    ensures Prints(w, d.width, d.precision, args, n + Stars(w.width) + Stars(w.precision), Field(d))
  {
    var k := n + Stars(w.width) + Stars(w.precision);
    Letters(w.letter);
    hide Field, NumberLaid, CharsLaid, Data, Zeros, Spelled, WidthIs, PrecisionIs, IsInt, IsLong;
    if w.letter == 'd' || w.letter == 'i' {
      SignedPrints(w, d, args[k].v);
    } else if w.letter in "uxXp" {
      UnsignedPrints(w, d, args[k].v);
    } else if w.letter == 'C' {
      ColourPrintsNothing(d);
    } else {
      CharsField(w, d, if w.letter == 's' then args[k].s
                       else if w.letter == 'c' then [(args[k].v % 256) as char] else [w.letter]);
    }
  }

  lemma Letters(c: char)
    ensures c in "uxXp" <==> c == 'u' || c == 'x' || c == 'X' || c == 'p'
    ensures c == 'd' || c == 'i' || c == 'u' || c == 'x' || c == 'X' || c == 'p' || c == 'c' || c == 'C'
            ==> c in "diuxXpcC"
    ensures c != '\0' ==> CString([c]) == [c]
  {
    var s, t := "uxXp", "diuxXpcC";
    assert s[0] == 'u' && s[1] == 'x' && s[2] == 'X' && s[3] == 'p';
    assert t[0] == 'd' && t[1] == 'i' && t[2] == 'u' && t[3] == 'x' && t[4] == 'X' && t[5] == 'p';
    assert t[6] == 'c' && t[7] == 'C';
    ShortString(c);
  }

  lemma SignedPrints(w: Written, d: Directive, v: int)
    requires d.left == ('-' in w.flags) && d.zero == ('0' in w.flags)
    requires d.space == (' ' in w.flags) && d.plus == ('+' in w.flags)
    requires d.item == Signed(Wrapped(v, Modulus(w.length != [])))
    ensures var x := d.item.x;
            && (if w.length == [] then IsInt(x, v) else IsLong(x, v))
            && NumberLaid(w, d.width, d.precision,
                          if x < 0 then "-" else if '+' in w.flags then "+" else if ' ' in w.flags then " " else "",
                          if x < 0 then -x else x, 10, Field(d))
  {
    WrappedIs(v);
    hide NumberLaid, Numeral, IsInt, IsLong, Field, Wrapped;
    var x := d.item.x;
    NumberField(w, d, Prefix(d), if x < 0 then -x else x, 10);
  }

  lemma UnsignedPrints(w: Written, d: Directive, v: int)
    requires d.left == ('-' in w.flags) && d.zero == ('0' in w.flags) && d.alt == ('#' in w.flags)
    requires w.letter == 'u' || w.letter == 'x' || w.letter == 'X' || w.letter == 'p'
    requires d.item == ItemOf(w.letter, w.length != [], [Num(v)], 0)
    ensures var u, c := UnsignedOf(w, v), w.letter;
            var marker := if '#' in w.flags && u != 0 then (if c == 'x' then "0x" else "0X") else "";
            if c == 'u' then NumberLaid(w, d.width, d.precision, "", u, 10, Field(d))
            else if c == 'x' then NumberLaid(w, d.width, d.precision, marker, u, -16, Field(d))
            else if c == 'X' then NumberLaid(w, d.width, d.precision, marker, u, 16, Field(d))
            else NumberLaid(w, d.width, d.precision, "0x", v % 0x1_0000_0000_0000_0000, -16, Field(d))
  {
    hide NumberLaid, Numeral, Field;
    NumberField(w, d, Prefix(d), d.item.v, d.item.base);
  }

  /** What a directive prints comes first, then what follows its text and its arguments. */
  lemma ConversionPrints(fmt: seq<char>, i: nat, w: Written, args: seq<Arg>, n: nat)
    returns (text: seq<char>, width: int, precision: int)
    requires StandsAt(fmt, i, "%" + Spelled(w)) && WellWritten(w) && StarsServed(w, args, n)
    requires HasArgument(w.letter, args, n + Stars(w.width) + Stars(w.precision))
    ensures var m := n + Stars(w.width);
            var k := m + Stars(w.precision);
            && WidthIs(w.width, args, n, width) && PrecisionIs(w.precision, args, m, precision)
            && Prints(w, width, precision, args, k, text)
            && Output(fmt, i, args, n) ==
               text + Output(fmt, i + 1 + |Spelled(w)|, args, if w.letter in "diuxXpscC" then k + 1 else k)
  {
    hide Parse, Field, Prints, WidthIs, PrecisionIs, Spelled, Output, StandsAt, WellWritten, StarsServed, HasArgument;
    StandsParts(fmt, i, "%", Spelled(w));
    StandsFirst(fmt, i, "%");
    Parsed(fmt, i + 1, w, args, n);
    var d := Parse(fmt, i + 1, args, n);
    FieldPrints(w, d, i + 1, args, n);
    FieldFirst(fmt, i, args, n);
    text, width, precision := Field(d), d.width, d.precision;
  }

  lemma FieldFirst(fmt: seq<char>, i: nat, args: seq<Arg>, n: nat)
    requires i < |fmt| && fmt[i] == '%'
    ensures var d := Parse(fmt, i + 1, args, n);
            Output(fmt, i, args, n) == Field(d) + Output(fmt, d.next, args, d.used)
  {
    hide Parse, Field;
  }

  // ----- conversions without flags, width and precision ------------------------------------------------

  /** "%d", "%ld" and the like. */
  function Bare(letter: char, long: bool): Written
  {
    Written("", Absent, Absent, if long then "l" else "", letter)
  }

  /** Such a conversion is the whole format: what it prints of its argument, letter by letter. */
  lemma BarePrints(letter: char, long: bool, a: Arg) returns (text: seq<char>)
    requires WellWritten(Bare(letter, long)) && HasArgument(letter, [a], 0)
    ensures text == Output("%" + Spelled(Bare(letter, long)), 0, [a], 0)
    ensures letter == 's' ==> Cut(a.s, -1, text)
    ensures letter == 'c' ==> text == if a.v % 256 == 0 then [] else [(a.v % 256) as char]
    ensures letter == 'd' || letter == 'i' ==>
              if long then IsLong(ReadInt(text), a.v) else IsInt(ReadInt(text), a.v)
    ensures letter == 'u' ==> Canonical(text, 10) && ValueOf(text, 10) == UnsignedOf(Bare(letter, long), a.v)
    ensures letter == 'x' ==> Canonical(text, -16) && ValueOf(text, -16) == UnsignedOf(Bare(letter, long), a.v)
    ensures letter == 'X' ==> Canonical(text, 16) && ValueOf(text, 16) == UnsignedOf(Bare(letter, long), a.v)
    ensures letter == 'p' ==> 2 <= |text| && text[..2] == "0x" && Canonical(text[2..], -16)
                              && ValueOf(text[2..], -16) == a.v % 0x1_0000_0000_0000_0000
    ensures letter !in "diuxXpscC" ==> text == [letter]
  {
    assert letter != '\0';
    hide Output, Spelled, Prints, WellWritten, Cut, IsInt, IsLong, ReadInt, Canonical, ValueOf, UnsignedOf;
    var w := Bare(letter, long);
    var fmt := "%" + Spelled(w);
    assert fmt[0..|fmt|] == fmt;
    var width, precision;
    text, width, precision := ConversionPrints(fmt, 0, w, [a], 0);
    NothingLeft(fmt, [a], if letter in "diuxXpscC" then 1 else 0);
    assert text + [] == text;
    hide HasArgument;
    BareMeans(letter, long, a, text);
  }

  lemma BareMeans(letter: char, long: bool, a: Arg, text: seq<char>)
    requires letter != '\0' && HasArgument(letter, [a], 0) && Prints(Bare(letter, long), -1, -1, [a], 0, text)
    ensures letter == 's' ==> Cut(a.s, -1, text)
    ensures letter == 'c' ==> text == if a.v % 256 == 0 then [] else [(a.v % 256) as char]
    ensures letter == 'd' || letter == 'i' ==>
              if long then IsLong(ReadInt(text), a.v) else IsInt(ReadInt(text), a.v)
    ensures letter == 'u' ==> Canonical(text, 10) && ValueOf(text, 10) == UnsignedOf(Bare(letter, long), a.v)
    ensures letter == 'x' ==> Canonical(text, -16) && ValueOf(text, -16) == UnsignedOf(Bare(letter, long), a.v)
    ensures letter == 'X' ==> Canonical(text, 16) && ValueOf(text, 16) == UnsignedOf(Bare(letter, long), a.v)
    ensures letter == 'p' ==> 2 <= |text| && text[..2] == "0x" && Canonical(text[2..], -16)
                              && ValueOf(text[2..], -16) == a.v % 0x1_0000_0000_0000_0000
    ensures letter !in "diuxXpscC" ==> text == [letter]
  {
    hide Prints, Cut, IsInt, IsLong, ReadInt, Canonical, ValueOf, UnsignedOf;
    Letters(letter);
    if letter == 'd' || letter == 'i' {
      BareInteger(letter, long, a, text);
    } else if letter == 'u' || letter == 'x' || letter == 'X' || letter == 'p' {
      BareUnsigned(letter, long, a, text);
    } else {
      BareText(letter, long, a, text);
    }
  }

  lemma BareInteger(letter: char, long: bool, a: Arg, text: seq<char>)
    requires letter == 'd' || letter == 'i'
    requires HasArgument(letter, [a], 0) && Prints(Bare(letter, long), -1, -1, [a], 0, text)
    ensures if long then IsLong(ReadInt(text), a.v) else IsInt(ReadInt(text), a.v)
  {
    hide NumberLaid, CharsLaid, ReadInt, ValueOf, Canonical, IsInt, IsLong;
    var w := Bare(letter, long);
    var x :| && (if w.length == [] then IsInt(x, a.v) else IsLong(x, a.v))
             && NumberLaid(w, -1, -1, if x < 0 then "-" else "", if x < 0 then -x else x, 10, text);
    BareNumber(w, if x < 0 then "-" else "", if x < 0 then -x else x, 10, text);
    BareSigned(text, x);
  }

  lemma BareUnsigned(letter: char, long: bool, a: Arg, text: seq<char>)
    requires letter == 'u' || letter == 'x' || letter == 'X' || letter == 'p'
    requires HasArgument(letter, [a], 0) && Prints(Bare(letter, long), -1, -1, [a], 0, text)
    ensures letter == 'u' ==> Canonical(text, 10) && ValueOf(text, 10) == UnsignedOf(Bare(letter, long), a.v)
    ensures letter == 'x' ==> Canonical(text, -16) && ValueOf(text, -16) == UnsignedOf(Bare(letter, long), a.v)
    ensures letter == 'X' ==> Canonical(text, 16) && ValueOf(text, 16) == UnsignedOf(Bare(letter, long), a.v)
    ensures letter == 'p' ==> 2 <= |text| && text[..2] == "0x" && Canonical(text[2..], -16)
                              && ValueOf(text[2..], -16) == a.v % 0x1_0000_0000_0000_0000
  {
    hide NumberLaid, CharsLaid, ValueOf, Canonical;
    var w := Bare(letter, long);
    if letter == 'p' {
      BareNumber(w, "0x", a.v % 0x1_0000_0000_0000_0000, -16, text);
    } else {
      BareNumber(w, "", UnsignedOf(w, a.v), if letter == 'u' then 10 else if letter == 'x' then -16 else 16, text);
      assert text[0..] == text;
    }
  }

  lemma BareText(letter: char, long: bool, a: Arg, text: seq<char>)
    requires letter !in "diuxXp" && letter != '\0'
    requires HasArgument(letter, [a], 0) && Prints(Bare(letter, long), -1, -1, [a], 0, text)
    ensures letter == 's' ==> Cut(a.s, -1, text)
    ensures letter == 'c' ==> text == if a.v % 256 == 0 then [] else [(a.v % 256) as char]
    ensures letter !in "diuxXpscC" ==> text == [letter]
  {
    hide CharsLaid, NumberLaid, Cut;
    var w := Bare(letter, long);
    Letters(letter);
    Others(letter);
    if letter != 'C' {
      BareChars(w, if letter == 's' then a.s else if letter == 'c' then [(a.v % 256) as char] else [letter], text);
    }
  }

  lemma Others(c: char)
    requires c !in "diuxXp"
    ensures c != 'd' && c != 'i' && c != 'u' && c != 'x' && c != 'X' && c != 'p'
  {
    var s := "diuxXp";
    assert s[0] == 'd' && s[1] == 'i' && s[2] == 'u' && s[3] == 'x' && s[4] == 'X' && s[5] == 'p';
  }

  lemma NothingLeft(fmt: seq<char>, args: seq<Arg>, n: nat)
    ensures Output(fmt, |fmt|, args, n) == []
  {
  }

  lemma BareNumber(w: Written, prefix: seq<char>, v: nat, base: int, text: seq<char>)
    requires w.flags == "" && NumberLaid(w, -1, -1, prefix, v, base, text)
    ensures |prefix| <= |text| && text[..|prefix|] == prefix
    ensures Canonical(text[|prefix|..], base) && ValueOf(text[|prefix|..], base) == v
  {
    hide Canonical, ValueOf;
    var digits :| Canonical(digits, base) && ValueOf(digits, base) == v && Laid(w, -1, prefix, 0, digits, text);
    NoFill();
    assert text == prefix + digits;
  }

  lemma BareSigned(text: seq<char>, x: int)
    requires var p := if x < 0 then "-" else "";
             && |p| <= |text| && text[..|p|] == p
             && Canonical(text[|p|..], 10) && ValueOf(text[|p|..], 10) == if x < 0 then -x else x
    ensures ReadInt(text) == x
  {
    hide ReadInt, ValueOf;
    var p := if x < 0 then "-" else "";
    var digits := text[|p|..];
    assert text == p + (digits + []);
    SignedDigits(p, digits, []);
  }

  lemma BareChars(w: Written, s: seq<char>, text: seq<char>)
    requires w.flags == "" && CharsLaid(w, -1, -1, s, text)
    ensures Cut(s, -1, text)
    ensures |s| == 1 ==> text == if s[0] == '\0' then [] else s
  {
    var data :| Cut(s, -1, data) && Laid(w, -1, "", 0, data, text);
    NoFill();
    assert text == data;
    if |s| == 1 {
      assert |data| == 1 ==> data == [s[0]] && s[0] in data;
    }
  }

  /** A percent sign at the end of the format prints itself. */
  lemma PercentAtEnd(fmt: seq<char>, i: nat, args: seq<Arg>, n: nat)
    requires i + 1 == |fmt| && fmt[i] == '%'
    ensures Output(fmt, i, args, n) == "%"
  {
    var d := Parse(fmt, i + 1, args, n);
    assert fmt[i + 1..i + 1] == [];
    ShortString('%');
    assert d == Directive(false, false, false, false, false, -1, -1, Chars("%"), i + 1, n);
    assert Fill(' ', -2) == [] && Fill('0', 0) == [];
    assert Body(d) == "%";
    assert Field(d) == "%";
    assert Output(fmt, i + 1, args, n) == [];
  }
}
