/** What a directive prints, said of the text alone: where its padding is, what its digits read as, and which argument it
    shows. */
module FormatAnswers {
  import opened FormatSpec
  import opened FormatLaws

  // ----- print_number

  /** The sign shown: a minus for negative numbers, else what the flags ask for; unsigned conversions show none. */
  predicate Shows(sg: string, negative: bool, f: Flags) {
    && (sg == "-" <==> f.sign && negative)
    && (sg == "+" <==> f.sign && !negative && f.plus)
    && (sg == " " <==> f.sign && !negative && !f.plus && f.space)
    && (sg == "" || sg == "-" || sg == "+" || sg == " ")
  }

  /** `text` is padding, sign, digits and padding: the digits read as the value without its sign in the base given, there
      are at least as many as the precision asks for and no zeros in front but those and the ones that fill the field;
      the field is filled on the one side the flags name and nowhere else, and only as far as the width asks. */
  ghost predicate Prints(text: string, value: int, base: nat, width: int, precision: int, f: Flags,
                         a: nat, sg: string, ds: string, b: nat) {
    && text == Repeat(' ', a) + sg + ds + Repeat(' ', b)
    && Shows(sg, value < 0, f)
    && Reads(ds, base) && Parse(ds, base) == (if value < 0 then -value else value)
    && |ds| >= precision && (width > 0 ==> |text| >= width)
    && (ds[0] == '0' && |ds| > 1 ==> |ds| == precision || (f.zeroPad && !f.left && |text| == width))
    && (a > 0 ==> !f.left && !f.zeroPad && |text| == width)
    && (b > 0 ==> f.left && |text| == width)
  }

  /** The value a word stands for. */
  function ValueOf(w: nat, f: Flags): int {
    if f.sign && w >= 0x8000_0000 then w - WORD else w
  }

  lemma {:induction false} ParseZeros(n: nat, s: string, base: nat)
    ensures Parse(Repeat('0', n) + s, base) == Parse(s, base)
    decreases n + |s|
  {
    var t := Repeat('0', n) + s;
    if s != "" {
      assert t[..|t| - 1] == Repeat('0', n) + s[..|s| - 1];
      ParseZeros(n, s[..|s| - 1], base);
    } else if n > 0 {
      assert t == Repeat('0', n) && t[..|t| - 1] == Repeat('0', n - 1) + "";
      ParseZeros(n - 1, "", base);
    }
  }

  lemma ZerosRead(n: int, s: string, base: nat)
    requires Reads(s, base) && base > 0
    ensures Reads(Repeat('0', n) + s, base) && Parse(Repeat('0', n) + s, base) == Parse(s, base)
    ensures n <= 0 ==> Repeat('0', n) + s == s
  {
    ParseZeros(if n > 0 then n else 0, s, base);
    assert Repeat('0', n) == Repeat('0', if n > 0 then n else 0);
  }

  lemma DigitsRead(n: nat, base: nat, large: bool)
    ensures var s := NumberDigits(n, base, large); Reads(s, Divisor(base)) && Parse(s, Divisor(base)) == n && (|s| > 1 ==> s[0] != '0')
  {
    DigitsParse(n, base, large);
    assert Parse("0", Divisor(base)) == 0 by { assert "0"[..0] == ""; }
  }

  lemma SignShows(w: nat, f: Flags)
    requires w < WORD
    ensures Shows(SignOf(w, f), ValueOf(w, f) < 0, f)
    ensures Magnitude(w, f) == if ValueOf(w, f) < 0 then -ValueOf(w, f) else ValueOf(w, f)
  {
  }

  /** Zeros for the precision and the digits of a number, and how many they are. */
  function Body(n: nat, base: nat, precision: int, f: Flags): string {
    var digits := NumberDigits(n, base, f.large);
    Repeat('0', precision - |digits|) + digits
  }

  lemma BodyReads(n: nat, base: nat, precision: int, f: Flags)
    ensures var (s, k) := (Body(n, base, precision, f), |NumberDigits(n, base, f.large)|);
            && Reads(s, Divisor(base)) && Parse(s, Divisor(base)) == n
            && |s| == (if k > precision then k else precision) && k > 0
            && (s[0] == '0' && |s| > 1 ==> |s| == precision)
  {
    hide Reads, Parse, NumberDigits, Divisor;
    var digits := NumberDigits(n, base, f.large);
    DigitsRead(n, base, f.large);
    NotEmpty(digits, Divisor(base));
    DivisorPositive(base);
    ZerosRead(precision - |digits|, digits, Divisor(base));
  }

  /** print_number, for every word, width and precision but zero. */
  lemma NumberPrints(w: nat, base: nat, width: int, precision: int, f: Flags) returns (a: nat, ds: string, b: nat)
    requires w < WORD && precision != 0
    ensures Prints(Number(w, base, width, precision, f), ValueOf(w, f), Divisor(base), width, precision, f, a, SignOf(w, f), ds, b)
  {
    hide Reads, Parse, Shows, NumberDigits, Magnitude, SignOf, ValueOf, Divisor, Prints, Body;
    SignShows(w, f);
    var sign, body := SignOf(w, f), Body(Magnitude(w, f), base, precision, f);
    BodyReads(Magnitude(w, f), base, precision, f);
    var room := width - |body| - |sign|;
    NumberIs(w, base, width, precision, f);
    a, ds, b := if !f.left && !f.zeroPad && room > 0 then room else 0, body, if f.left && room > 0 then room else 0;
    if !f.left && f.zeroPad && room > 0 {
      ds := Repeat('0', room) + body;
      DivisorPositive(base);
      ZerosRead(room, body, Divisor(base));
    }
    Assembled(w, base, width, precision, f, a, sign, ds, b);
  }

  lemma NumberIs(w: nat, base: nat, width: int, precision: int, f: Flags)
    requires precision != 0
    ensures var (sign, body) := (SignOf(w, f), Body(Magnitude(w, f), base, precision, f));
            var room := width - |body| - |sign|;
            Number(w, base, width, precision, f) ==
              if f.left then sign + body + Repeat(' ', room)
              else if f.zeroPad then sign + (Repeat('0', room) + body)
              else Repeat(' ', room) + sign + body
  {
    hide NumberDigits, Magnitude, SignOf;
    var digits, room := NumberDigits(Magnitude(w, f), base, f.large), width - |Body(Magnitude(w, f), base, precision, f)| - |SignOf(w, f)|;
    var total := if |digits| > precision then |digits| else precision;
    SameZeros(total - |digits|, precision - |digits|);
    assert SignOf(w, f) + Repeat('0', room) + Body(Magnitude(w, f), base, precision, f)
        == SignOf(w, f) + (Repeat('0', room) + Body(Magnitude(w, f), base, precision, f));
  }

  lemma SameZeros(n: int, m: int)
    requires n == m || (n <= 0 && m <= 0)
    ensures Repeat('0', n) == Repeat('0', m) && Repeat(' ', n) == Repeat(' ', m)
  {
  }

  lemma Assembled(w: nat, base: nat, width: int, precision: int, f: Flags, a: nat, sg: string, ds: string, b: nat)
    requires sg == SignOf(w, f) && Shows(sg, ValueOf(w, f) < 0, f)
    requires Reads(ds, Divisor(base)) && Parse(ds, Divisor(base)) == if ValueOf(w, f) < 0 then -ValueOf(w, f) else ValueOf(w, f)
    requires precision != 0
    requires var body := Body(Magnitude(w, f), base, precision, f);
             var room := width - |body| - |sg|;
             && body != "" && |body| >= precision && (body[0] == '0' && |body| > 1 ==> |body| == precision)
             && a == (if !f.left && !f.zeroPad && room > 0 then room else 0) && b == (if f.left && room > 0 then room else 0)
             && ds == (if !f.left && f.zeroPad && room > 0 then Repeat('0', room) + body else body)
             && Number(w, base, width, precision, f) == (if f.left then sg + body + Repeat(' ', room)
                                                         else if f.zeroPad then sg + (Repeat('0', room) + body)
                                                         else Repeat(' ', room) + sg + body)
    ensures Prints(Number(w, base, width, precision, f), ValueOf(w, f), Divisor(base), width, precision, f, a, sg, ds, b)
  {
    hide Reads, Parse, Shows, NumberDigits, Magnitude, SignOf, ValueOf, Divisor, Number, Body, Repeat;
    var body := Body(Magnitude(w, f), base, precision, f);
    var room := width - |body| - |sg|;
    RepeatLength(room);
    RepeatLength(a);
    RepeatLength(b);
    SameZeros(if room > 0 then room else 0, room);
    Laid(sg, body, ds, room, a, b, f, Number(w, base, width, precision, f));
  }

  lemma RepeatLength(n: int)
    ensures |Repeat(' ', n)| == |Repeat('0', n)| == if n > 0 then n else 0
    ensures n <= 0 ==> Repeat(' ', n) == Repeat('0', n) == ""
    ensures forall i :: 0 <= i < |Repeat('0', n)| ==> Repeat('0', n)[i] == '0'
  {
  }

  lemma Laid(sg: string, body: string, ds: string, room: int, a: nat, b: nat, f: Flags, text: string)
    requires a == (if !f.left && !f.zeroPad && room > 0 then room else 0) && b == (if f.left && room > 0 then room else 0)
    requires ds == (if !f.left && f.zeroPad && room > 0 then Repeat('0', room) + body else body)
    requires text == if f.left then sg + body + Repeat(' ', room)
                     else if f.zeroPad then sg + (Repeat('0', room) + body)
                     else Repeat(' ', room) + sg + body
    ensures text == Repeat(' ', a) + sg + ds + Repeat(' ', b)
  {
    hide Repeat;
    RepeatLength(0);
    RepeatLength(room);
    SameZeros(if room > 0 then room else 0, room);
    assert "" + body == body && sg + body + "" == sg + body && "" + sg == sg && "" + sg + ds + "" == sg + ds;
    assert Repeat(' ', room) + sg + body + "" == Repeat(' ', room) + sg + body;
  }

  /** With precision zero a number shows its sign and its padding but none of its digits. */
  lemma NumberWithoutDigits(w: nat, base: nat, width: int, f: Flags) returns (a: nat, z: nat, b: nat)
    ensures Number(w, base, width, 0, f) == Repeat(' ', a) + SignOf(w, f) + Repeat('0', z) + Repeat(' ', b)
    ensures (a > 0 ==> !f.left && !f.zeroPad) && (z > 0 ==> f.zeroPad && !f.left) && (b > 0 ==> f.left)
  {
    hide NumberDigits, Magnitude, SignOf, Repeat;
    var k := |NumberDigits(Magnitude(w, f), base, f.large)|;
    var room := width - k - |SignOf(w, f)|;
    var n: nat := if room > 0 then room else 0;
    RepeatLength(0);
    SameZeros(n, room);
    a, z, b := if f.left || f.zeroPad then 0 else n, if f.zeroPad && !f.left then n else 0, if f.left then n else 0;
    var sign := SignOf(w, f);
    assert Repeat('0', k - k) == "" && "" + sign == sign && sign + "" == sign && sign + ("" + "") == sign;
    assert Repeat(' ', n) + sign + ("" + "") == Repeat(' ', n) + sign + "" + "";
    assert sign + Repeat('0', n) + ("" + "") == "" + sign + Repeat('0', n) + "";
    assert sign + ("" + "") + Repeat(' ', n) == "" + sign + "" + Repeat(' ', n);
  }

  lemma NotEmpty(s: string, base: nat)
    requires Reads(s, base)
    ensures |s| > 0
  {
  }

  lemma DivisorPositive(base: nat)
    ensures Divisor(base) == if base == 10 then 10 else 16
  {
  }

  predicate LowerHex(c: char) {
    'a' <= c <= 'f'
  }

  predicate UpperHex(c: char) {
    'A' <= c <= 'F'
  }

  /** Letters among the digits are of one case. */
  predicate OneCase(s: string, large: bool) {
    forall i :: 0 <= i < |s| ==> if large then !LowerHex(s[i]) else !UpperHex(s[i])
  }

  lemma {:induction false} DigitsCase(n: nat, base: nat, large: bool)
    ensures OneCase(Digits(n, base, large), large)
    decreases n
  {
    if n > 0 { DigitsCase(n / Divisor(base), base, large); }
  }

  lemma NumberCase(w: nat, base: nat, width: int, precision: int, f: Flags)
    ensures OneCase(Number(w, base, width, precision, f), f.large)
  {
    hide Magnitude;
    DigitsCase(Magnitude(w, f), base, f.large);
    hide Digits;
    var digits := NumberDigits(Magnitude(w, f), base, f.large);
    assert OneCase(digits, f.large) && OneCase(SignOf(w, f), f.large);
    hide NumberDigits, SignOf;
    var text := Number(w, base, width, precision, f);
    CaseOfParts(text, w, base, width, precision, f);
  }

  lemma CaseOfParts(text: string, w: nat, base: nat, width: int, precision: int, f: Flags)
    requires text == Number(w, base, width, precision, f)
    requires OneCase(NumberDigits(Magnitude(w, f), base, f.large), f.large) && OneCase(SignOf(w, f), f.large)
    ensures OneCase(text, f.large)
  {
    hide NumberDigits, SignOf, Magnitude;
    forall x: string, y: string | OneCase(x, f.large) && OneCase(y, f.large) ensures OneCase(x + y, f.large) {}
    forall n: int ensures OneCase(Repeat(' ', n), f.large) && OneCase(Repeat('0', n), f.large) {}
    hide OneCase, Repeat;
  }

  // ----- conversions

  /** `value` is the signed or unsigned number of the given width that agrees with the word. */
  predicate Means(value: int, w: nat, modulus: nat, signed: bool)
    requires modulus > 0
  {
    && (value - w) % modulus == 0
    && if signed then -(modulus / 2) <= value < modulus - modulus / 2 else 0 <= value < modulus
  }

  /** The flags of a field come from the format, which names neither sign nor case. */
  predicate Plain(f: Flags) {
    !f.sign && !f.large
  }

  /** Conversions d, i, u, x, X and o: the next argument, cut to 16 bits by the qualifier h, as a signed number for d and
      i; in base 10 or, for x, X and o, in base 16, with capital letters for X alone. */
  lemma NumericPrints(d: Field, q: char, c: char, w: nat) returns (value: int, a: nat, sg: string, ds: string, b: nat)
    requires IsNumeric(c) && d.precision != 0 && d.args != [] && d.args[0] == Word(w) && w < WORD && Plain(d.flags)
    ensures var (signed, text) := (c == 'd' || c == 'i', Converted(d, q, c).0);
            && Means(value, w, if q == 'h' then 0x1_0000 else WORD, signed)
            && Prints(text, value, if c == 'x' || c == 'X' || c == 'o' then 16 else 10, d.width, d.precision,
                      d.flags.(sign := signed), a, sg, ds, b)
            && OneCase(text, c == 'X') && Converted(d, q, c).1 == d.args[1..]
  {
    hide Number, Reads, Parse, OneCase;
    var f := TypeOf(d.flags, c);
    var v := if q == 'h' then Half(w, f.sign) else w;
    a, ds, b := NumberPrints(v, BaseOf(c), d.width, d.precision, f);
    sg, value := SignOf(v, f), ValueOf(v, f);
    NumberCase(v, BaseOf(c), d.width, d.precision, f);
    HalfMeans(w, f.sign);
  }

  lemma HalfMeans(w: nat, signed: bool)
    requires w < WORD
    ensures Half(w, signed) < WORD
    ensures Means(if signed && Half(w, signed) >= 0x8000_0000 then Half(w, signed) - WORD else Half(w, signed), w, 0x1_0000, signed)
  {
  }

  /** Conversion p: the next argument in base 16, eight digits unless a width is given. */
  lemma PointerPrints(d: Field, q: char, w: nat) returns (a: nat, sg: string, ds: string, b: nat)
    requires d.precision != 0 && d.args != [] && d.args[0] == Word(w) && w < WORD && Plain(d.flags)
    ensures var f := if d.width == -1 then d.flags.(zeroPad := true) else d.flags;
            && Prints(Converted(d, q, 'p').0, w, 16, if d.width == -1 then 8 else d.width, d.precision, f, a, sg, ds, b)
            && Converted(d, q, 'p').1 == d.args[1..]
  {
    hide Number, Reads, Parse;
    var f := if d.width == -1 then d.flags.(zeroPad := true) else d.flags;
    sg := SignOf(w, f);
    a, ds, b := NumberPrints(w, 16, if d.width == -1 then 8 else d.width, d.precision, f);
  }

  function Wider(width: int, n: nat): nat {
    if width > n then width else n
  }

  predicate Blank(s: string) {
    forall i :: 0 <= i < |s| ==> s[i] == ' '
  }

  /** `text` shows `s` in a field: at its end, or at its start when the field is left-justified. */
  predicate InField(text: string, s: string, width: int, left: bool) {
    && |text| == Wider(width, |s|)
    && if left then s <= text && Blank(text[|s|..]) else text[|text| - |s|..] == s && Blank(text[..|text| - |s|])
  }

  lemma PaddedInField(s: string, width: int, left: bool)
    ensures InField(Padded(s, width - |s|, left), s, width, left)
  {
    var text := Padded(s, width - |s|, left);
    if left { assert text[..|s|] == s; } else { assert text[|text| - |s|..] == s; }
  }

  /** Conversion c: the low byte of the next argument as one character. */
  lemma CharPrints(d: Field, q: char, w: nat)
    requires d.args != [] && d.args[0] == Word(w) && w < WORD
    ensures InField(Converted(d, q, 'c').0, [(w % 256) as char], d.width, d.flags.left) && Converted(d, q, 'c').1 == d.args[1..]
  {
    PaddedInField([(w % 256) as char], d.width, d.flags.left);
    hide Padded, InField;
  }

  /** Conversion s: the next argument, cut to the precision when that is positive, and a fixed text for the null
      pointer. */
  lemma TextPrints(d: Field, q: char)
    requires d.args != [] && !d.args[0].Word?
    ensures var s := if d.args[0].Text? then d.args[0].s else "(NULL)";
            exists n :: 0 <= n <= |s| && (n == |s| || n == d.precision) && (d.precision > 0 ==> n <= d.precision)
                        && (d.precision <= 0 ==> n == |s|)
                        && InField(Converted(d, q, 's').0, s[..n], d.width, d.flags.left)
    ensures Converted(d, q, 's').1 == d.args[1..]
  {
    var s := if d.args[0].Text? then d.args[0].s else "(NULL)";
    var n := if d.precision > 0 && |s| > d.precision then d.precision else |s|;
    assert s[..n] == Cut(s, d.precision);
    PaddedInField(s[..n], d.width, d.flags.left);
    hide Padded, InField;
    assert InField(Converted(d, q, 's').0, s[..n], d.width, d.flags.left);
  }

  /** A percent sign stands for itself; a directive the formatter does not know comes out as it is. Neither takes an
      argument. */
  lemma OtherPrints(d: Field, q: char, c: char)
    requires c != 'c' && c != 's' && c != 'p' && !IsNumeric(c)
    ensures Converted(d, q, c) == (if c == '%' || c == '\0' then "%" else ['%', c], d.args)
  {
  }

  // ----- flags, width and precision

  /** What is known of the flags when those of `seen` have been read on top of f. */
  predicate Collected(g: Flags, f: Flags, seen: string) {
    && (g.left <==> f.left || '-' in seen) && (g.plus <==> f.plus || '+' in seen)
    && (g.space <==> f.space || ' ' in seen) && (g.zeroPad <==> f.zeroPad || '0' in seen)
    && g.sign == f.sign && g.large == f.large
  }

  /** Flags are read as far as they go, in any order, and each counts however often it is given. */
  lemma {:induction false} FlagsRead(fmt: string, i: nat, f: Flags)
    requires i <= |fmt|
    ensures var (g, j) := ReadFlags(fmt, i, f);
            && i <= j <= |fmt| && (forall k :: i <= k < j ==> IsFlag(fmt[k])) && (j < |fmt| ==> !IsFlag(fmt[j]))
            && Collected(g, f, fmt[i..j])
    decreases |fmt| - i
  {
    hide SetFlag, IsFlag, Collected;
    if i < |fmt| && IsFlag(fmt[i]) {
      var g := SetFlag(f, fmt[i]);
      FlagsRead(fmt, i + 1, g);
      var (r, j) := ReadFlags(fmt, i, f);
      assert fmt[i..j] == [fmt[i]] + fmt[i + 1..j];
      OneMore(r, g, f, fmt[i], fmt[i + 1..j]);
    } else {
      assert fmt[i..i] == "";
      NoneYet(f);
    }
  }

  lemma NoneYet(f: Flags)
    ensures Collected(f, f, "")
  {
  }

  lemma OneMore(r: Flags, g: Flags, f: Flags, c: char, seen: string)
    requires g == SetFlag(f, c) && Collected(r, g, seen)
    ensures Collected(r, f, [c] + seen)
  {
    HasOne('-', c, seen);
    HasOne('+', c, seen);
    HasOne(' ', c, seen);
    HasOne('0', c, seen);
  }

  lemma HasOne(x: char, c: char, seen: string)
    ensures x in [c] + seen <==> x == c || x in seen
  {
  }

  lemma {:induction false} ParseFirst(s: string, base: nat, n: nat)
    requires s != ""
    ensures ParseFrom(n, s, base) == ParseFrom(n * base + DigitValue(s[0]), s[1..], base)
    decreases |s|
  {
    if |s| > 1 {
      var t := s[..|s| - 1];
      ParseFirst(t, base, n);
      assert s[1..][..|s[1..]| - 1] == t[1..];
    }
  }

  /** Reading digits on top of a number read before. */
  function ParseFrom(n: nat, s: string, base: nat): nat {
    if s == "" then n else ParseFrom(n, s[..|s| - 1], base) * base + DigitValue(s[|s| - 1])
  }

  lemma {:induction false} ParseFromZero(s: string, base: nat)
    ensures ParseFrom(0, s, base) == Parse(s, base)
  {
    if s != "" { ParseFromZero(s[..|s| - 1], base); }
  }

  lemma {:induction false} ReadsOn(fmt: string, i: nat, n: nat)
    requires i <= |fmt|
    ensures var (m, j) := ReadNumber(fmt, i, n);
            && i <= j <= |fmt| && (forall k :: i <= k < j ==> IsDigit(fmt[k])) && (j < |fmt| ==> !IsDigit(fmt[j]))
            && m == ParseFrom(n, fmt[i..j], 10)
    decreases |fmt| - i
  {
    if i < |fmt| && IsDigit(fmt[i]) {
      var v := fmt[i] as nat - '0' as nat;
      ReadsOn(fmt, i + 1, n * 10 + v);
      var j := ReadNumber(fmt, i, n).1;
      ParseFirst(fmt[i..j], 10, n);
      assert fmt[i..j][1..] == fmt[i + 1..j];
    } else {
      assert fmt[i..i] == "";
    }
  }

  /** skip_atoi reads the decimal number that stands there. */
  lemma AtoiReads(fmt: string, i: nat)
    requires i <= |fmt|
    ensures var (m, j) := ReadNumber(fmt, i, 0);
            && i <= j <= |fmt| && (forall k :: i <= k < j ==> IsDigit(fmt[k])) && (j < |fmt| ==> !IsDigit(fmt[j]))
            && m == Parse(fmt[i..j], 10)
  {
    ReadsOn(fmt, i, 0);
    ParseFromZero(fmt[i..ReadNumber(fmt, i, 0).1], 10);
  }

  /** skip_atoi reads back what print_number prints. */
  lemma AtoiReadsBack(n: nat, rest: string)
    requires rest != "" ==> !IsDigit(rest[0])
    ensures ReadNumber(NumberDigits(n, 10, false) + rest, 0, 0) == (n, |NumberDigits(n, 10, false)|)
  {
    var ds := NumberDigits(n, 10, false);
    var fmt := ds + rest;
    hide NumberDigits;
    DigitsRead(n, 10, false);
    AtoiReads(fmt, 0);
    var j := ReadNumber(fmt, 0, 0).1;
    DecimalDigits(ds);
    assert rest != "" ==> fmt[|ds|] == rest[0];
    assert forall k :: 0 <= k < |ds| ==> fmt[k] == ds[k];
    assert fmt[..|ds|] == ds;
  }

  lemma DecimalDigits(s: string)
    requires Reads(s, 10)
    ensures forall i :: 0 <= i < |s| ==> IsDigit(s[i])
  {
  }

  /** Width: a number, or an argument of which a negative one also means left-justified, or none. */
  lemma WidthRead(fmt: string, i: nat, f: Flags, args: seq<Arg>)
    requires i <= |fmt|
    ensures var (g, width, j, rest) := ReadWidth(fmt, i, f, args);
            if i < |fmt| && IsDigit(fmt[i]) then
              && i < j <= |fmt| && (forall k :: i <= k < j ==> IsDigit(fmt[k])) && (j < |fmt| ==> !IsDigit(fmt[j]))
              && width == Parse(fmt[i..j], 10) && g == f && rest == args
            else if i < |fmt| && fmt[i] == '*' then
              && j == i + 1
              && (args != [] && args[0].Word? && args[0].w < WORD ==>
                    var n := if args[0].w >= 0x8000_0000 then args[0].w - WORD else args[0].w;
                    && width == (if n < 0 then -n else n) && g == f.(left := f.left || n < 0) && rest == args[1..])
            else width == -1 && g == f && j == i && rest == args
  {
    AtoiReads(fmt, i);
    if i < |fmt| && IsDigit(fmt[i]) { ReadsOne(fmt, i); }
  }

  lemma ReadsOne(fmt: string, i: nat)
    requires i < |fmt| && IsDigit(fmt[i])
    ensures ReadNumber(fmt, i, 0).1 > i
  {
  }

  /** Precision: behind a period a number, or an argument of which a negative one counts as zero, or zero; without a
      period none. */
  lemma PrecisionRead(fmt: string, i: nat, args: seq<Arg>)
    requires i <= |fmt|
    ensures var (precision, j, rest) := ReadPrecision(fmt, i, args);
            if i == |fmt| || fmt[i] != '.' then precision == -1 && j == i && rest == args
            else if i + 1 < |fmt| && IsDigit(fmt[i + 1]) then
              && i + 1 < j <= |fmt| && (forall k :: i + 1 <= k < j ==> IsDigit(fmt[k])) && (j < |fmt| ==> !IsDigit(fmt[j]))
              && precision == Parse(fmt[i + 1..j], 10) && rest == args
            else if i + 1 < |fmt| && fmt[i + 1] == '*' then
              && j == i + 2
              && (args != [] && args[0].Word? && args[0].w < WORD ==>
                    precision == (if args[0].w >= 0x8000_0000 then 0 else args[0].w) && rest == args[1..])
            else precision == 0 && j == i + 1 && rest == args
  {
    if i < |fmt| { AtoiReads(fmt, i + 1); }
    if i + 1 < |fmt| && IsDigit(fmt[i + 1]) { ReadsOne(fmt, i + 1); }
  }

  // ----- the whole format

  /** Text up to the next percent sign comes out as it is, whatever follows. */
  lemma {:induction false} PlainPrefix(fmt: string, i: nat, j: nat, args: seq<Arg>)
    requires i <= j <= |fmt| && forall k :: i <= k < j ==> fmt[k] != '%' && fmt[k] != '\0'
    ensures Format(fmt, i, args) == fmt[i..j] + Format(fmt, j, args)
    decreases j - i
  {
    hide ReadField, Converted, Qualifier;
    if i < j {
      PlainPrefix(fmt, i + 1, j, args);
      assert fmt[i..j] == [fmt[i]] + fmt[i + 1..j];
    } else {
      assert fmt[i..j] == "";
    }
  }

  /** A directive without flags, width, precision and qualifier in the middle of a format: the text in front of it, what
      it prints, and then the rest of the format with the arguments that are left. */
  lemma SimpleDirective(fmt: string, i: nat, args: seq<Arg>)
    requires i + 1 < |fmt| && fmt[i] == '%' && forall k :: 0 <= k < i ==> fmt[k] != '%' && fmt[k] != '\0'
    requires var c := fmt[i + 1]; !IsFlag(c) && !IsDigit(c) && c != '*' && c != '.' && c != 'h' && c != 'l' && c != '\0'
    ensures var (text, rest) := Converted(Field(NO_FLAGS, -1, -1, i + 1, args), '\0', fmt[i + 1]);
            Format(fmt, 0, args) == fmt[..i] + (text + Format(fmt, i + 2, rest))
  {
    PlainPrefix(fmt, 0, i, args);
    hide Converted;
    assert fmt[0..i] == fmt[..i];
  }
}
