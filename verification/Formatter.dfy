/** rt_vsnprintf and the routines under it, writing through a bounded buffer: a character is stored only while the
    position is inside, but the position always moves on. */
module Formatter {
  import opened FormatSpec
  import opened FormatLaws

  /** The buffer after `text` has been written to its first `size` characters. */
  function Filled(orig: seq<char>, size: nat, text: string): (s: seq<char>)
    requires size <= |orig|
    ensures |s| == |orig|
  {
    if |text| <= size then text + orig[|text|..] else text[..size] + orig[size..]
  }

  lemma FilledPut(orig: seq<char>, size: nat, text: string, c: char)
    requires size <= |orig|
    ensures |text| < size ==> Filled(orig, size, text + [c]) == Filled(orig, size, text)[|text| := c]
    ensures |text| >= size ==> Filled(orig, size, text + [c]) == Filled(orig, size, text)
  {
  }

  /** Stores one character if it falls inside the buffer; the position moves on either way. */
  method Put(buf: array<char>, size: nat, str: nat, c: char, ghost orig: seq<char>, ghost text: string) returns (next: nat)
    requires size <= buf.Length == |orig| && buf[..] == Filled(orig, size, text) && str == |text|
    modifies buf
    ensures buf[..] == Filled(orig, size, text + [c]) && next == |text + [c]|
  {
    FilledPut(orig, size, text, c);
    if str < size { buf[str] := c; }
    next := str + 1;
  }

  /** Writes a string character by character. */
  method PutAll(buf: array<char>, size: nat, str: nat, s: string, ghost orig: seq<char>, ghost text: string) returns (next: nat)
    requires size <= buf.Length == |orig| && buf[..] == Filled(orig, size, text) && str == |text|
    modifies buf
    ensures buf[..] == Filled(orig, size, text + s) && next == |text + s|
  {
    next := str;
    var i := 0;
    assert text + s[..0] == text;
    while i < |s|
      invariant 0 <= i <= |s| && buf[..] == Filled(orig, size, text + s[..i]) && next == |text| + i
    {
      next := Put(buf, size, next, s[i], orig, text + s[..i]);
      assert text + s[..i] + [s[i]] == text + s[..i + 1];
      i := i + 1;
    }
    assert s[..i] == s;
  }

  /** Writes the same character n times; nothing when n is not positive. */
  method Pad(buf: array<char>, size: nat, str: nat, c: char, n: int, ghost orig: seq<char>, ghost text: string) returns (next: nat)
    requires size <= buf.Length == |orig| && buf[..] == Filled(orig, size, text) && str == |text|
    modifies buf
    ensures buf[..] == Filled(orig, size, text + Repeat(c, n)) && next == |text + Repeat(c, n)|
  {
    next := str;
    var left := n;
    ghost var i := 0;
    assert text + Repeat(c, 0) == text;
    while left > 0
      invariant i >= 0 && (if n > 0 then left == n - i && i <= n else left == n && i == 0)
      invariant buf[..] == Filled(orig, size, text + Repeat(c, i)) && next == |text| + i
      decreases left
    {
      next := Put(buf, size, next, c, orig, text + Repeat(c, i));
      assert text + Repeat(c, i) + [c] == text + Repeat(c, i + 1);
      left := left - 1;
      i := i + 1;
    }
    assert Repeat(c, i) == Repeat(c, n);
  }

  /** The loop over divide: the digits of a number, least significant first, in tmp. */
  method Convert(n: nat, base: nat, large: bool) returns (tmp: seq<char>)
    ensures |tmp| == |NumberDigits(n, base, large)|
    ensures forall k :: 0 <= k < |tmp| ==> tmp[k] == NumberDigits(n, base, large)[|tmp| - 1 - k]
  {
    tmp := [];
    if n == 0 {
      tmp := ['0'];
      return;
    }
    var num := n;
    ghost var tail := "";
    while num != 0
      invariant Digits(n, base, large) == Digits(num, base, large) + tail
      invariant |tmp| == |tail| && forall k :: 0 <= k < |tmp| ==> tmp[k] == tail[|tail| - 1 - k]
      decreases num
    {
      var res, quotient := Divide(num, base);
      ghost var d := [Digit(res, large)];
      assert Digits(num, base, large) == Digits(quotient, base, large) + d;
      assert Digits(quotient, base, large) + d + tail == Digits(quotient, base, large) + (d + tail);
      tmp := tmp + [Digit(res, large)];
      tail := d + tail;
      num := quotient;
    }
    assert Digits(n, base, large) == tail;
  }

  /** divide: any base but 10 counts as 16. */
  method Divide(n: nat, base: nat) returns (res: nat, quotient: nat)
    ensures n == quotient * Divisor(base) + res && res < Divisor(base)
    ensures res == n % Divisor(base) && quotient == n / Divisor(base)
  {
    if base == 10 {
      res, quotient := n % 10, n / 10;
    } else {
      res, quotient := n % 16, n / 16;
    }
  }

  /** Writes the digits collected in tmp in reverse order. */
  method PutReversed(buf: array<char>, size: nat, str: nat, tmp: seq<char>, ghost s: string, ghost orig: seq<char>, ghost text: string)
    returns (next: nat)
    requires size <= buf.Length == |orig| && buf[..] == Filled(orig, size, text) && str == |text|
    requires |tmp| == |s| && forall k :: 0 <= k < |tmp| ==> tmp[k] == s[|tmp| - 1 - k]
    modifies buf
    ensures buf[..] == Filled(orig, size, text + s) && next == |text + s|
  {
    next := str;
    var i := |tmp|;
    assert text + s[..0] == text;
    while i > 0
      invariant 0 <= i <= |tmp| && buf[..] == Filled(orig, size, text + s[..|tmp| - i]) && next == |text| + |tmp| - i
    {
      i := i - 1;
      ghost var j := |tmp| - 1 - i;
      next := Put(buf, size, next, tmp[i], orig, text + s[..j]);
      assert text + s[..j] + [s[j]] == text + s[..j + 1];
    }
    assert s[..|tmp|] == s;
  }

  /** What the width counter holds after the loop that fills with spaces on the left: one less than nothing left. */
  function Spent(size: int): int {
    if size > 0 then -1 else size - 1
  }

  /** What print_number writes when it fills on the left with spaces: nothing is left for the other fills. */
  lemma PlainPieces(w: nat, base: nat, width: int, precision: int, f: Flags, sign: string, digits: string, total: int,
                    size1: int, size3: int, size4: int)
    requires sign == SignOf(w, f) && digits == NumberDigits(Magnitude(w, f), base, f.large) && !f.left && !f.zeroPad
    requires total == if |digits| > precision then |digits| else precision
    requires size1 == if sign != "" && width - total > 0 then width - total - 1 else width - total
    requires size3 <= 0 && size4 <= 0
    ensures Number(w, base, width, precision, f) ==
              Repeat(' ', size1) + sign + Repeat(' ', size3) + Repeat('0', total - |digits|) + (if precision != 0 then digits else "") + Repeat(' ', size4)
  {
    hide NumberDigits, Magnitude, Repeat, SignOf, Number;
    Shapes(w, base, width, precision, f);
    SignShort(w, f);
    NoRepeat(' ', size3);
    NoRepeat(' ', size4);
    if size1 <= 0 {
      NoRepeat(' ', size1);
      NoRepeat(' ', width - total - |sign|);
    }
    PlainShape(Repeat(' ', size1), sign, Repeat('0', total - |digits|), if precision != 0 then digits else "");
  }

  lemma ZeroPieces(w: nat, base: nat, width: int, precision: int, f: Flags, sign: string, digits: string, total: int,
                   size3: int, size4: int)
    requires sign == SignOf(w, f) && digits == NumberDigits(Magnitude(w, f), base, f.large) && !f.left && f.zeroPad
    requires total == if |digits| > precision then |digits| else precision
    requires size3 == width - total - |sign| && size4 <= 0
    ensures Number(w, base, width, precision, f) ==
              "" + sign + Repeat('0', size3) + Repeat('0', total - |digits|) + (if precision != 0 then digits else "") + Repeat(' ', size4)
  {
    hide NumberDigits, Magnitude, Repeat, SignOf, Number;
    Shapes(w, base, width, precision, f);
    NoRepeat(' ', size4);
    ZeroShape(sign, Repeat('0', size3), Repeat('0', total - |digits|), if precision != 0 then digits else "");
  }

  lemma LeftPieces(w: nat, base: nat, width: int, precision: int, f: Flags, sign: string, digits: string, total: int, size4: int)
    requires sign == SignOf(w, f) && digits == NumberDigits(Magnitude(w, f), base, f.large) && f.left
    requires total == if |digits| > precision then |digits| else precision
    requires size4 == width - total - |sign|
    ensures Number(w, base, width, precision, f) ==
              "" + sign + "" + Repeat('0', total - |digits|) + (if precision != 0 then digits else "") + Repeat(' ', size4)
  {
    hide NumberDigits, Magnitude, Repeat, SignOf, Number;
    Shapes(w, base, width, precision, f);
    LeftShape(sign, Repeat('0', total - |digits|), if precision != 0 then digits else "", Repeat(' ', size4));
  }

  lemma Shapes(w: nat, base: nat, width: int, precision: int, f: Flags)
    ensures var sign, digits := SignOf(w, f), NumberDigits(Magnitude(w, f), base, f.large);
            var total := if |digits| > precision then |digits| else precision;
            var body := Repeat('0', total - |digits|) + if precision != 0 then digits else "";
            Number(w, base, width, precision, f) ==
              if f.left then sign + body + Repeat(' ', width - total - |sign|)
              else if f.zeroPad then sign + Repeat('0', width - total - |sign|) + body
              else Repeat(' ', width - total - |sign|) + sign + body
  {
    hide NumberDigits, Magnitude, Repeat, SignOf;
  }

  lemma NoRepeat(c: char, n: int)
    ensures n <= 0 ==> Repeat(c, n) == ""
  {
  }

  lemma LeftShape(sign: string, zeros: string, shown: string, pad: string)
    ensures "" + sign + "" + zeros + shown + pad == sign + (zeros + shown) + pad
  {
  }

  lemma ZeroShape(sign: string, pad: string, zeros: string, shown: string)
    ensures "" + sign + pad + zeros + shown + "" == sign + pad + (zeros + shown)
  {
  }

  lemma PlainShape(pad: string, sign: string, zeros: string, shown: string)
    ensures pad + sign + "" + zeros + shown + "" == pad + sign + (zeros + shown)
  {
  }

  lemma Regroup(text: string, a: string, b: string, c: string, d: string, e: string, g: string)
    ensures text + a + b + c + d + e + g == text + (a + b + c + d + e + g)
  {
  }

  /** The sign and the number that is left to convert. */
  method TakeSign(w: nat, f: Flags) returns (sign: string, num: nat)
    requires w < WORD
    ensures sign == SignOf(w, f) && num == Magnitude(w, f)
  {
    sign, num := "", w;
    if f.sign {
      if Signed(w) < 0 {
        sign, num := "-", WORD - w;
      } else if f.plus {
        sign := "+";
      } else if f.space {
        sign := " ";
      }
    }
  }

  /** print_number */
  method PrintNumber(buf: array<char>, limit: nat, str: nat, w: nat, base: nat, s: int, precision: int, f: Flags,
                     ghost orig: seq<char>, ghost text: string) returns (next: nat)
    requires limit <= buf.Length == |orig| && buf[..] == Filled(orig, limit, text) && str == |text| && w < WORD
    modifies buf
    ensures buf[..] == Filled(orig, limit, text + Number(w, base, s, precision, f)) && next == |text + Number(w, base, s, precision, f)|
  {
    hide Filled, Number, NumberDigits, Magnitude, SignOf, Repeat;
    var zeroPad := f.zeroPad && !f.left;
    var c := if zeroPad then '0' else ' ';
    var sign, num := TakeSign(w, f);
    SignShort(w, f);
    ghost var digits := NumberDigits(num, base, f.large);
    var tmp := Convert(num, base, f.large);
    var i := |tmp|;
    var wanted := if i > precision then i else precision;
    var size := s - wanted;
    ghost var t, p1, p2 := text, "", "";
    next := str;
    if !zeroPad && !f.left && sign != "" && size > 0 { size := size - 1; }
    ghost var size1 := size;
    if !zeroPad && !f.left {
      next := Pad(buf, limit, next, ' ', size, orig, t);
      p1 := Repeat(' ', size);
      size := Spent(size);
    }
    Joined(t, p1);
    t := t + p1;
    if sign != "" {
      next := Put(buf, limit, next, sign[0], orig, t);
      size := size - 1;
    }
    Joined(t, sign);
    t := t + sign;
    ghost var size3 := size;
    if !f.left {
      next := Pad(buf, limit, next, c, size, orig, t);
      p2 := Repeat(c, size);
      size := Spent(size);
    }
    Joined(t, p2);
    t := t + p2;
    ghost var size4 := size;
    next := Pad(buf, limit, next, '0', wanted - i, orig, t);
    t := t + Repeat('0', wanted - i);
    ghost var p4 := if precision != 0 then digits else "";
    if precision != 0 { next := PutReversed(buf, limit, next, tmp, digits, orig, t); }
    Joined(t, p4);
    t := t + p4;
    next := Pad(buf, limit, next, ' ', size, orig, t);
    t := t + Repeat(' ', size);
    if f.left {
      LeftPieces(w, base, s, precision, f, sign, digits, wanted, size4);
    } else if f.zeroPad {
      ZeroPieces(w, base, s, precision, f, sign, digits, wanted, size3, size4);
    } else {
      PlainPieces(w, base, s, precision, f, sign, digits, wanted, size1, size3, size4);
    }
    Regroup(text, p1, sign, p2, Repeat('0', wanted - i), p4, Repeat(' ', size4));
  }

  lemma SignShort(w: nat, f: Flags)
    ensures |SignOf(w, f)| <= 1
    ensures SignOf(w, f) == "" || SignOf(w, f) == [SignOf(w, f)[0]]
  {
  }

  lemma Joined(t: string, s: string)
    ensures s == "" ==> t + s == t
  {
  }

  // ----- rt_vsnprintf

  /** The loop over the flags. */
  method ScanFlags(fmt: string, start: nat) returns (f: Flags, i: nat)
    ensures (f, i) == ReadFlags(fmt, start, NO_FLAGS)
  {
    f, i := NO_FLAGS, start;
    while i < |fmt| && IsFlag(fmt[i])
      invariant ReadFlags(fmt, i, f) == ReadFlags(fmt, start, NO_FLAGS)
      decreases |fmt| - i
    {
      f := SetFlag(f, fmt[i]);
      i := i + 1;
    }
  }

  /** skip_atoi */
  method SkipAtoi(fmt: string, start: nat) returns (n: nat, i: nat)
    ensures (n, i) == ReadNumber(fmt, start, 0)
  {
    n, i := 0, start;
    while i < |fmt| && IsDigit(fmt[i])
      invariant ReadNumber(fmt, i, n) == ReadNumber(fmt, start, 0)
      decreases |fmt| - i
    {
      n := n * 10 + (fmt[i] as nat - '0' as nat);
      i := i + 1;
    }
  }

  /** Flags, width and precision. */
  method ScanField(fmt: string, start: nat, args: seq<Arg>) returns (d: Field)
    ensures d == ReadField(fmt, start, args)
  {
    hide ReadFlags, ReadNumber;
    var f, i := ScanFlags(fmt, start + 1);
    var width, rest := -1, args;
    if IsDigit(At(fmt, i)) {
      var n, j := SkipAtoi(fmt, i);
      width, i := n, j;
    } else if At(fmt, i) == '*' {
      i := i + 1;
      width := NextInt(rest);
      rest := Rest(rest);
      if width < 0 { width, f := -width, f.(left := true); }
    }
    var precision := -1;
    if At(fmt, i) == '.' {
      i := i + 1;
      if IsDigit(At(fmt, i)) {
        var n, j := SkipAtoi(fmt, i);
        precision, i := n, j;
      } else if At(fmt, i) == '*' {
        i := i + 1;
        precision := NextInt(rest);
        rest := Rest(rest);
      }
      if precision < 0 { precision := 0; }
    }
    d := Field(f, width, precision, i, rest);
  }

  /** Padding, text and padding again, for %c and %s. */
  method PutPadded(buf: array<char>, size: nat, str: nat, s: string, room: int, left: bool, ghost orig: seq<char>, ghost text: string)
    returns (next: nat)
    requires size <= buf.Length == |orig| && buf[..] == Filled(orig, size, text) && str == |text|
    modifies buf
    ensures buf[..] == Filled(orig, size, text + Padded(s, room, left)) && next == |text + Padded(s, room, left)|
  {
    hide Filled, Repeat;
    next := str;
    ghost var t := text;
    if !left {
      next := Pad(buf, size, next, ' ', room, orig, t);
      t := t + Repeat(' ', room);
      assert t + s == text + (Repeat(' ', room) + s);
    }
    next := PutAll(buf, size, next, s, orig, t);
    if left {
      next := Pad(buf, size, next, ' ', room, orig, t + s);
      assert t + s + Repeat(' ', room) == text + (s + Repeat(' ', room));
    }
  }

  /** The switch over the conversion character. */
  method Emit(buf: array<char>, size: nat, str: nat, d: Field, qualifier: char, c: char, ghost orig: seq<char>, ghost text: string)
    returns (next: nat, rest: seq<Arg>)
    requires size <= buf.Length == |orig| && buf[..] == Filled(orig, size, text) && str == |text|
    modifies buf
    ensures rest == Converted(d, qualifier, c).1
    ensures buf[..] == Filled(orig, size, text + Converted(d, qualifier, c).0) && next == |text + Converted(d, qualifier, c).0|
  {
    hide Filled, Number, Padded;
    if c == 'c' {
      next := PutPadded(buf, size, str, [Character(NextWord(d.args))], d.width - 1, d.flags.left, orig, text);
      return next, Rest(d.args);
    } else if c == 's' {
      var s := NextText(d.args);
      var len := |s|;
      if d.precision > 0 && len > d.precision { len := d.precision; }
      assert s[..len] == Cut(s, d.precision);
      next := PutPadded(buf, size, str, s[..len], d.width - len, d.flags.left, orig, text);
      return next, Rest(d.args);
    } else if c == 'p' {
      var width, f := d.width, d.flags;
      if width == -1 { width, f := 8, f.(zeroPad := true); }
      next := PrintNumber(buf, size, str, NextWord(d.args), 16, width, d.precision, f, orig, text);
      return next, Rest(d.args);
    } else if c == '%' {
      next := PutAll(buf, size, str, "%", orig, text);
      return next, d.args;
    } else if IsNumeric(c) {
      var f := TypeOf(d.flags, c);
      var w := NextWord(d.args);
      if qualifier == 'h' { w := Half(w, f.sign); }
      next := PrintNumber(buf, size, str, w, BaseOf(c), d.width, d.precision, f, orig, text);
      return next, Rest(d.args);
    } else {
      next := PutAll(buf, size, str, if c == '\0' then "%" else ['%', c], orig, text);
      return next, d.args;
    }
  }

  /** Where the loop goes on after the directive at i, and with which arguments. */
  lemma FormatStep(fmt: string, i: nat, args: seq<Arg>)
    requires i < |fmt| && fmt[i] == '%'
    ensures var d := ReadField(fmt, i, args);
            var (q, j) := Qualifier(fmt, d.at);
            var r := Converted(d, q, At(fmt, j));
            var k := if At(fmt, j) == '\0' then j else j + 1;
            i < k && Format(fmt, i, args) == r.0 + Format(fmt, k, r.1)
  {
    FieldAdvances(fmt, i, args);
    hide ReadField, Converted;
  }

  /** The loop over the format. */
  method Run(buf: array<char>, size: nat, fmt: string, args: seq<Arg>, ghost orig: seq<char>) returns (str: nat)
    requires size <= buf.Length == |orig| && buf[..] == orig
    modifies buf
    ensures str == |Format(fmt, 0, args)| && buf[..] == Filled(orig, size, Format(fmt, 0, args))
  {
    hide ReadField, Converted, Qualifier;
    var i, rest := 0, args;
    ghost var text := "";
    str := 0;
    FilledNone(orig, size);
    while At(fmt, i) != '\0'
      invariant text + Format(fmt, i, rest) == Format(fmt, 0, args)
      invariant buf[..] == Filled(orig, size, text) && str == |text|
      decreases |fmt| - i
    {
      if fmt[i] != '%' {
        str := Put(buf, size, str, fmt[i], orig, text);
        assert text + Format(fmt, i, rest) == (text + [fmt[i]]) + Format(fmt, i + 1, rest);
        text := text + [fmt[i]];
        i := i + 1;
      } else {
        FormatStep(fmt, i, rest);
        var d := ScanField(fmt, i, rest);
        var (q, j) := Qualifier(fmt, d.at);
        ghost var t := Converted(d, q, At(fmt, j)).0;
        ghost var k := if At(fmt, j) == '\0' then j else j + 1;
        str, rest := Emit(buf, size, str, d, q, At(fmt, j), orig, text);
        assert text + (t + Format(fmt, k, rest)) == (text + t) + Format(fmt, k, rest);
        text := text + t;
        i := if At(fmt, j) == '\0' then j else j + 1;
      }
    }
    assert Format(fmt, i, rest) == "";
    assert text + "" == text;
  }

  lemma FilledNone(orig: seq<char>, size: nat)
    requires size <= |orig|
    ensures Filled(orig, size, "") == orig
  {
  }

  /** rt_vsnprintf writes only inside its buffer, leaves there as much of the text as fits in front of the closing NUL,
      and returns the length of the whole text. */
  method Vsnprintf(buf: array<char>, size: nat, fmt: string, args: seq<Arg>) returns (n: nat)
    requires size <= buf.Length
    modifies buf
    ensures n == |Format(fmt, 0, args)|
    ensures size == 0 ==> buf[..] == old(buf[..])
    ensures size > 0 ==>
              var k := if n < size then n else size - 1;
              buf[..k] == Format(fmt, 0, args)[..k] && buf[k] == '\0'
    ensures forall i :: 0 <= i < buf.Length && (i >= size || i > n) ==> buf[i] == old(buf[i])
  {
    hide Format;
    ghost var orig := buf[..];
    n := Run(buf, size, fmt, args, orig);
    ghost var text := Format(fmt, 0, args);
    assert forall i :: 0 <= i < buf.Length ==> buf[i] == buf[..][i];
    if size > 0 {
      if n < size { buf[n] := '\0'; } else { buf[size - 1] := '\0'; }
    }
  }
}
