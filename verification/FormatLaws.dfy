/** What the text of rt_vsnprintf means. */
module FormatLaws {
  import opened FormatSpec

  /** Value of a digit character; 16 for anything else. */
  function DigitValue(c: char): nat {
    if '0' <= c <= '9' then c as nat - '0' as nat
    else if 'a' <= c <= 'f' then c as nat - 'a' as nat + 10
    else if 'A' <= c <= 'F' then c as nat - 'A' as nat + 10
    else 16
  }

  /** Reading digits in a base. */
  function Parse(s: string, base: nat): nat {
    if s == "" then 0 else Parse(s[..|s| - 1], base) * base + DigitValue(s[|s| - 1])
  }

  predicate Reads(s: string, base: nat) {
    s != "" && forall i :: 0 <= i < |s| ==> DigitValue(s[i]) < base
  }

  lemma DigitReads(d: nat, large: bool)
    requires d < 16
    ensures DigitValue(Digit(d, large)) == d
  {
  }

  /** The digits that divide produces read back as the number, in the base divide works in. */
  lemma {:induction false} DigitsParse(n: nat, base: nat, large: bool)
    ensures Parse(Digits(n, base, large), Divisor(base)) == n
    ensures forall i :: 0 <= i < |Digits(n, base, large)| ==> DigitValue(Digits(n, base, large)[i]) < Divisor(base)
    ensures n > 0 ==> Digits(n, base, large) != "" && Digits(n, base, large)[0] != '0'
    decreases n
  {
    if n > 0 {
      var k := Divisor(base);
      var s := Digits(n / k, base, large);
      DigitsParse(n / k, base, large);
      DigitReads(n % k, large);
      assert (s + [Digit(n % k, large)])[..|s|] == s;
      assert n == n / k * k + n % k;
    }
  }

  /** A number printed in base 10 or 16 reads back. */
  lemma NumberReadsBack(n: nat, base: nat, large: bool)
    requires base == 10 || base == 16
    ensures Reads(NumberDigits(n, base, large), base) && Parse(NumberDigits(n, base, large), base) == n
  {
    DigitsParse(n, base, large);
    assert Parse("0", base) == 0 by { assert "0"[..0] == ""; }
  }

  /** Conversion %o prints hexadecimal digits; they are the octal digits exactly of the numbers below 8. */
  lemma OctalRightIff(n: nat, large: bool)
    ensures NumberDigits(n, 8, large) == NumberDigits(n, 16, large)
    ensures Reads(NumberDigits(n, 8, large), 8) && Parse(NumberDigits(n, 8, large), 8) == n <==> n < 8
  {
    OctalIsHex(n, large);
    if n == 0 {
      assert Parse("0", 8) == 0 by { assert "0"[..0] == ""; }
    } else {
      OctalParse(n, large);
      if n < 16 {
        var s := Digits(n / 16, 16, large);
        assert s == "";
        assert Digits(n, 16, large) == "" + [Digit(n, large)] == [Digit(n, large)];
        DigitReads(n, large);
        assert DigitValue(Digits(n, 16, large)[0]) == n;
      }
    }
  }

  lemma {:induction false} OctalIsHex(n: nat, large: bool)
    ensures Digits(n, 8, large) == Digits(n, 16, large)
    decreases n
  {
    if n > 0 { OctalIsHex(n / 16, large); }
  }

  /** Read in base 8, hexadecimal digits give less than the number once there are two of them. */
  lemma {:induction false} OctalParse(n: nat, large: bool)
    ensures Parse(Digits(n, 16, large), 8) <= n
    ensures n >= 16 ==> Parse(Digits(n, 16, large), 8) < n
    decreases n
  {
    if n > 0 {
      var s := Digits(n / 16, 16, large);
      OctalParse(n / 16, large);
      DigitReads(n % 16, large);
      assert (s + [Digit(n % 16, large)])[..|s|] == s;
    }
  }

  /** With a precision other than zero a number fills its field exactly unless it needs more; with precision zero its
      digits are missing. */
  lemma NumberLength(w: nat, base: nat, width: int, precision: int, f: Flags)
    ensures var digits := NumberDigits(Magnitude(w, f), base, f.large);
            var total := if |digits| > precision then |digits| else precision;
            var needed := total + |SignOf(w, f)|;
            |Number(w, base, width, precision, f)| ==
              (if width > needed then width else needed) - (if precision == 0 then |digits| else 0)
  {
  }

  /** Text without a percent sign comes out as it is. */
  lemma {:induction false} PlainText(fmt: string, i: nat, args: seq<Arg>)
    requires i <= |fmt| && forall k :: 0 <= k < |fmt| ==> fmt[k] != '%' && fmt[k] != '\0'
    ensures Format(fmt, i, args) == fmt[i..]
    decreases |fmt| - i
  {
    if i < |fmt| {
      PlainText(fmt, i + 1, args);
      assert fmt[i..] == [fmt[i]] + fmt[i + 1..];
    }
  }
}
