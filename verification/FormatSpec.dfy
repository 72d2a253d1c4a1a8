/** The text that rt_vsnprintf produces when the buffer is large enough (RT_PRINTF_PRECISION is defined,
    RT_PRINTF_SPECIAL and RT_PRINTF_LONGLONG are not). */
module FormatSpec {

  const WORD := 0x1_0000_0000

  /** What va_arg finds: a 32-bit word, or a string (none for the null pointer). Reading past the end or with the wrong
      type, which C leaves undefined, finds zero or the null pointer here. */
  datatype Arg = Word(w: nat) | Text(s: string) | NullText

  function NextWord(args: seq<Arg>): (w: nat)
    ensures w < WORD
  {
    if args != [] && args[0].Word? then args[0].w % WORD else 0
  }

  function NextInt(args: seq<Arg>): int {
    Signed(NextWord(args))
  }

  function NextText(args: seq<Arg>): string {
    if args != [] && args[0].Text? then args[0].s else "(NULL)"
  }

  function Rest(args: seq<Arg>): seq<Arg> {
    if args == [] then [] else args[1..]
  }

  /** A 32-bit word as a signed number. */
  function Signed(w: nat): int {
    if w >= 0x8000_0000 then w - WORD else w
  }

  /** A 16-bit half word, sign-extended to 32 bits for signed conversions. */
  function Half(w: nat, signed: bool): nat {
    var h := w % 0x1_0000;
    if signed && h >= 0x8000 then h + 0xFFFF_0000 else h
  }

  datatype Flags = Flags(zeroPad: bool, sign: bool, plus: bool, space: bool, left: bool, large: bool)

  // ----- numbers

  const SMALL := "0123456789abcdef"
  const LARGE := "0123456789ABCDEF"

  function Digit(d: nat, large: bool): char
    requires d < 16
  {
    if large then LARGE[d] else SMALL[d]
  }

  /** The divisor divide really uses. */
  function Divisor(base: nat): nat {
    if base == 10 then 10 else 16
  }

  /** The digits of a number, most significant first, as the loop over divide leaves them in tmp, reversed. */
  function Digits(n: nat, base: nat, large: bool): string
    decreases n
  {
    if n == 0 then "" else Digits(n / Divisor(base), base, large) + [Digit(n % Divisor(base), large)]
  }

  function NumberDigits(n: nat, base: nat, large: bool): string {
    if n == 0 then "0" else Digits(n, base, large)
  }

  function Repeat(c: char, n: int): (s: string)
    ensures |s| == if n > 0 then n else 0
    ensures forall i :: 0 <= i < |s| ==> s[i] == c
  {
    if n <= 0 then "" else seq(n, _ => c)
  }

  /** The sign character, if any. */
  function SignOf(w: nat, f: Flags): string {
    if !f.sign then ""
    else if Signed(w) < 0 then "-"
    else if f.plus then "+"
    else if f.space then " "
    else ""
  }

  function Magnitude(w: nat, f: Flags): nat {
    if f.sign && 0 < w < WORD && Signed(w) < 0 then WORD - w else w
  }

  /** print_number: padding, sign, zeros for the precision, digits, padding. Digits are left out when the precision is
      zero. */
  function Number(w: nat, base: nat, width: int, precision: int, f: Flags): string {
    var sign := SignOf(w, f);
    var digits := NumberDigits(Magnitude(w, f), base, f.large);
    var total := if |digits| > precision then |digits| else precision;
    var room := width - total - |sign|;
    var body := Repeat('0', total - |digits|) + if precision != 0 then digits else "";
    if f.left then sign + body + Repeat(' ', room)
    else if f.zeroPad then sign + Repeat('0', room) + body
    else Repeat(' ', room) + sign + body
  }

  // ----- directives

  function At(fmt: string, i: nat): char {
    if i < |fmt| then fmt[i] else '\0'
  }

  predicate IsDigit(c: char) {
    '0' <= c <= '9'
  }

  predicate IsFlag(c: char) {
    c == '-' || c == '+' || c == ' ' || c == '#' || c == '0'
  }

  function SetFlag(f: Flags, c: char): Flags {
    if c == '-' then f.(left := true)
    else if c == '+' then f.(plus := true)
    else if c == ' ' then f.(space := true)
    else if c == '0' then f.(zeroPad := true)
    else f
  }

  /** Flags from position i on, and the position behind them. */
  function ReadFlags(fmt: string, i: nat, f: Flags): (r: (Flags, nat))
    ensures i <= r.1 && (i <= |fmt| ==> r.1 <= |fmt|)
    decreases |fmt| - i
  {
    if i < |fmt| && IsFlag(fmt[i]) then ReadFlags(fmt, i + 1, SetFlag(f, fmt[i])) else (f, i)
  }

  /** skip_atoi */
  function ReadNumber(fmt: string, i: nat, n: nat): (r: (nat, nat))
    ensures i <= r.1 && (i <= |fmt| ==> r.1 <= |fmt|)
    decreases |fmt| - i
  {
    if i < |fmt| && IsDigit(fmt[i]) then ReadNumber(fmt, i + 1, n * 10 + (fmt[i] as nat - '0' as nat)) else (n, i)
  }

  datatype Field = Field(flags: Flags, width: int, precision: int, at: nat, args: seq<Arg>)

  /** The width; `*` takes it from the arguments, a negative one means left-justified. */
  function ReadWidth(fmt: string, i: nat, f: Flags, args: seq<Arg>): (Flags, int, nat, seq<Arg>) {
    if IsDigit(At(fmt, i)) then
      var (n, j) := ReadNumber(fmt, i, 0);
      (f, n, j, args)
    else if At(fmt, i) == '*' then
      var n := NextInt(args);
      if n < 0 then (f.(left := true), -n, i + 1, Rest(args)) else (f, n, i + 1, Rest(args))
    else (f, -1, i, args)
  }

  /** The precision: -1 without a period, never negative with one. */
  function ReadPrecision(fmt: string, i: nat, args: seq<Arg>): (int, nat, seq<Arg>) {
    if At(fmt, i) != '.' then (-1, i, args)
    else if IsDigit(At(fmt, i + 1)) then
      var (n, j) := ReadNumber(fmt, i + 1, 0);
      (n, j, args)
    else if At(fmt, i + 1) == '*' then
      var n := NextInt(args);
      (if n < 0 then 0 else n, i + 2, Rest(args))
    else (0, i + 1, args)
  }

  const NO_FLAGS := Flags(false, false, false, false, false, false)

  /** Flags, width and precision behind the percent sign at i. */
  function ReadField(fmt: string, i: nat, args: seq<Arg>): Field {
    var (f, j) := ReadFlags(fmt, i + 1, NO_FLAGS);
    var (f', width, k, args1) := ReadWidth(fmt, j, f, args);
    var (precision, l, args2) := ReadPrecision(fmt, k, args1);
    Field(f', width, precision, l, args2)
  }

  /** `h` or `l`, or no qualifier. */
  function Qualifier(fmt: string, i: nat): (char, nat) {
    if At(fmt, i) == 'h' || At(fmt, i) == 'l' then (At(fmt, i), i + 1) else ('\0', i)
  }

  predicate IsNumeric(c: char) {
    c == 'o' || c == 'x' || c == 'X' || c == 'd' || c == 'i' || c == 'u'
  }

  function BaseOf(c: char): nat {
    if c == 'o' then 8 else if c == 'x' || c == 'X' then 16 else 10
  }

  function TypeOf(f: Flags, c: char): Flags {
    f.(large := f.large || c == 'X', sign := f.sign || c == 'd' || c == 'i')
  }

  function Character(w: nat): char {
    (w % 256) as char
  }

  /** Characters of a padded string or character: `room` spaces on the side the flag says. */
  function Padded(text: string, room: int, left: bool): string {
    if left then text + Repeat(' ', room) else Repeat(' ', room) + text
  }

  function Cut(s: string, precision: int): string {
    if precision > 0 && |s| > precision then s[..precision] else s
  }

  /** What one directive produces, given its field, its qualifier and its conversion character. */
  function Converted(d: Field, qualifier: char, c: char): (string, seq<Arg>) {
    if c == 'c' then (Padded([Character(NextWord(d.args))], d.width - 1, d.flags.left), Rest(d.args))
    else if c == 's' then
      var s := Cut(NextText(d.args), d.precision);
      (Padded(s, d.width - |s|, d.flags.left), Rest(d.args))
    else if c == 'p' then
      var f := if d.width == -1 then d.flags.(zeroPad := true) else d.flags;
      (Number(NextWord(d.args), 16, if d.width == -1 then 8 else d.width, d.precision, f), Rest(d.args))
    else if c == '%' then ("%", d.args)
    else if IsNumeric(c) then
      var f := TypeOf(d.flags, c);
      var w := if qualifier == 'h' then Half(NextWord(d.args), f.sign) else NextWord(d.args);
      (Number(w, BaseOf(c), d.width, d.precision, f), Rest(d.args))
    else if c == '\0' then ("%", d.args)
    else (['%', c], d.args)
  }

  /** The text for the format from position i on. */
  function Format(fmt: string, i: nat, args: seq<Arg>): string
    decreases |fmt| - i
  {
    if i >= |fmt| || fmt[i] == '\0' then ""
    else if fmt[i] != '%' then [fmt[i]] + Format(fmt, i + 1, args)
    else
      var d := ReadField(fmt, i, args);
      var (q, j) := Qualifier(fmt, d.at);
      var (text, args') := Converted(d, q, At(fmt, j));
      FieldAdvances(fmt, i, args);
      text + Format(fmt, if At(fmt, j) == '\0' then j else j + 1, args')
  }

  lemma FieldAdvances(fmt: string, i: nat, args: seq<Arg>)
    requires i < |fmt|
    ensures i < ReadField(fmt, i, args).at
  {
  }
}
