/** The 32-bit words of the ready bitmap, as naturals with their binary digits, and __rt_ffs, which finds
    the lowest digit by looking bytes up in a table. */
module BitScan {

  const WORD := 0x1_0000_0000

  predicate Bit(v: nat, p: nat) {
    if p == 0 then v % 2 == 1 else Bit(v / 2, p - 1)
  }

  /** 1 << p */
  function Mask(p: nat): (m: nat)
    ensures m > 0
  {
    if p == 0 then 1 else 2 * Mask(p - 1)
  }

  /** a | b */
  function Or(a: nat, b: nat): nat {
    if a == 0 then b else 2 * Or(a / 2, b / 2) + if a % 2 == 1 || b % 2 == 1 then 1 else 0
  }

  /** a & ~b */
  function AndNot(a: nat, b: nat): nat {
    if a == 0 then 0 else 2 * AndNot(a / 2, b / 2) + if a % 2 == 1 && b % 2 == 0 then 1 else 0
  }

  lemma {:induction false} MaskBit(p: nat, q: nat)
    ensures Bit(Mask(p), q) <==> p == q
  {
    if q == 0 {
    } else if p == 0 {
      ZeroBit(q - 1);
    } else {
      MaskBit(p - 1, q - 1);
    }
  }

  lemma {:induction false} ZeroBit(q: nat)
    ensures !Bit(0, q)
  {
    if q > 0 { ZeroBit(q - 1); }
  }

  lemma {:induction false} OrBit(a: nat, b: nat, q: nat)
    ensures Bit(Or(a, b), q) <==> Bit(a, q) || Bit(b, q)
  {
    if a == 0 {
      ZeroBit(q);
    } else if q > 0 {
      OrBit(a / 2, b / 2, q - 1);
    }
  }

  lemma {:induction false} AndNotBit(a: nat, b: nat, q: nat)
    ensures Bit(AndNot(a, b), q) <==> Bit(a, q) && !Bit(b, q)
  {
    if a == 0 {
      ZeroBit(q);
    } else if q > 0 {
      AndNotBit(a / 2, b / 2, q - 1);
    }
  }

  /** Words of 32 digits stay words. */
  lemma {:induction false} Fits(a: nat, b: nat, p: nat)
    requires a < Mask(p)
    ensures AndNot(a, b) < Mask(p)
    ensures b < Mask(p) ==> Or(a, b) < Mask(p)
    decreases p
  {
    if a != 0 && p > 0 { Fits(a / 2, b / 2, p - 1); }
  }

  lemma {:induction false} MaskGrows(p: nat, q: nat)
    requires p < q
    ensures Mask(p) < Mask(q)
  {
    if p + 1 < q { MaskGrows(p, q - 1); }
  }

  lemma Mask32()
    ensures Mask(32) == WORD
  {
    assert Mask(8) == 256;
    assert Mask(16) == 0x1_0000 by { assert Mask(12) == 4096; }
    assert Mask(24) == 0x100_0000 by { assert Mask(20) == 0x10_0000; }
    assert Mask(28) == 0x1000_0000;
  }

  // ----- the scan

  /** __lowest_bit_bitmap, in the rows of sixteen it is written in. */
  const LOWEST_BIT: seq<seq<nat>> := [
    [0, 0, 1, 0, 2, 0, 1, 0, 3, 0, 1, 0, 2, 0, 1, 0],
    [4, 0, 1, 0, 2, 0, 1, 0, 3, 0, 1, 0, 2, 0, 1, 0],
    [5, 0, 1, 0, 2, 0, 1, 0, 3, 0, 1, 0, 2, 0, 1, 0],
    [4, 0, 1, 0, 2, 0, 1, 0, 3, 0, 1, 0, 2, 0, 1, 0],
    [6, 0, 1, 0, 2, 0, 1, 0, 3, 0, 1, 0, 2, 0, 1, 0],
    [4, 0, 1, 0, 2, 0, 1, 0, 3, 0, 1, 0, 2, 0, 1, 0],
    [5, 0, 1, 0, 2, 0, 1, 0, 3, 0, 1, 0, 2, 0, 1, 0],
    [4, 0, 1, 0, 2, 0, 1, 0, 3, 0, 1, 0, 2, 0, 1, 0],
    [7, 0, 1, 0, 2, 0, 1, 0, 3, 0, 1, 0, 2, 0, 1, 0],
    [4, 0, 1, 0, 2, 0, 1, 0, 3, 0, 1, 0, 2, 0, 1, 0],
    [5, 0, 1, 0, 2, 0, 1, 0, 3, 0, 1, 0, 2, 0, 1, 0],
    [4, 0, 1, 0, 2, 0, 1, 0, 3, 0, 1, 0, 2, 0, 1, 0],
    [6, 0, 1, 0, 2, 0, 1, 0, 3, 0, 1, 0, 2, 0, 1, 0],
    [4, 0, 1, 0, 2, 0, 1, 0, 3, 0, 1, 0, 2, 0, 1, 0],
    [5, 0, 1, 0, 2, 0, 1, 0, 3, 0, 1, 0, 2, 0, 1, 0],
    [4, 0, 1, 0, 2, 0, 1, 0, 3, 0, 1, 0, 2, 0, 1, 0]
  ]

  function LowestBit(b: nat): nat
    requires b < 256
  {
    Row(b / 16)[b % 16]
  }

  function Row(r: nat): (s: seq<nat>)
    requires r < 16
    ensures |s| == 16
  {
    LOWEST_BIT[r]
  }

  /** p is the lowest digit set in v. */
  ghost predicate Lowest(v: nat, p: nat) {
    Bit(v, p) && forall q :: 0 <= q < p ==> !Bit(v, q)
  }

  /** __rt_ffs */
  function Ffs(v: nat): nat
    requires v < WORD
  {
    if v == 0 then 0
    else if v % 256 != 0 then LowestBit(v % 256) + 1
    else if v / 256 % 256 != 0 then LowestBit(v / 256 % 256) + 9
    else if v / 0x1_0000 % 256 != 0 then LowestBit(v / 0x1_0000 % 256) + 17
    else LowestBit(v / 0x100_0000) + 25
  }

  /** Trailing zero digits of v. */
  function Trailing(v: nat): nat
    requires v > 0
  {
    if v % 2 == 1 then 0 else 1 + Trailing(v / 2)
  }

  lemma {:induction false} TrailingLowest(v: nat)
    requires v > 0
    ensures Lowest(v, Trailing(v))
  {
    if v % 2 == 0 {
      TrailingLowest(v / 2);
      forall q | 0 <= q < Trailing(v) ensures !Bit(v, q) {
        if q > 0 { assert !Bit(v / 2, q - 1); }
      }
    }
  }

  lemma HalfMod(v: nat, m: nat)
    requires m > 0
    ensures v % (2 * m) / 2 == v / 2 % m && v / 2 / m == v / (2 * m)
    ensures v % (2 * m) % 2 == v % 2
  {
    var q, r := v / (2 * m), v % (2 * m);
    assert v == 2 * m * q + r;
    var k := m * q;
    HalfSum(k, r);
    HalfSmall(r, m);
    QuotientIs(v / 2, m, q, r / 2);
  }

  lemma HalfSum(k: nat, r: nat)
    ensures (2 * k + r) / 2 == k + r / 2 && (2 * k + r) % 2 == r % 2
  {
  }

  lemma HalfSmall(r: nat, m: nat)
    requires r < 2 * m
    ensures r / 2 < m
  {
  }

  lemma QuotientIs(x: nat, m: nat, q: nat, r: nat)
    requires m > 0 && r < m && x == m * q + r
    ensures x / m == q && x % m == r
  {
    var d := q - x / m;
    assert x == m * (x / m) + x % m;
    assert m * d == x % m - r;
    assert m * d < m && m * d > 0 - m;
    assert d == 0;
  }

  /** The low n digits decide when one of them is set; otherwise the count goes on behind them. */
  lemma {:induction false} TrailingSplit(v: nat, n: nat)
    requires v > 0
    ensures v % Mask(n) != 0 ==> Trailing(v) == Trailing(v % Mask(n))
    ensures v % Mask(n) == 0 ==> v / Mask(n) > 0 && Trailing(v) == n + Trailing(v / Mask(n))
    decreases n
  {
    if n > 0 {
      HalfMod(v, Mask(n - 1));
      if v % 2 == 0 { TrailingSplit(v / 2, n - 1); }
    }
  }

  /** Every entry of the table counts the trailing zeros of its index. */
  lemma TableRight(b: nat)
    requires 0 < b < 256
    ensures LowestBit(b) == Trailing(b)
  {
    hide Row, Trailing;
    assert Mask(4) == 16;
    TrailingSplit(b, 4);
    if b % 16 != 0 {
      Column(b / 16, b % 16);
    } else {
      FirstColumn(b / 16);
      Column(0, b / 16);
    }
  }

  lemma FirstColumn(r: nat)
    requires 0 < r < 16
    ensures Row(r)[0] == 4 + Row(0)[r]
  {
  }

  lemma SameRows(r: nat)
    requires r < 16
    ensures forall c :: 0 < c < 16 ==> Row(r)[c] == Row(0)[c]
  {
  }

  lemma FirstRow(c: nat)
    requires 0 < c < 16
    ensures Row(0)[c] == if c % 2 == 1 then 0 else if c % 4 == 2 then 1 else if c % 8 == 4 then 2 else 3
  {
  }

  lemma NibbleTrailing(c: nat)
    requires 0 < c < 16
    ensures Trailing(c) == if c % 2 == 1 then 0 else if c % 4 == 2 then 1 else if c % 8 == 4 then 2 else 3
  {
    assert Trailing(8) == 3 by { assert Trailing(4) == 2; }
  }

  lemma Column(r: nat, c: nat)
    requires r < 16 && 0 < c < 16
    ensures Row(r)[c] == Trailing(c)
  {
    hide Trailing, Row;
    SameRows(r);
    FirstRow(c);
    NibbleTrailing(c);
  }

  /** __rt_ffs answers zero for zero and otherwise one more than the lowest digit set. */
  lemma FfsIsLowest(v: nat)
    requires v < WORD
    ensures Ffs(v) == 0 <==> v == 0
    ensures v != 0 ==> Ffs(v) <= 32 && Lowest(v, Ffs(v) - 1)
  {
    hide Trailing, LowestBit, Lowest;
    if v != 0 {
      TrailingLowest(v);
      NextByte(v);
      Quotients(v);
      if v / 256 > 0 { NextByte(v / 256); }
      if v / 0x1_0000 > 0 { NextByte(v / 0x1_0000); }
      if v / 0x100_0000 > 0 { NextByte(v / 0x100_0000); }
    }
  }

  lemma Quotients(v: nat)
    requires v < WORD
    ensures v / 256 / 256 == v / 0x1_0000 && v / 0x1_0000 / 256 == v / 0x100_0000 && v / 0x100_0000 < 256
  {
  }

  /** One byte of the scan. */
  lemma NextByte(v: nat)
    requires v > 0
    ensures v % 256 != 0 ==> LowestBit(v % 256) == Trailing(v) <= 7
    ensures v % 256 == 0 ==> v / 256 > 0 && Trailing(v) == 8 + Trailing(v / 256)
  {
    assert Mask(8) == 256;
    TrailingSplit(v, 8);
    if v % 256 != 0 {
      TableRight(v % 256);
      SmallTrailing(v % 256, 8);
    }
  }

  lemma {:induction false} SmallTrailing(v: nat, n: nat)
    requires 0 < v < Mask(n)
    ensures Trailing(v) < n
  {
    if v % 2 == 0 { SmallTrailing(v / 2, n - 1); }
  }
}
