/** Event words as sets of events: what the word operations of ipc.c mean. */
module EventBits {
  import opened EventSpec

  /** A word that names one event. */
  predicate OneBit(m: Bits) {
    m != 0 && m & (m - 1) == 0
  }

  predicate Has(v: Bits, m: Bits) {
    v & m != 0
  }

  ghost function SetOf(v: Bits): iset<Bits> {
    iset m | OneBit(m) && Has(v, m)
  }

  lemma JoinedSet(a: Bits, b: Bits)
    ensures SetOf(Joined(a, b)) == SetOf(a) + SetOf(b)
  {
    hide OneBit, Has, Joined;
    forall m: Bits ensures Has(Joined(a, b), m) <==> Has(a, m) || Has(b, m) { OrBit(a, b, m); }
  }

  lemma OrBit(a: Bits, b: Bits, m: Bits)
    ensures Has(Joined(a, b), m) <==> Has(a, m) || Has(b, m)
  {
    hide Joined;
    JoinedSpreads(a, b, m);
    JoinedZero(a & m, b & m);
  }

  lemma JoinedSpreads(a: Bits, b: Bits, m: Bits)
    ensures Joined(a, b) & m == Joined(a & m, b & m)
  {
    SpreadOr(a, b, m);
  }

  lemma SpreadOr(a: Bits, b: Bits, m: Bits)
    ensures (a | b) & m == (a & m) | (b & m)
  {
  }

  lemma JoinedZero(a: Bits, b: Bits)
    ensures Joined(a, b) != 0 <==> a != 0 || b != 0
  {
  }

  lemma AndBit(a: Bits, b: Bits, m: Bits)
    requires OneBit(m)
    ensures Has(Both(a, b), m) <==> Has(a, m) && Has(b, m)
    ensures Has(Cleared(a, b), m) <==> Has(a, m) && !Has(b, m)
  {
    Whole(a, m);
    Whole(b, m);
    hide OneBit;
    Spread(a, b, m);
    Corners(m);
  }

  /** One bit is there as a whole or not at all. */
  lemma Whole(a: Bits, m: Bits)
    requires OneBit(m)
    ensures a & m == 0 || a & m == m
  {
  }

  lemma Spread(a: Bits, b: Bits, m: Bits)
    ensures Both(a, b) & m == Both(a & m, b & m)
    ensures Cleared(a, b) & m == Cleared(a & m, b & m)
  {
    SpreadBoth(a, b, m);
    SpreadCleared(a, b, m);
  }

  lemma SpreadBoth(a: Bits, b: Bits, m: Bits)
    ensures a & b & m == (a & m) & (b & m)
  {
  }

  lemma SpreadCleared(a: Bits, b: Bits, m: Bits)
    ensures a & !b & m == (a & m) & !(b & m)
  {
  }

  lemma Corners(m: Bits)
    ensures Both(0, 0) == 0 && Both(0, m) == 0 && Both(m, 0) == 0 && Both(m, m) == m
    ensures Cleared(0, 0) == 0 && Cleared(0, m) == 0 && Cleared(m, 0) == m && Cleared(m, m) == 0
  {
  }

  lemma BothSet(a: Bits, b: Bits)
    ensures SetOf(Both(a, b)) == SetOf(a) * SetOf(b)
  {
    hide OneBit, Has, Both;
    forall m: Bits | OneBit(m) ensures Has(Both(a, b), m) <==> Has(a, m) && Has(b, m) { AndBit(a, b, m); }
  }

  lemma ClearedSet(a: Bits, b: Bits)
    ensures SetOf(Cleared(a, b)) == SetOf(a) - SetOf(b)
  {
    hide OneBit, Has, Cleared;
    forall m: Bits | OneBit(m) ensures Has(Cleared(a, b), m) <==> Has(a, m) && !Has(b, m) { AndBit(a, b, m); }
  }

  /** A word that is not zero has a lowest bit. */
  lemma LowestBit(v: Bits)
    requires v != 0
    ensures v & (0 - v) in SetOf(v)
  {
  }

  lemma Nonzero(v: Bits)
    ensures v != 0 <==> SetOf(v) != iset{}
  {
    hide OneBit;
    if v != 0 { LowestBit(v); }
  }

  lemma AnySet(a: Bits, b: Bits)
    ensures HasAny(a, b) <==> SetOf(a) * SetOf(b) != iset{}
  {
    hide SetOf;
    BothSet(a, b);
    Nonzero(Both(a, b));
  }

  lemma AllSet(a: Bits, b: Bits)
    ensures HasAll(a, b) <==> SetOf(b) <= SetOf(a)
  {
    hide HasAll, SetOf, Cleared;
    ClearedSet(b, a);
    Nonzero(Cleared(b, a));
    AllClear(a, b);
    Within(SetOf(a), SetOf(b));
  }

  lemma Within(a: iset<Bits>, b: iset<Bits>)
    ensures b <= a <==> b - a == iset{}
  {
    if b - a == iset{} {
      forall m | m in b ensures m in a { assert m !in b - a; }
    }
  }

  lemma AllClear(a: Bits, b: Bits)
    ensures HasAll(a, b) <==> Cleared(b, a) == 0
  {
    if a & b == b { NothingLeft(a, b); }
    if b & !a == 0 { AllThere(a, b); }
  }

  lemma NothingLeft(a: Bits, b: Bits)
    requires a & b == b
    ensures b & !a == 0
  {
  }

  lemma AllThere(a: Bits, b: Bits)
    requires b & !a == 0
    ensures a & b == b
  {
  }

  /** A word is determined by its set. */
  lemma SetInjective(a: Bits, b: Bits)
    requires SetOf(a) == SetOf(b)
    ensures a == b
  {
    hide SetOf;
    AllSet(a, b);
    AllSet(b, a);
  }
}
