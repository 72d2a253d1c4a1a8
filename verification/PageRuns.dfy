/** The free-page list of slab.c on values: runs of free pages in list order, pages numbered from the
    start of the heap. */
module PageRuns {
  import opened Rings

  datatype Run = Run(start: int, len: int)

  const NULL := -1

  predicate In(r: Run, p: int) {
    r.start <= p < r.start + r.len
  }

  /** Page p is free. */
  predicate Has(rs: seq<Run>, p: int) {
    exists i :: 0 <= i < |rs| && In(rs[i], p)
  }

  /** Ascending, non-empty runs with at least one page that is not free between neighbours. */
  predicate Canonical(rs: seq<Run>) {
    && (forall i :: 0 <= i < |rs| ==> rs[i].len > 0 && rs[i].start >= 0)
    && (forall i, j :: 0 <= i < j < |rs| ==> rs[i].start + rs[i].len < rs[j].start)
  }

  /** First run of at least n pages, or |rs|. */
  function FitAt(rs: seq<Run>, n: int): (k: nat)
    ensures k <= |rs|
    ensures k < |rs| ==> rs[k].len >= n
    ensures forall i :: 0 <= i < k ==> rs[i].len < n
  {
    if rs == [] then 0 else if rs[0].len >= n then 0 else 1 + FitAt(rs[1..], n)
  }

  /** rt_page_alloc: the list afterwards and the first page handed out, or NULL. */
  function Alloc(rs: seq<Run>, n: nat): (seq<Run>, int) {
    var k := FitAt(rs, n);
    if n == 0 || k == |rs| then (rs, NULL)
    else if rs[k].len > n then (rs[k := Run(rs[k].start + n, rs[k].len - n)], rs[k].start)
    else (RemoveAt(rs, k), rs[k].start)
  }

  /** Where the loop of rt_page_free stops. */
  predicate Stops(b: Run, a: int, n: int) {
    b.start + b.len == a || b.start >= a + n
  }

  function Place(rs: seq<Run>, a: int, n: int): (k: nat)
    ensures k <= |rs|
    ensures k < |rs| ==> Stops(rs[k], a, n)
    ensures forall i :: 0 <= i < k ==> !Stops(rs[i], a, n)
  {
    if rs == [] then 0 else if Stops(rs[0], a, n) then 0 else 1 + Place(rs[1..], a, n)
  }

  /** rt_page_free of the n pages from a. */
  function Free(rs: seq<Run>, a: int, n: int): seq<Run> {
    var k := Place(rs, a, n);
    if k == |rs| then rs + [Run(a, n)]
    else if rs[k].start + rs[k].len == a then
      var grown := Run(rs[k].start, rs[k].len + n);
      if k + 1 < |rs| && grown.start + grown.len == rs[k + 1].start
      then RemoveAt(rs, k + 1)[k := Run(grown.start, grown.len + rs[k + 1].len)]
      else rs[k := grown]
    else if rs[k].start == a + n then rs[k := Run(a, rs[k].len + n)]
    else InsertAt(rs, k, Run(a, n))
  }

  /** None of the n pages from a is free, as rt_page_free asserts. */
  predicate Taken(rs: seq<Run>, a: int, n: int) {
    forall i :: 0 <= i < |rs| ==> rs[i].start >= a + n || rs[i].start + rs[i].len <= a
  }

  // ----- what the list means

  lemma TakenMeans(rs: seq<Run>, a: int, n: int)
    requires Canonical(rs) && n > 0
    ensures Taken(rs, a, n) <==> forall p :: a <= p < a + n ==> !Has(rs, p)
  {
    if forall p :: a <= p < a + n ==> !Has(rs, p) {
      forall i | 0 <= i < |rs| ensures rs[i].start >= a + n || rs[i].start + rs[i].len <= a {
        var p := if rs[i].start >= a then rs[i].start else a;
        if !(rs[i].start >= a + n || rs[i].start + rs[i].len <= a) {
          assert In(rs[i], p);
          assert Has(rs, p);
          assert false;
        }
      }
    }
  }

  lemma FirstPage(rs: seq<Run>, p: int)
    requires Canonical(rs) && Has(rs, p)
    ensures rs != [] && rs[0].start <= p && rs[0].len > 0
    ensures Has(rs, rs[0].start)
    ensures !Has(rs, rs[0].start + rs[0].len)
    ensures forall q :: In(rs[0], q) ==> Has(rs, q)
    ensures Canonical(rs[1..])
    ensures forall q :: Has(rs[1..], q) <==> Has(rs, q) && !In(rs[0], q)
  {
    var i :| 0 <= i < |rs| && In(rs[i], p);
    assert i == 0 || rs[0].start + rs[0].len < rs[i].start;
    forall q ensures Has(rs[1..], q) <==> Has(rs, q) && !In(rs[0], q) {
      if Has(rs[1..], q) {
        var j :| 0 <= j < |rs[1..]| && In(rs[1..][j], q);
        assert In(rs[j + 1], q);
      }
      if Has(rs, q) && !In(rs[0], q) {
        var j :| 0 <= j < |rs| && In(rs[j], q);
        assert In(rs[1..][j - 1], q);
      }
    }
  }

  lemma HasAt(rs: seq<Run>, i: nat, p: int)
    requires i < |rs| && In(rs[i], p)
    ensures Has(rs, p)
  {
  }

  lemma HasSome(rs: seq<Run>)
    requires Canonical(rs)
    ensures rs == [] <==> forall p :: !Has(rs, p)
  {
    if rs != [] { HasAt(rs, 0, rs[0].start); }
  }

  /** The list is determined by the set of free pages: there is one canonical list for each set. */
  lemma {:induction false} CanonicalUnique(rs: seq<Run>, ts: seq<Run>)
    requires Canonical(rs) && Canonical(ts)
    requires forall p :: Has(rs, p) <==> Has(ts, p)
    ensures rs == ts
  {
    hide Canonical, Has;
    HasSome(rs);
    HasSome(ts);
    if rs != [] {
      var p :| Has(rs, p);
      FirstPage(rs, p);
      FirstPage(ts, p);
      FirstPage(rs, ts[0].start);
      FirstPage(ts, rs[0].start);
      SameFirst(rs[0], ts[0], rs, ts);
      CanonicalUnique(rs[1..], ts[1..]);
      assert rs == [rs[0]] + rs[1..] && ts == [ts[0]] + ts[1..];
    }
  }

  lemma SameFirst(r: Run, t: Run, rs: seq<Run>, ts: seq<Run>)
    requires forall p :: Has(rs, p) <==> Has(ts, p)
    requires r.start == t.start && r.len >= 0 && t.len >= 0
    requires !Has(rs, r.start + r.len) && !Has(ts, t.start + t.len)
    requires forall q :: In(r, q) ==> Has(rs, q)
    requires forall q :: In(t, q) ==> Has(ts, q)
    ensures r == t
  {
    hide Has;
    assert !In(t, r.start + r.len) && !In(r, t.start + t.len);
  }

  // ----- allocation

  lemma Without(rs: seq<Run>, k: nat, p: int)
    requires Canonical(rs) && k < |rs|
    ensures Has(RemoveAt(rs, k), p) <==> Has(rs, p) && !In(rs[k], p)
  {
    if Has(RemoveAt(rs, k), p) { WithoutOnly(rs, k, p); }
    if Has(rs, p) && !In(rs[k], p) { WithoutKeeps(rs, k, p); }
  }

  lemma WithoutOnly(rs: seq<Run>, k: nat, p: int)
    requires Canonical(rs) && k < |rs| && Has(RemoveAt(rs, k), p)
    ensures Has(rs, p) && !In(rs[k], p)
  {
    hide Canonical;
    var r := RemoveAt(rs, k);
    var i :| 0 <= i < |r| && In(r[i], p);
    Elsewhere(rs, k, if i < k then i else i + 1, p);
  }

  lemma WithoutKeeps(rs: seq<Run>, k: nat, p: int)
    requires k < |rs| && Has(rs, p) && !In(rs[k], p)
    ensures Has(RemoveAt(rs, k), p)
  {
    var i :| 0 <= i < |rs| && In(rs[i], p);
    HasAt(RemoveAt(rs, k), if i < k then i else i - 1, p);
  }

  lemma Elsewhere(rs: seq<Run>, k: nat, i: nat, p: int)
    requires Canonical(rs) && k < |rs| && i < |rs| && i != k && In(rs[i], p)
    ensures Has(rs, p) && !In(rs[k], p)
  {
    assert i < k || k < i;
  }

  lemma Added(rs: seq<Run>, k: nat, b: Run, p: int)
    requires k <= |rs|
    ensures Has(InsertAt(rs, k, b), p) <==> Has(rs, p) || In(b, p)
  {
    var r := InsertAt(rs, k, b);
    if Has(r, p) {
      var i :| 0 <= i < |r| && In(r[i], p);
      hide Has;
      if i != k { HasAt(rs, if i < k then i else i - 1, p); }
    }
    if In(b, p) { HasAt(r, k, p); }
    if Has(rs, p) {
      var i :| 0 <= i < |rs| && In(rs[i], p);
      hide Has;
      HasAt(r, if i < k then i else i + 1, p);
    }
  }

  lemma Changed(rs: seq<Run>, k: nat, b: Run, p: int)
    requires Canonical(rs) && k < |rs|
    ensures Has(rs[k := b], p) <==> In(b, p) || (Has(rs, p) && !In(rs[k], p))
  {
    var r := rs[k := b];
    if Has(r, p) {
      var i :| 0 <= i < |r| && In(r[i], p);
      if i != k { HasAt(rs, i, p); }
    }
    if In(b, p) { HasAt(r, k, p); }
    if Has(rs, p) && !In(rs[k], p) {
      var i :| 0 <= i < |rs| && In(rs[i], p);
      HasAt(r, i, p);
    }
  }

  lemma AllocCanonical(rs: seq<Run>, n: nat)
    requires Canonical(rs)
    ensures Canonical(Alloc(rs, n).0)
  {
  }

  /** What rt_page_alloc hands out: n free pages, which stop being free; nothing else changes. */
  lemma AllocPages(rs: seq<Run>, n: nat, p: int)
    requires Canonical(rs) && Alloc(rs, n).1 != NULL
    ensures var (rs', a) := Alloc(rs, n);
            && a >= 0 && n > 0 && (a <= p < a + n ==> Has(rs, p))
            && (Has(rs', p) <==> Has(rs, p) && !(a <= p < a + n))
  {
    var k := FitAt(rs, n);
    if rs[k].start <= p < rs[k].start + n { HasAt(rs, k, p); }
    if rs[k].len > n {
      Changed(rs, k, Run(rs[k].start + n, rs[k].len - n), p);
      if In(rs[k], p) { HasAt(rs, k, p); }
    } else {
      Without(rs, k, p);
    }
  }

  /** rt_page_alloc takes the lowest place that has n free pages in a row, and fails only when no place
      has. */
  lemma AllocLowest(rs: seq<Run>, n: nat, a: int)
    requires Canonical(rs) && n > 0 && forall p :: a <= p < a + n ==> Has(rs, p)
    ensures Alloc(rs, n).1 != NULL && Alloc(rs, n).1 <= a
  {
    assert Has(rs, a);
    var i :| 0 <= i < |rs| && In(rs[i], a);
    var e := rs[i].start + rs[i].len;
    GapAfter(rs, i);
    assert a + n <= e;
  }

  lemma GapAfter(rs: seq<Run>, i: nat)
    requires Canonical(rs) && i < |rs|
    ensures !Has(rs, rs[i].start + rs[i].len)
  {
  }

  // ----- freeing

  /** Below the stopping point every run ends before the freed pages, with a gap; from there on every run
      starts behind them, the first one possibly excepted. */
  lemma PlaceFacts(rs: seq<Run>, a: int, n: int)
    requires Canonical(rs) && n > 0 && Taken(rs, a, n)
    ensures forall i :: 0 <= i < Place(rs, a, n) ==> rs[i].start + rs[i].len < a
    ensures forall i :: Place(rs, a, n) < i < |rs| ==> rs[i].start >= a + n
  {
    var k := Place(rs, a, n);
    forall i | 0 <= i < k ensures rs[i].start + rs[i].len < a {
      assert !Stops(rs[i], a, n);
    }
    forall i | k < i < |rs| ensures rs[i].start >= a + n {
      assert Stops(rs[k], a, n);
      assert rs[k].start + rs[k].len < rs[i].start;
    }
  }

  lemma CanonicalInsert(rs: seq<Run>, k: nat, b: Run)
    requires Canonical(rs) && k <= |rs| && b.len > 0 && b.start >= 0
    requires forall i :: 0 <= i < k ==> rs[i].start + rs[i].len < b.start
    requires forall i :: k <= i < |rs| ==> b.start + b.len < rs[i].start
    ensures Canonical(InsertAt(rs, k, b))
  {
    var r := InsertAt(rs, k, b);
    forall i, j | 0 <= i < j < |r| ensures r[i].start + r[i].len < r[j].start {
      var i', j' := if i < k then i else i - 1, if j < k then j else j - 1;
      assert i == k || r[i] == rs[i'];
      assert j == k || r[j] == rs[j'];
      assert i == k || j == k || i' < j';
    }
  }

  lemma CanonicalRemove(rs: seq<Run>, k: nat)
    requires Canonical(rs) && k < |rs|
    ensures Canonical(RemoveAt(rs, k))
  {
  }

  /** `base` with run b put in at position k is a canonical list of the old free pages and the n from a. */
  ghost predicate Lands(rs: seq<Run>, a: int, n: int, k: nat, b: Run, base: seq<Run>) {
    && Canonical(base) && b.len > 0 && b.start >= 0 && k <= |base|
    && (forall i :: 0 <= i < k ==> base[i].start + base[i].len < b.start)
    && (forall i :: k <= i < |base| ==> b.start + b.len < base[i].start)
    && (forall p :: In(b, p) || Has(base, p) <==> Has(rs, p) || a <= p < a + n)
  }

  lemma LandsAlone(rs: seq<Run>, a: int, n: int)
    requires Canonical(rs) && n > 0 && a >= 0 && Taken(rs, a, n)
    requires var k := Place(rs, a, n); k == |rs| || (rs[k].start + rs[k].len != a && rs[k].start != a + n)
    ensures Lands(rs, a, n, Place(rs, a, n), Run(a, n), rs)
    ensures Free(rs, a, n) == InsertAt(rs, Place(rs, a, n), Run(a, n))
  {
    PlaceFacts(rs, a, n);
    hide Canonical, Has, Taken;
    var k := Place(rs, a, n);
    assert k == |rs| ==> InsertAt(rs, k, Run(a, n)) == rs + [Run(a, n)];
    assert k < |rs| ==> Stops(rs[k], a, n);
  }

  lemma KeptRuns(rs: seq<Run>, k: nat)
    requires Canonical(rs) && k < |rs|
    ensures Canonical(RemoveAt(rs, k))
    ensures forall p :: Has(rs, p) <==> Has(RemoveAt(rs, k), p) || In(rs[k], p)
  {
    CanonicalRemove(rs, k);
    hide Canonical, Has;
    forall p ensures Has(rs, p) <==> Has(RemoveAt(rs, k), p) || In(rs[k], p) {
      Without(rs, k, p);
      if In(rs[k], p) { HasAt(rs, k, p); }
    }
  }

  lemma RunAt(rs: seq<Run>, k: nat)
    requires Canonical(rs) && k < |rs|
    ensures rs[k].len > 0 && rs[k].start >= 0
    ensures forall i :: 0 <= i < k ==> rs[i].start + rs[i].len < rs[k].start
    ensures forall i :: k < i < |rs| ==> rs[k].start + rs[k].len < rs[i].start
    ensures k + 1 < |rs| ==> forall i :: k + 1 < i < |rs| ==> rs[k + 1].start + rs[k + 1].len < rs[i].start
  {
  }

  lemma ReplaceIs(rs: seq<Run>, k: nat, b: Run)
    requires k < |rs|
    ensures rs[k := b] == InsertAt(RemoveAt(rs, k), k, b)
  {
  }

  lemma MergeIs(rs: seq<Run>, k: nat, b: Run)
    requires k + 1 < |rs|
    ensures RemoveAt(rs, k + 1)[k := b] == InsertAt(RemoveAt(RemoveAt(rs, k), k), k, b)
  {
    var x, z := rs[..k], rs[k + 2..];
    assert RemoveAt(rs, k + 1)[k := b] == x + [b] + z;
    assert RemoveAt(RemoveAt(rs, k), k) == x + z;
  }

  lemma LandsBefore(rs: seq<Run>, a: int, n: int)
    requires Canonical(rs) && n > 0 && a >= 0 && Taken(rs, a, n)
    requires var k := Place(rs, a, n); k < |rs| && rs[k].start + rs[k].len != a && rs[k].start == a + n
    ensures var k := Place(rs, a, n);
            && Lands(rs, a, n, k, Run(a, rs[k].len + n), RemoveAt(rs, k))
            && Free(rs, a, n) == InsertAt(RemoveAt(rs, k), k, Run(a, rs[k].len + n))
  {
    hide Canonical, Has, Taken, InsertAt, RemoveAt;
    var k := Place(rs, a, n);
    PlaceFacts(rs, a, n);
    KeptRuns(rs, k);
    RunAt(rs, k);
    ReplaceIs(rs, k, Run(a, rs[k].len + n));
  }

  lemma LandsBehind(rs: seq<Run>, a: int, n: int)
    requires Canonical(rs) && n > 0 && a >= 0 && Taken(rs, a, n)
    requires var k := Place(rs, a, n);
             k < |rs| && rs[k].start + rs[k].len == a && (k + 1 < |rs| ==> rs[k + 1].start != a + n)
    ensures var k := Place(rs, a, n);
            && Lands(rs, a, n, k, Run(rs[k].start, rs[k].len + n), RemoveAt(rs, k))
            && Free(rs, a, n) == InsertAt(RemoveAt(rs, k), k, Run(rs[k].start, rs[k].len + n))
  {
    hide Canonical, Has, Taken, InsertAt, RemoveAt;
    var k := Place(rs, a, n);
    PlaceFacts(rs, a, n);
    KeptRuns(rs, k);
    RunAt(rs, k);
    if k + 1 < |rs| { RunAt(rs, k + 1); }
    ReplaceIs(rs, k, Run(rs[k].start, rs[k].len + n));
  }

  lemma LandsBetween(rs: seq<Run>, a: int, n: int)
    requires Canonical(rs) && n > 0 && a >= 0 && Taken(rs, a, n)
    requires var k := Place(rs, a, n);
             k + 1 < |rs| && rs[k].start + rs[k].len == a && rs[k + 1].start == a + n
    ensures var k := Place(rs, a, n);
            Lands(rs, a, n, k, Run(rs[k].start, rs[k].len + n + rs[k + 1].len), RemoveAt(RemoveAt(rs, k), k))
  {
    hide Canonical, Has, Taken, Free;
    var k := Place(rs, a, n);
    KeptRuns(rs, k);
    KeptRuns(RemoveAt(rs, k), k);
    RunAt(rs, k);
    RunAt(rs, k + 1);
  }

  lemma FreeBetween(rs: seq<Run>, a: int, n: int)
    requires var k := Place(rs, a, n);
             k + 1 < |rs| && rs[k].start + rs[k].len == a && rs[k + 1].start == a + n
    ensures var k := Place(rs, a, n);
            Free(rs, a, n) == InsertAt(RemoveAt(RemoveAt(rs, k), k), k,
                                       Run(rs[k].start, rs[k].len + n + rs[k + 1].len))
  {
    hide InsertAt, RemoveAt;
    var k := Place(rs, a, n);
    MergeIs(rs, k, Run(rs[k].start, rs[k].len + n + rs[k + 1].len));
  }

  /** The four ways rt_page_free ends. */
  lemma FreeCases(rs: seq<Run>, a: int, n: int) returns (k: nat, b: Run, base: seq<Run>)
    requires Canonical(rs) && n > 0 && a >= 0 && Taken(rs, a, n)
    ensures Lands(rs, a, n, k, b, base) && k <= |base| && Free(rs, a, n) == InsertAt(base, k, b)
  {
    hide Canonical, Has, Free, Taken, Lands;
    k := Place(rs, a, n);
    if k == |rs| || (rs[k].start + rs[k].len != a && rs[k].start != a + n) {
      LandsAlone(rs, a, n);
      b, base := Run(a, n), rs;
    } else if rs[k].start + rs[k].len != a {
      LandsBefore(rs, a, n);
      b, base := Run(a, rs[k].len + n), RemoveAt(rs, k);
    } else if k + 1 < |rs| && rs[k + 1].start == a + n {
      LandsBetween(rs, a, n);
      FreeBetween(rs, a, n);
      b, base := Run(rs[k].start, rs[k].len + n + rs[k + 1].len), RemoveAt(RemoveAt(rs, k), k);
    } else {
      LandsBehind(rs, a, n);
      b, base := Run(rs[k].start, rs[k].len + n), RemoveAt(rs, k);
    }
    LandsFits(rs, a, n, k, b, base);
  }

  lemma LandsFits(rs: seq<Run>, a: int, n: int, k: nat, b: Run, base: seq<Run>)
    requires Lands(rs, a, n, k, b, base)
    ensures k <= |base|
  {
  }

  /** rt_page_free keeps the list canonical, makes the n pages from a free and changes nothing else. */
  lemma FreePages(rs: seq<Run>, a: int, n: int)
    requires Canonical(rs) && n > 0 && a >= 0 && Taken(rs, a, n)
    ensures Canonical(Free(rs, a, n))
    ensures forall p :: Has(Free(rs, a, n), p) <==> Has(rs, p) || a <= p < a + n
  {
    hide Canonical, Has, Free, Taken;
    var k, b, base := FreeCases(rs, a, n);
    CanonicalInsert(base, k, b);
    forall p ensures Has(Free(rs, a, n), p) <==> Has(rs, p) || a <= p < a + n {
      Added(base, k, b, p);
    }
  }

  // ----- allocation against freeing

  lemma AllocFacts(rs: seq<Run>, n: nat)
    requires Canonical(rs) && Alloc(rs, n).1 != NULL
    ensures var (rs', a) := Alloc(rs, n);
            && Canonical(rs') && a >= 0 && n > 0 && Taken(rs', a, n)
            && (forall p :: a <= p < a + n ==> Has(rs, p))
            && (forall p :: Has(rs', p) <==> Has(rs, p) && !(a <= p < a + n))
  {
    hide Canonical, Has, Taken;
    var (rs', a) := Alloc(rs, n);
    AllocCanonical(rs, n);
    hide Alloc;
    forall p ensures (a <= p < a + n ==> Has(rs, p)) && (Has(rs', p) <==> Has(rs, p) && !(a <= p < a + n)) {
      AllocPages(rs, n, p);
    }
    AllocPages(rs, n, 0);
    TakenMeans(rs', a, n);
  }

  /** Freeing a run just allocated restores exactly the previous list. */
  lemma AllocFreeRoundTrip(rs: seq<Run>, n: nat)
    requires Canonical(rs) && Alloc(rs, n).1 != NULL
    ensures Free(Alloc(rs, n).0, Alloc(rs, n).1, n) == rs
  {
    hide Canonical, Has, Taken, Alloc, Free;
    var (rs', a) := Alloc(rs, n);
    AllocFacts(rs, n);
    FreePages(rs', a, n);
    CanonicalUnique(Free(rs', a, n), rs);
  }

  /** The order in which two runs are freed does not show. */
  lemma FreeCommutes(rs: seq<Run>, a: int, n: int, b: int, m: int)
    requires Canonical(rs) && n > 0 && m > 0 && a >= 0 && b >= 0
    requires Taken(rs, a, n) && Taken(rs, b, m) && (a + n <= b || b + m <= a)
    ensures Free(Free(rs, a, n), b, m) == Free(Free(rs, b, m), a, n)
  {
    hide Canonical, Has, Taken, Free;
    TakenMeans(rs, a, n);
    TakenMeans(rs, b, m);
    FreePages(rs, a, n);
    FreePages(rs, b, m);
    TakenMeans(Free(rs, a, n), b, m);
    TakenMeans(Free(rs, b, m), a, n);
    FreePages(Free(rs, a, n), b, m);
    FreePages(Free(rs, b, m), a, n);
    CanonicalUnique(Free(Free(rs, a, n), b, m), Free(Free(rs, b, m), a, n));
  }

  // ----- histories

  /** The free list and the runs handed out and not yet given back. */
  datatype Pages = Pages(free: seq<Run>, owned: set<Run>)

  datatype Op = Get(n: nat) | Put(run: Run)

  function Step(s: Pages, op: Op): Pages {
    match op
    case Get(n) =>
      var (free, a) := Alloc(s.free, n);
      if a == NULL then s else Pages(free, s.owned + {Run(a, n)})
    case Put(r) =>
      if r in s.owned then Pages(Free(s.free, r.start, r.len), s.owned - {r}) else s
  }

  function Steps(s: Pages, ops: seq<Op>): Pages
    decreases |ops|
  {
    if ops == [] then s else Steps(Step(s, ops[0]), ops[1..])
  }

  ghost predicate Owned(owned: set<Run>, p: int) {
    exists r :: r in owned && In(r, p)
  }

  /** The pages of a heap of `total` pages are split between the canonical free list and the runs handed
      out, which do not overlap. */
  ghost predicate Conserved(s: Pages, total: nat) {
    && Canonical(s.free)
    && (forall r :: r in s.owned ==> r.len > 0 && r.start >= 0 && Taken(s.free, r.start, r.len))
    && (forall r, t :: r in s.owned && t in s.owned && r != t ==>
          r.start + r.len <= t.start || t.start + t.len <= r.start)
    && (forall p :: 0 <= p < total <==> Has(s.free, p) || Owned(s.owned, p))
  }

  lemma GetConserves(s: Pages, n: nat, total: nat)
    requires Conserved(s, total) && Alloc(s.free, n).1 != NULL
    ensures Conserved(Step(s, Get(n)), total)
  {
    hide Canonical, Has, Alloc;
    var (free, a) := Alloc(s.free, n);
    var s' := Step(s, Get(n));
    AllocFacts(s.free, n);
    forall r | r in s.owned ensures Taken(free, r.start, r.len) && (r.start + r.len <= a || a + n <= r.start) {
      TakenMeans(s.free, r.start, r.len);
      hide Taken;
      TakenMeans(free, r.start, r.len);
      forall p | In(r, p) ensures !(a <= p < a + n) {
        assert !Has(s.free, p);
      }
      assert In(r, r.start) && (r.start <= a < r.start + r.len ==> In(r, a));
    }
    forall p ensures 0 <= p < total <==> Has(s'.free, p) || Owned(s'.owned, p) {
      assert Owned(s'.owned, p) <==> Owned(s.owned, p) || In(Run(a, n), p) by {
        if In(Run(a, n), p) { assert Run(a, n) in s'.owned; }
        if Owned(s.owned, p) { var r :| r in s.owned && In(r, p); assert r in s'.owned; }
      }
    }
  }

  lemma PutConserves(s: Pages, r: Run, total: nat)
    requires Conserved(s, total) && r in s.owned
    ensures Conserved(Step(s, Put(r)), total)
  {
    hide Canonical, Has, Free;
    var s' := Step(s, Put(r));
    FreePages(s.free, r.start, r.len);
    forall t | t in s'.owned ensures Taken(s'.free, t.start, t.len) {
      TakenMeans(s.free, t.start, t.len);
      TakenMeans(s'.free, t.start, t.len);
    }
    forall p ensures 0 <= p < total <==> Has(s'.free, p) || Owned(s'.owned, p) {
      assert Owned(s.owned, p) <==> Owned(s'.owned, p) || In(r, p) by {
        if Owned(s.owned, p) && !In(r, p) { var t :| t in s.owned && In(t, p); assert t in s'.owned; }
        if Owned(s'.owned, p) { var t :| t in s'.owned && In(t, p); assert t in s.owned; }
      }
    }
  }

  lemma StepConserves(s: Pages, op: Op, total: nat)
    requires Conserved(s, total)
    ensures Conserved(Step(s, op), total)
  {
    hide Conserved, Alloc, Free;
    match op
    case Get(n) => if Alloc(s.free, n).1 != NULL { GetConserves(s, n, total); }
    case Put(r) => if r in s.owned { PutConserves(s, r, total); }
  }

  /** Over every history of allocations and frees no page is lost, duplicated or handed out twice. */
  lemma {:induction false} StepsConserve(s: Pages, ops: seq<Op>, total: nat)
    requires Conserved(s, total)
    ensures Conserved(Steps(s, ops), total)
    decreases |ops|
  {
    if ops != [] {
      hide Conserved, Step;
      StepConserves(s, ops[0], total);
      StepsConserve(Step(s, ops[0]), ops[1..], total);
    }
  }

  /** Once everything has been given back, in whatever order, the list is one run of all pages again. */
  lemma AllReturned(total: nat, ops: seq<Op>)
    requires total > 0 && Steps(Pages([Run(0, total)], {}), ops).owned == {}
    ensures Steps(Pages([Run(0, total)], {}), ops).free == [Run(0, total)]
  {
    var start := Pages([Run(0, total)], {});
    forall p ensures 0 <= p < total <==> Has(start.free, p) {
      if 0 <= p < total { HasAt(start.free, 0, p); }
    }
    hide Has, Steps;
    StepsConserve(start, ops, total);
    CanonicalUnique(Steps(start, ops).free, start.free);
  }
}
