/** Zones, lists, page usage and pages agree after every call; no chunk is handed out twice. */
module SlabLaws {
  import opened Rings
  import P = PageRuns
  import opened Chains
  import opened SlabSpec

  // ----- sizes

  lemma RoundTo(n: nat, step: nat, q: nat)
    requires step > 0 && q == (n + step - 1) / step
    ensures n <= q * step < n + step && q * step / step == q
  {
    RoundUp(n, step);
    DivideAtLeast(q * step, step, q);
    var r := q * step / step;
    assert r * step <= q * step;
    Scaled(r, q, step);
  }

  /** A request below 16 KB gets chunks at least as large, of the one size its list holds, with less than an eighth
      (or 8 bytes) to spare. */
  lemma ZoneIndexFits(n: nat)
    requires 0 < n < 16384
    ensures var (bytes, i) := ZoneIndex(n);
            && 0 <= i < NZONES && bytes == ChunkSize(i) && n <= bytes
            && bytes - n < (if n < 128 then 8 else (n + 7) / 8)
  {
    if n < 1024 { SmallFits(n); } else { BigFits(n); }
  }

  lemma SmallFits(n: nat)
    requires 0 < n < 1024
    ensures var (bytes, i) := ZoneIndex(n);
            && 0 <= i < NZONES && bytes == ChunkSize(i) && n <= bytes
            && bytes - n < (if n < 128 then 8 else (n + 7) / 8)
  {
    if n < 128 { RoundTo(n, 8, (n + 7) / 8); }
    else if n < 256 { RoundTo(n, 16, (n + 15) / 16); }
    else if n < 512 { RoundTo(n, 32, (n + 31) / 32); }
    else { RoundTo(n, 64, (n + 63) / 64); }
  }

  lemma BigFits(n: nat)
    requires 1024 <= n < 16384
    ensures var (bytes, i) := ZoneIndex(n);
            0 <= i < NZONES && bytes == ChunkSize(i) && n <= bytes && bytes - n < (n + 7) / 8
  {
    if n < 2048 { RoundTo(n, 128, (n + 127) / 128); }
    else if n < 4096 { RoundTo(n, 256, (n + 255) / 256); }
    else if n < 8192 { RoundTo(n, 512, (n + 511) / 512); }
    else { RoundTo(n, 1024, (n + 1023) / 1024); }
  }

  /** Asking for a chunk size leads to the list of that size. */
  lemma ChunkSizeIndex(i: nat)
    requires i < 71
    ensures ZoneIndex(ChunkSize(i)) == (ChunkSize(i), i)
  {
    if i < 31 { SmallIndex(i); } else { BigIndex(i); }
  }

  lemma SmallIndex(i: nat)
    requires i < 31
    ensures ZoneIndex(ChunkSize(i)) == (ChunkSize(i), i)
  {
    if i < 15 { Exact(i + 1, 8); }
    else if i < 23 { Exact(i - 7, 16); }
    else { Exact(i - 15, 32); }
  }

  lemma BigIndex(i: nat)
    requires 31 <= i < 71
    ensures ZoneIndex(ChunkSize(i)) == (ChunkSize(i), i)
  {
    if i < 39 { Exact(i - 23, 64); }
    else if i < 47 { Exact(i - 31, 128); }
    else if i < 55 { Exact(i - 39, 256); }
    else if i < 63 { Exact(i - 47, 512); }
    else { Exact(i - 55, 1024); }
  }

  lemma Exact(m: nat, step: nat)
    requires step > 0
    ensures (m * step + step - 1) / step == m && m * step / step == m
  {
    RoundUp(m * step, step);
    var q := (m * step + step - 1) / step;
    Scaled(m, q, step);
    assert (q - m) * step < step;
    BelowOne(q - m, step);
    RoundTo(m * step, step, q);
  }

  lemma BelowOne(d: int, c: nat)
    requires c > 0 && d * c < c
    ensures d < 1
  {
    assert (d - 1) * c < 0;
    NotPositive(d - 1, c);
  }

  lemma ZoneIndexMonotone(n: nat, m: nat)
    requires 0 < n <= m < 16384
    ensures ZoneIndex(n).1 <= ZoneIndex(m).1
  {
    ZoneIndexFits(n);
    ZoneIndexFits(m);
  }

  /** The chunk size of a request that reaches the zones is at most a quarter of a zone. */
  lemma ChunkQuarter(c: Config, n: nat)
    requires Sizes(c) && 0 < n < c.zoneLimit
    ensures ZoneIndex(n).0 <= c.zoneSize / 4 && ZoneIndex(n).0 <= 16384 && n < 16384
  {
  }

  lemma Scaled(a: nat, b: nat, c: nat)
    requires c > 0 && a * c <= b * c
    ensures a <= b
  {
    assert (a - b) * c <= 0;
    NotPositive(a - b, c);
  }

  lemma NotPositive(d: int, c: nat)
    requires c > 0 && d * c <= 0
    ensures d <= 0
  {
  }

  lemma NonNegative(d: int, b: nat)
    requires d * b > 0
    ensures d > 0
  {
  }

  lemma DivideAtLeast(a: nat, b: nat, m: nat)
    requires b > 0 && a >= m * b
    ensures a / b >= m && a / b * b <= a
  {
    assert a == a / b * b + a % b;
    var q := a / b;
    assert (q - m + 1) * b > 0;
    assert q - m + 1 > 0 by { NonNegative(q - m + 1, b); }
  }

  lemma RoundUp(a: nat, b: nat)
    requires b > 0
    ensures a <= (a + b - 1) / b * b < a + b
  {
    assert (a + b - 1) == (a + b - 1) / b * b + (a + b - 1) % b;
  }

  lemma NewZoneOk(c: Config, i: nat, size: nat)
    requires Sizes(c) && i < NZONES && size == ChunkSize(i) && 0 < size <= c.zoneSize / 4
    ensures ZoneOk(NewZone(c, i, size), c)
  {
    hide PowerOfTwo;
    RoundUp(HEADER, size);
    var off := Offset(size);
    assert HEADER <= off < HEADER + size + 8;
    assert 2 * size == size * 2;
    assert c.zoneSize - off >= 2 * size;
    DivideAtLeast(c.zoneSize - off, size, 2);
  }

  // ----- one zone

  /** Taking a chunk: one never used before while there is one, else the one freed last. */
  function Taken(z: Zone): (Zone, nat) {
    if z.uindex + 1 != z.nmax then (z.(nfree := if z.nfree > 0 then z.nfree - 1 else 0, uindex := z.uindex + 1), z.uindex + 1)
    else if z.freed == [] then (z, 0)
    else (z.(nfree := if z.nfree > 0 then z.nfree - 1 else 0, freed := z.freed[1..]), z.freed[0])
  }

  predicate InUse(z: Zone, k: nat) {
    k <= z.uindex && k !in z.freed
  }

  lemma TakenOk(z: Zone, c: Config)
    requires ZoneOk(z, c) && z.nfree > 0
    ensures var (z', k) := Taken(z);
            && ZoneOk(z', c) && k < z.nmax && !InUse(z, k) && z'.index == z.index && z'.nmax == z.nmax
            && z'.chunk == z.chunk && z'.off == z.off && z'.nfree == z.nfree - 1
            && (z.uindex + 1 == z.nmax ==> z.freed != [])
            && forall j: nat :: InUse(z', j) <==> InUse(z, j) || j == k
  {
    hide ChunkSize;
    if z.uindex + 1 == z.nmax {
      var r := z.freed[1..];
      assert z.freed[0] in z.freed;
      forall j: nat ensures j in r <==> j in z.freed && j != z.freed[0] {
        if j in z.freed && j != z.freed[0] {
          var i :| 0 <= i < |z.freed| && z.freed[i] == j;
          assert r[i - 1] == j;
        }
      }
    } else {
      assert z.uindex + 1 !in z.freed;
    }
  }

  lemma ReturnedOk(z: Zone, c: Config, k: nat)
    requires ZoneOk(z, c) && InUse(z, k)
    ensures var z' := z.(nfree := z.nfree + 1, freed := [k] + z.freed);
            && ZoneOk(z', c) && (forall j: nat :: InUse(z', j) <==> InUse(z, j) && j != k)
            && z'.nfree <= z.nmax
  {
    hide ChunkSize;
    var z' := z.(nfree := z.nfree + 1, freed := [k] + z.freed);
    assert ZoneOk(z', c);
    FreedFew(z', c);
  }

  lemma OnlyZero(s: seq<nat>)
    requires Distinct(s) && forall i :: 0 <= i < |s| ==> s[i] == 0
    ensures |s| <= 1 && (|s| == 1 ==> 0 in s)
  {
    if |s| > 1 { TwoDiffer(s); }
    assert |s| == 1 ==> s[0] == 0;
  }

  lemma TwoDiffer(s: seq<nat>)
    requires Distinct(s) && |s| > 1
    ensures exists i, j :: 0 <= i < j < |s| && s[i] != s[j]
  {
    var i, j := 0, 1;
    assert s[i] != s[j];
  }

  /** Distinct numbers up to m are at most m + 1. */
  lemma {:induction false} Pigeons(s: seq<nat>, m: nat)
    requires Distinct(s) && forall i :: 0 <= i < |s| ==> s[i] <= m
    ensures |s| <= m + 1
    ensures |s| == m + 1 ==> forall j: nat :: j <= m ==> j in s
    decreases m
  {
    if m == 0 {
      OnlyZero(s);
    } else if m in s {
      var i := IndexOf(s, m);
      var r := RemoveAt(s, i);
      DistinctAfterRemove(s, i);
      RemoveMembers(s, i);
      forall k | 0 <= k < |r| ensures r[k] <= m - 1 {
        assert r[k] in r;
        assert r[k] == s[if k < i then k else k + 1];
      }
      Pigeons(r, m - 1);
    } else {
      forall k | 0 <= k < |s| ensures s[k] <= m - 1 { assert s[k] in s; }
      Pigeons(s, m - 1);
    }
  }

  lemma FreedFew(z: Zone, c: Config)
    requires ZoneOk(z, c)
    ensures z.nfree <= z.nmax
    ensures z.nfree == z.nmax <==> forall k: nat :: !InUse(z, k)
  {
    Pigeons(z.freed, z.uindex);
    if forall k: nat :: !InUse(z, k) {
      forall k: nat | k <= z.uindex ensures k in z.freed { assert !InUse(z, k); }
      AllFreed(z.freed, z.uindex);
    }
  }

  lemma {:induction false} AllFreed(s: seq<nat>, m: nat)
    requires Distinct(s) && forall k: nat :: k <= m ==> k in s
    ensures |s| >= m + 1
    decreases m
  {
    var i := IndexOf(s, m);
    assert m in s;
    if m > 0 {
      RemoveMembers(s, i);
      DistinctAfterRemove(s, i);
      AllFreed(RemoveAt(s, i), m - 1);
    }
  }

  // ----- the lists of zones

  lemma PushDistinct(q: seq<int>, b: int)
    requires Distinct(q) && b !in q
    ensures Distinct([b] + q) && forall x :: x in [b] + q <==> x in q || x == b
  {
  }

  lemma DropDistinct(q: seq<int>, b: int)
    requires Distinct(q)
    ensures Distinct(Without(q, b)) && forall x :: x in Without(q, b) <==> x in q && x != b
  {
    var k := IndexOf(q, b);
    if k < |q| {
      DistinctAfterRemove(q, k);
      RemoveMembers(q, k);
    }
  }

  /** One list and one zone change together. */
  lemma Relisted(h: Heap, h': Heap, b: int, i: nat, list: seq<int>)
    requires Listed(h) && i < NZONES && b in h'.zones && h'.zones[b].index == i && h'.zones == h.zones[b := h'.zones[b]]
    requires h'.lists == h.lists[i := list] && h'.parked == h.parked && b !in h.parked
    requires b in h.zones ==> h.zones[b].index == i
    requires Distinct(list) && (b in list <==> h'.zones[b].nfree > 0) && forall x :: x != b ==> (x in list <==> x in h.lists[i])
    ensures Listed(h')
  {
    hide Distinct;
    forall j, x | 0 <= j < NZONES
      ensures x in h'.lists[j] <==> x in h'.zones && h'.zones[x].index == j && h'.zones[x].nfree > 0 && x !in h'.parked
    {
      if j != i {
        assert h'.lists[j] == h.lists[j];
      } else if x != b {
        assert x in h'.lists[i] <==> x in h.lists[i];
      }
    }
    assert forall j :: 0 <= j < NZONES && j != i ==> h'.lists[j] == h.lists[j];
  }

  // ----- malloc from a zone

  lemma HeadZone(h: Heap, i: nat)
    requires Listed(h) && i < NZONES && h.lists[i] != []
    ensures var b := h.lists[i][0]; b in h.zones && h.zones[b].index == i && h.zones[b].nfree > 0 && b !in h.parked
  {
    assert h.lists[i][0] in h.lists[i];
  }

  lemma PagedSame(h: Heap, h': Heap, c: Config)
    requires Paged(h, c) && h'.zones.Keys == h.zones.Keys && h'.larges == h.larges && h'.pages == h.pages && h'.usage == h.usage
    ensures Paged(h', c)
  {
    assert forall b :: b in h'.zones <==> b in h.zones.Keys;
  }

  /** The first zone of the list gives a chunk that was not in use. */
  lemma MallocChunkFacts(h: Heap, c: Config, total: nat, i: nat)
    requires WF(h, c, total) && i < NZONES && h.lists[i] != []
    ensures var (h', blk) := MallocChunk(h, i);
            && WF(h', c, total) && blk.Chunk? && !Live(h, blk) && (forall x :: Live(h', x) <==> Live(h, x) || x == blk)
            && blk.zone in h'.zones && h'.zones[blk.zone].index == i && blk.k < h'.zones[blk.zone].nmax
  {
    hide P.Conserved, ZoneOk, Paged, Listed, Distinct;
    ListedDistinct(h, i);
    var (h', blk) := MallocChunk(h, i);
    HeadZone(h, i);
    var b := h.lists[i][0];
    var z := h.zones[b];
    TakenOk(z, c);
    assert h'.zones[b] == Taken(z).0 && blk == Chunk(b, Taken(z).1);
    TakenListed(h, h', i, c);
    PagedSame(h, h', c);
    forall x ensures Live(h', x) <==> Live(h, x) || x == blk {
      match x
      case Chunk(d, k) =>
        if d == b { assert Live(h', x) == InUse(h'.zones[b], k) && Live(h, x) == InUse(z, k); }
      case Pages(p) =>
      case None =>
    }
    assert Live(h, blk) == InUse(z, blk.k);
  }

  lemma TakenListed(h: Heap, h': Heap, i: nat, c: Config)
    requires Listed(h) && i < NZONES && h.lists[i] != [] && h.lists[i][0] in h.zones
    requires var b := h.lists[i][0];
             && ZoneOk(h.zones[b], c)
             && h'.zones == h.zones[b := Taken(h.zones[b]).0] && h'.parked == h.parked
             && h'.lists == (if h.zones[b].nfree <= 1 then h.lists[i := h.lists[i][1..]] else h.lists)
    ensures Listed(h')
  {
    var b := h.lists[i][0];
    hide ZoneOk;
    HeadZone(h, i);
    TakenOk(h.zones[b], c);
    RestDistinct(h.lists[i]);
    assert h.lists[i := h.lists[i]] == h.lists;
    assert b in h.lists[i];
    var list := if h.zones[b].nfree <= 1 then h.lists[i][1..] else h.lists[i];
    hide Distinct, Listed;
    ListedDistinct(h, i);
    Relisted(h, h', b, i, list);
  }

  lemma ListedDistinct(h: Heap, i: nat)
    requires Listed(h) && i < NZONES
    ensures |h.lists| == NZONES && Distinct(h.lists[i]) && Distinct(h.parked)
  {
  }

  // ----- pages for zones and large requests

  /** Pages fresh from the page allocator belong to no zone and no other allocation. */
  lemma FreshRun(s: P.Pages, n: nat, total: nat)
    requires P.Conserved(s, total) && P.Alloc(s.free, n).1 != P.NULL
    ensures var a := P.Alloc(s.free, n).1;
            && a >= 0 && n > 0 && P.Step(s, P.Get(n)).owned == s.owned + {P.Run(a, n)}
            && P.Conserved(P.Step(s, P.Get(n)), total)
            && forall r :: r in s.owned ==> r.len > 0 && (r.start + r.len <= a || a + n <= r.start)
  {
    hide P.Canonical, P.Has, P.Alloc, P.Free, P.Taken;
    P.GetConserves(s, n, total);
    P.AllocFacts(s.free, n);
    var a := P.Alloc(s.free, n).1;
    var s' := P.Step(s, P.Get(n));
    P.TakenMeans(s.free, a, n);
    assert P.Has(s.free, a);
    assert P.Run(a, n) !in s.owned;
    forall r | r in s.owned ensures r.len > 0 && (r.start + r.len <= a || a + n <= r.start) {
      assert r in s'.owned && P.Run(a, n) in s'.owned;
    }
  }

  lemma OwnedApart(s: P.Pages, total: nat, r: P.Run, t: P.Run)
    requires P.Conserved(s, total) && r in s.owned && t in s.owned && r != t
    ensures r.len > 0 && t.len > 0 && (r.start + r.len <= t.start || t.start + t.len <= r.start)
  {
  }

  lemma {:induction false} Marks(usage: map<int, Usage>, z: int, n: nat, u: map<int, Usage>)
    requires u == Marked(usage, z, n)
    ensures forall q :: z <= q < z + n ==> q in u && u[q] == Small(q - z)
    ensures forall q :: !(z <= q < z + n) ==> (q in u <==> q in usage) && (q in usage ==> u[q] == usage[q])
    decreases n
  {
    if n > 0 {
      var u1 := Marked(usage, z, n - 1);
      Marks(usage, z, n - 1, u1);
      assert u == u1[z + n - 1 := Small(n - 1)];
    }
  }

  lemma {:induction false} Unmarks(usage: map<int, Usage>, z: int, n: nat, u: map<int, Usage>)
    requires u == Unmarked(usage, z, n)
    ensures forall q :: z <= q < z + n ==> q in u && u[q] == FreePage
    ensures forall q :: !(z <= q < z + n) ==> (q in u <==> q in usage) && (q in usage ==> u[q] == usage[q])
    decreases n
  {
    if n > 0 {
      var u1 := Unmarked(usage, z, n - 1);
      Unmarks(usage, z, n - 1, u1);
      assert u == u1[z + n - 1 := FreePage];
    }
  }

  /** Memory usage changes only inside pages that belong to nobody else. */
  lemma PagedFrame(h: Heap, usage: map<int, Usage>, c: Config, a: int, n: nat)
    requires Paged(h, c)
    requires forall q :: !(a <= q < a + n) ==> (q in usage <==> q in h.usage) && (q in h.usage ==> usage[q] == h.usage[q])
    requires forall b :: b in h.zones ==> b + ZonePages(c) <= a || a + n <= b
    requires forall p :: p in h.larges ==> p < a || a + n <= p
    ensures Paged(h.(usage := usage), c)
  {
    forall b, q | b in h.zones && b <= q < b + ZonePages(c) ensures q in usage && usage[q] == Small(q - b) {
      assert q in h.usage && h.usage[q] == Small(q - b);
      assert !(a <= q < a + n);
    }
    forall p | p in h.larges ensures p in usage && usage[p] == Large(h.larges[p]) {
      assert !(a <= p < a + n);
    }
  }

  lemma ApartFromAll(h: Heap, c: Config, a: int, n: nat)
    requires Paged(h, c) && ZonePages(c) > 0
    requires forall r :: r in h.pages.owned ==> r.len > 0 && (r.start + r.len <= a || a + n <= r.start)
    ensures forall b :: b in h.zones ==> b + ZonePages(c) <= a || a + n <= b
    ensures forall p :: p in h.larges ==> p < a || a + n <= p
  {
    forall b | b in h.zones ensures b + ZonePages(c) <= a || a + n <= b {
      assert P.Run(b, ZonePages(c)) in h.pages.owned;
    }
    forall p | p in h.larges ensures p < a || a + n <= p {
      assert P.Run(p, h.larges[p]) in h.pages.owned;
    }
  }

  lemma ZonePagesPositive(c: Config)
    requires Sizes(c)
    ensures ZonePages(c) >= 8 && ZonePages(c) * PAGE == c.zoneSize
  {
  }

  lemma MallocPagesFacts(h: Heap, c: Config, total: nat, size: nat)
    requires WF(h, c, total) && size > 0
    ensures var (h', blk) := MallocPages(h, size);
            && WF(h', c, total)
            && (blk == None ==> h' == h)
            && (blk != None ==> blk.Pages? && !Live(h, blk) && blk.first in h'.larges && h'.larges[blk.first] * PAGE >= size)
            && (forall x :: Live(h', x) <==> Live(h, x) || (x == blk && blk != None))
  {
    hide P.Conserved, ZoneOk, Listed, P.Alloc, P.Free;
    var n := (size + PAGE - 1) / PAGE;
    var a := P.Alloc(h.pages.free, n).1;
    var (h', blk) := MallocPages(h, size);
    if a != P.NULL {
      ZonePagesPositive(c);
      FreshRun(h.pages, n, total);
      ApartFromAll(h, c, a, n);
      PagedFrame(h, h.usage[a := Large(n)], c, a, n);
      NewLarge(h.(usage := h.usage[a := Large(n)]), h', c, a, n);
      SameListed(h, h');
    }
  }

  lemma NewLarge(h: Heap, h': Heap, c: Config, a: int, n: nat)
    requires Paged(h, c) && a !in h.zones && a in h.usage && h.usage[a] == Large(n)
    requires h'.zones == h.zones && h'.larges == h.larges[a := n] && h'.usage == h.usage && h'.pages.owned == h.pages.owned + {P.Run(a, n)}
    ensures Paged(h', c)
  {
    forall p | p in h'.larges ensures p in h'.usage && h'.usage[p] == Large(h'.larges[p]) {
      if p != a { assert p in h.larges; }
    }
  }

  lemma SameListed(h: Heap, h': Heap)
    requires Listed(h) && h'.zones == h.zones && h'.lists == h.lists && h'.parked == h.parked
    ensures Listed(h')
  {
  }

  // ----- a new zone

  /** An empty zone gets a new size and gives its first chunk. `h0` is the heap without it. */
  lemma OpenZone(h0: Heap, h': Heap, c: Config, total: nat, b: int, i: nat, size: nat)
    requires Sizes(c) && P.Conserved(h'.pages, total) && Paged(h', c) && Listed(h0) && b !in h0.zones
    requires forall d :: d in h0.zones ==> ZoneOk(h0.zones[d], c)
    requires i < NZONES && size == ChunkSize(i) && 0 < size <= c.zoneSize / 4 && h0.lists[i] == []
    requires h'.zones == h0.zones[b := NewZone(c, i, size)] && h'.lists == h0.lists[i := [b] + h0.lists[i]] && h'.parked == h0.parked
    requires h'.larges == h0.larges
    ensures WF(h', c, total)
    ensures forall x :: Live(h', x) <==> Live(h0, x) || x == Chunk(b, 0)
  {
    hide P.Conserved, Paged, Listed, ZoneOk, Distinct;
    NewZoneOk(c, i, size);
    NewZoneFree(c, i, size);
    OpenListed(h0, h', c, b, i, size);
    forall x ensures Live(h', x) <==> Live(h0, x) || x == Chunk(b, 0) {
      match x
      case Chunk(d, k) => if d == b { assert h'.zones[b].uindex == 0 && h'.zones[b].freed == []; }
      case Pages(p) =>
      case None =>
    }
  }

  lemma NewZoneFree(c: Config, i: nat, size: nat)
    requires size > 0 && ZoneOk(NewZone(c, i, size), c)
    ensures NewZone(c, i, size).nfree > 0 && NewZone(c, i, size).index == i
  {
  }

  lemma OpenListed(h0: Heap, h': Heap, c: Config, b: int, i: nat, size: nat)
    requires Listed(h0) && b !in h0.zones && i < NZONES && h0.lists[i] == [] && size > 0
    requires h'.zones == h0.zones[b := NewZone(c, i, size)] && h'.lists == h0.lists[i := [b] + h0.lists[i]] && h'.parked == h0.parked
    requires NewZone(c, i, size).nfree > 0 && NewZone(c, i, size).index == i
    ensures Listed(h')
  {
    hide NewZone;
    assert b !in h0.lists[i] && b !in h0.parked;
    PushDistinct(h0.lists[i], b);
    hide Distinct, Listed;
    Relisted(h0, h', b, i, [b] + h0.lists[i]);
  }

  /** Without a parked zone. */
  lemma UnparkListed(h: Heap, h0: Heap)
    requires Listed(h) && h.parked != []
    requires h0.zones == h.zones - {h.parked[0]} && h0.parked == h.parked[1..] && h0.lists == h.lists
    ensures Listed(h0)
  {
    RestDistinct(h.parked);
    hide Distinct;
    assert h.parked[0] in h.parked;
  }

  lemma ParkedIdle(h: Heap, c: Config, total: nat, b: int)
    requires WF(h, c, total) && b in h.parked
    ensures b in h.zones && forall k :: !Live(h, Chunk(b, k))
  {
    hide P.Conserved, Paged;
    FreedFew(h.zones[b], c);
    forall k: nat ensures !Live(h, Chunk(b, k)) { assert !InUse(h.zones[b], k); }
  }

  lemma ReuseParked(h: Heap, c: Config, total: nat, i: nat, size: nat)
    requires WF(h, c, total) && i < NZONES && h.lists[i] == [] && h.parked != []
    requires size == ChunkSize(i) && 0 < size <= c.zoneSize / 4
    ensures var (h', blk) := MallocZone(h, c, i, size);
            && WF(h', c, total) && blk == Chunk(h.parked[0], 0) && !Live(h, blk)
            && (forall x :: Live(h', x) <==> Live(h, x) || x == blk)
  {
    var b := h.parked[0];
    assert b in h.parked;
    ParkedIdle(h, c, total, b);
    var h0 := h.(zones := h.zones - {b}, parked := h.parked[1..]);
    UnparkListed(h, h0);
    hide P.Conserved, ZoneOk, Listed, NewZone, ChunkSize;
    var h' := MallocZone(h, c, i, size).0;
    assert h'.zones == h0.zones[b := NewZone(c, i, size)];
    PagedSame(h, h', c);
    OpenZone(h0, h', c, total, b, i, size);
    forall x ensures Live(h0, x) <==> Live(h, x) {
      match x
      case Chunk(d, k) =>
      case Pages(p) =>
      case None =>
    }
  }

  lemma FreshZone(h: Heap, c: Config, total: nat, i: nat, size: nat)
    requires WF(h, c, total) && i < NZONES && h.lists[i] == [] && h.parked == []
    requires size == ChunkSize(i) && 0 < size <= c.zoneSize / 4
    ensures var (h', blk) := MallocZone(h, c, i, size);
            && WF(h', c, total) && (blk == None ==> h' == h)
            && (blk != None ==> blk.Chunk? && blk.k == 0 && blk.zone in h'.zones && blk.zone !in h.zones && !Live(h, blk))
            && (forall x :: Live(h', x) <==> Live(h, x) || (x == blk && blk != None))
  {
    hide P.Conserved, ZoneOk, Listed, Paged, NewZone, ChunkSize, P.Alloc, P.Free, ZonePages;
    ListedDistinct(h, i);
    var (h', blk) := MallocZone(h, c, i, size);
    var n := ZonePages(c);
    var b := P.Alloc(h.pages.free, n).1;
    if b != P.NULL {
      ZonePagesPositive(c);
      FreshRun(h.pages, n, total);
      ApartFromAll(h, c, b, n);
      assert b !in h.zones && b !in h.larges;
      Marks(h.usage, b, n, h'.usage);
      PagedFrame(h, h'.usage, c, b, n);
      NewZonePaged(h.(usage := h'.usage), h', c, b);
      OpenZone(h, h', c, total, b, i, size);
    }
  }

  lemma NewZonePaged(h: Heap, h': Heap, c: Config, b: int)
    requires Paged(h, c) && b !in h.larges && b !in h.zones
    requires forall q :: b <= q < b + ZonePages(c) ==> q in h.usage && h.usage[q] == Small(q - b)
    requires b in h'.zones && h'.zones == h.zones[b := h'.zones[b]] && h'.larges == h.larges && h'.usage == h.usage
    requires h'.pages.owned == h.pages.owned + {P.Run(b, ZonePages(c))}
    ensures Paged(h', c)
  {
    forall d, q | d in h'.zones && d <= q < d + ZonePages(c) ensures q in h'.usage && h'.usage[q] == Small(q - d) {
      if d != b { assert d in h.zones; }
    }
  }

  /** rt_malloc keeps everything in agreement; what it hands out was not live before, and nothing else changes
      hands. */
  lemma MallocWF(h: Heap, c: Config, total: nat, size: nat)
    requires WF(h, c, total)
    ensures var (h', blk) := Malloc(h, c, size);
            && WF(h', c, total) && !Live(h, blk) && (blk == None ==> h' == h)
            && forall x :: Live(h', x) <==> Live(h, x) || (x == blk && blk != None)
  {
    if size == 0 {
    } else if size >= c.zoneLimit {
      hide WF, MallocPages, Live;
      MallocPagesFacts(h, c, total, size);
      NullNowhere(h);
    } else {
      assert Sizes(c) && |h.lists| == NZONES;
      hide WF, MallocChunk, MallocZone, Live, ZoneIndex, ChunkSize;
      var (bytes, i) := ZoneIndex(size);
      ChunkQuarter(c, size);
      ZoneIndexFits(size);
      NullNowhere(h);
      if h.lists[i] != [] {
        MallocChunkFacts(h, c, total, i);
      } else if h.parked != [] {
        ReuseParked(h, c, total, i, bytes);
      } else {
        FreshZone(h, c, total, i, bytes);
      }
    }
  }

  // ----- free

  lemma ReturnFacts(h: Heap, c: Config, total: nat, b: int, k: nat)
    requires WF(h, c, total) && Live(h, Chunk(b, k))
    ensures b in h.zones && h.zones[b].index < |h.lists|
    ensures var h' := Return(h, b, k);
            && WF(h', c, total) && b in h'.zones && h'.zones[b].nfree > 0 && b !in h'.parked
            && (forall x :: Live(h', x) <==> Live(h, x) && x != Chunk(b, k))
            && h'.zones[b].index == h.zones[b].index && h'.pages == h.pages && h'.zones.Keys == h.zones.Keys
  {
    hide P.Conserved, Paged, Listed, ZoneOk, Distinct;
    var z := h.zones[b];
    ZoneIndexOk(z, c);
    ReturnedOk(z, c, k);
    ListedDistinct(h, z.index);
    if b in h.parked { ParkedIdle(h, c, total, b); }
    ReturnListed(h, b, k, c);
    var h' := Return(h, b, k);
    PagedSame(h, h', c);
    forall x ensures Live(h', x) <==> Live(h, x) && x != Chunk(b, k) {
      match x
      case Chunk(d, j) =>
        if d == b { assert Live(h', x) == InUse(h'.zones[b], j) && Live(h, x) == InUse(z, j); }
      case Pages(p) =>
      case None =>
    }
  }

  lemma ZoneIndexOk(z: Zone, c: Config)
    requires ZoneOk(z, c)
    ensures z.index < NZONES && z.nmax >= 2
  {
  }

  lemma ReturnListed(h: Heap, b: int, k: nat, c: Config)
    requires Listed(h) && b in h.zones && h.zones[b].index < NZONES && b !in h.parked
    ensures Listed(Return(h, b, k))
  {
    var z := h.zones[b];
    var list := if z.nfree == 0 then [b] + h.lists[z.index] else h.lists[z.index];
    assert b in h.lists[z.index] <==> z.nfree > 0;
    if z.nfree == 0 { PushDistinct(h.lists[z.index], b); }
    assert h.lists[z.index := h.lists[z.index]] == h.lists;
    ListedDistinct(h, z.index);
    hide Distinct, Listed;
    Relisted(h, Return(h, b, k), b, z.index, list);
  }

  lemma ParkListed(h: Heap, h': Heap, b: int)
    requires Listed(h) && b in h.zones && h.zones[b].index < NZONES && h.zones[b].nfree == h.zones[b].nmax && b !in h.parked
    requires |h.parked| < RELEASE_THRESH
    requires h'.zones == h.zones && h'.parked == [b] + h.parked
    requires h'.lists == h.lists[h.zones[b].index := Without(h.lists[h.zones[b].index], b)]
    ensures Listed(h')
  {
    var i := h.zones[b].index;
    DropDistinct(h.lists[i], b);
    PushDistinct(h.parked, b);
    hide Distinct, Without;
    forall j, x | 0 <= j < NZONES
      ensures x in h'.lists[j] <==> x in h'.zones && h'.zones[x].index == j && h'.zones[x].nfree > 0 && x !in h'.parked
    {
      if j != i { assert h'.lists[j] == h.lists[j]; }
    }
    assert forall j :: 0 <= j < NZONES && j != i ==> h'.lists[j] == h.lists[j];
  }

  lemma DropListed(h: Heap, h': Heap, b: int)
    requires Listed(h) && b in h.zones && h.zones[b].index < NZONES && b !in h.parked
    requires h'.zones == h.zones - {b} && h'.parked == h.parked
    requires h'.lists == h.lists[h.zones[b].index := Without(h.lists[h.zones[b].index], b)]
    ensures Listed(h')
  {
    var i := h.zones[b].index;
    DropDistinct(h.lists[i], b);
    hide Distinct, Without;
    forall j, x | 0 <= j < NZONES
      ensures x in h'.lists[j] <==> x in h'.zones && h'.zones[x].index == j && h'.zones[x].nfree > 0 && x !in h'.parked
    {
      if j != i { assert h'.lists[j] == h.lists[j]; }
    }
    assert forall j :: 0 <= j < NZONES && j != i ==> h'.lists[j] == h.lists[j];
  }

  /** The pages of a zone or of a large allocation belong to nothing else. */
  lemma OthersApart(h: Heap, c: Config, total: nat, r: P.Run)
    requires P.Conserved(h.pages, total) && Paged(h, c) && r in h.pages.owned
    ensures forall b :: b in h.zones && P.Run(b, ZonePages(c)) != r ==> b + ZonePages(c) <= r.start || r.start + r.len <= b
    ensures forall p :: p in h.larges && P.Run(p, h.larges[p]) != r ==> p < r.start || r.start + r.len <= p
  {
    hide P.Conserved;
    forall b | b in h.zones && P.Run(b, ZonePages(c)) != r ensures b + ZonePages(c) <= r.start || r.start + r.len <= b {
      OwnedApart(h.pages, total, P.Run(b, ZonePages(c)), r);
    }
    forall p | p in h.larges && P.Run(p, h.larges[p]) != r ensures p < r.start || r.start + r.len <= p {
      OwnedApart(h.pages, total, P.Run(p, h.larges[p]), r);
    }
  }

  lemma FreePagesFacts(h: Heap, c: Config, total: nat, p: int)
    requires WF(h, c, total) && p in h.larges
    ensures var h' := FreePages(h, p);
            WF(h', c, total) && forall x :: Live(h', x) <==> Live(h, x) && x != Pages(p)
  {
    hide P.Conserved, ZoneOk, Listed, P.Free;
    var r := P.Run(p, h.larges[p]);
    P.PutConserves(h.pages, r, total);
    OthersApart(h, c, total, r);
    var h' := FreePages(h, p);
    SameListed(h, h');
    forall b, q | b in h'.zones && b <= q < b + ZonePages(c) ensures q in h'.usage && h'.usage[q] == Small(q - b) {
      assert q in h.usage && h.usage[q] == Small(q - b);
    }
    forall b | b in h'.zones ensures P.Run(b, ZonePages(c)) in h'.pages.owned {
      assert P.Run(b, ZonePages(c)) in h.pages.owned;
    }
  }

  /** A zone without live chunks goes back to the page allocator. */
  lemma ReleaseFacts(h: Heap, h': Heap, c: Config, total: nat, b: int)
    requires WF(h, c, total) && b in h.zones && h.zones[b].nfree == h.zones[b].nmax && b !in h.parked && h.zones[b].index < NZONES
    requires h'.lists == h.lists[h.zones[b].index := Without(h.lists[h.zones[b].index], b)]
    requires h'.zones == h.zones - {b} && h'.parked == h.parked && h'.larges == h.larges
    requires h'.pages == P.Step(h.pages, P.Put(P.Run(b, ZonePages(c)))) && h'.usage == Unmarked(h.usage, b, ZonePages(c))
    ensures WF(h', c, total)
  {
    hide P.Conserved, ZoneOk, Listed, P.Free, Unmarked, ZonePages;
    var r := P.Run(b, ZonePages(c));
    P.PutConserves(h.pages, r, total);
    OthersApart(h, c, total, r);
    DropListed(h, h', b);
    Unmarks(h.usage, b, ZonePages(c), h'.usage);
    ReleasePaged(h, h', c, b);
  }

  lemma ReleasePaged(h: Heap, h': Heap, c: Config, b: int)
    requires Paged(h, c) && b in h.zones
    requires h'.zones == h.zones - {b} && h'.larges == h.larges && h'.pages.owned == h.pages.owned - {P.Run(b, ZonePages(c))}
    requires forall d :: d in h.zones && d != b ==> d + ZonePages(c) <= b || b + ZonePages(c) <= d
    requires forall p :: p in h.larges && p != b ==> p < b || b + ZonePages(c) <= p
    requires forall q :: !(b <= q < b + ZonePages(c)) ==> (q in h'.usage <==> q in h.usage) && (q in h.usage ==> h'.usage[q] == h.usage[q])
    ensures Paged(h', c)
  {
    forall d, q | d in h'.zones && d <= q < d + ZonePages(c) ensures q in h'.usage && h'.usage[q] == Small(q - d) {
      assert q in h.usage && h.usage[q] == Small(q - d);
      assert !(b <= q < b + ZonePages(c));
    }
    forall p | p in h'.larges ensures p in h'.usage && h'.usage[p] == Large(h'.larges[p]) && P.Run(p, h'.larges[p]) in h'.pages.owned {
      assert p != b;
    }
  }

  lemma ParkFacts(h: Heap, c: Config, total: nat, b: int)
    requires WF(h, c, total) && b in h.zones && b !in h.parked && h.zones[b].index < |h.lists|
    ensures var h' := Park(h, c, b);
            WF(h', c, total) && forall x :: Live(h', x) <==> Live(h, x)
  {
    var z, h' := h.zones[b], Park(h, c, b);
    if z.nfree == z.nmax && |h.lists[z.index]| > 1 {
      IdleZone(h, c, total, b);
      assert |h.parked| <= RELEASE_THRESH;
      if |h.parked| + 1 > RELEASE_THRESH {
        hide P.Conserved, Paged, Listed, ZoneOk, Unmarked, P.Free;
        ReleaseFacts(h, h', c, total, b);
      } else {
        hide P.Conserved, Paged, Listed, ZoneOk, Unmarked, P.Free;
        ParkListed(h, h', b);
        PagedSame(h, h', c);
      }
    }
  }

  lemma IdleZone(h: Heap, c: Config, total: nat, b: int)
    requires WF(h, c, total) && b in h.zones && h.zones[b].nfree == h.zones[b].nmax
    ensures forall k: nat :: !Live(h, Chunk(b, k))
  {
    hide P.Conserved, Paged, Listed;
    FreedFew(h.zones[b], c);
    forall k: nat ensures !Live(h, Chunk(b, k)) { assert !InUse(h.zones[b], k); }
  }

  /** rt_free keeps everything in agreement and ends the life of exactly the block it is given: in particular a zone
      is only given up when none of its chunks is live. */
  lemma FreeWF(h: Heap, c: Config, total: nat, blk: Block)
    requires WF(h, c, total) && Live(h, blk)
    ensures WF(Free(h, c, blk), c, total)
    ensures forall x :: Live(Free(h, c, blk), x) <==> Live(h, x) && x != blk
  {
    hide WF, Park, Return, FreePages;
    match blk
    case Pages(p) => FreePagesFacts(h, c, total, p);
    case Chunk(b, k) =>
      ReturnFacts(h, c, total, b, k);
      ListLength(h, Return(h, b, k), c, total);
      ParkFacts(Return(h, b, k), c, total, b);
    case None =>
  }

  lemma ListLength(h: Heap, h': Heap, c: Config, total: nat)
    requires WF(h, c, total) && WF(h', c, total)
    ensures |h'.lists| == |h.lists|
  {
  }

  // ----- what callers rely on

  /** Bytes of a block. */
  function Size(h: Heap, blk: Block): nat {
    match blk
    case Chunk(b, _) => if b in h.zones then h.zones[b].chunk else 0
    case Pages(p) => if p in h.larges then h.larges[p] * PAGE else 0
    case None => 0
  }

  lemma ChunkInZone(z: Zone, c: Config, k: nat)
    requires ZoneOk(z, c) && k <= z.uindex
    ensures HEADER <= z.off + k * z.chunk && z.off + k * z.chunk + z.chunk <= c.zoneSize
  {
    hide ChunkSize, Distinct;
    ProductBelow(z.nmax, k, z.chunk);
  }

  lemma ProductBelow(n: nat, k: nat, size: nat)
    requires k < n
    ensures k * size + size <= n * size && k * size >= 0
  {
    var d := n - (k + 1);
    assert n * size == (k + 1) * size + d * size;
    Product(d, size);
    Product(k, size);
    assert (k + 1) * size == k * size + size;
  }

  lemma Product(a: nat, b: nat)
    ensures a * b >= 0
  {
  }

  lemma ChunksApart(k: nat, j: nat, size: nat)
    requires k < j
    ensures k * size + size <= j * size
  {
    Product(j - k - 1, size);
    assert j * size == k * size + size + (j - k - 1) * size;
  }

  /** A live chunk lies inside its zone, behind the header, and the page it starts on leads rt_free back to the zone. */
  lemma ChunkFindsZone(h: Heap, c: Config, total: nat, b: int, k: nat)
    requires WF(h, c, total) && Live(h, Chunk(b, k))
    ensures var a, page := Address(h, Chunk(b, k)), Address(h, Chunk(b, k)) / PAGE;
            && b * PAGE + HEADER <= a && a + Size(h, Chunk(b, k)) <= b * PAGE + c.zoneSize
            && page in h.usage && h.usage[page].Small? && page - h.usage[page].offset == b
  {
    hide P.Conserved, Listed;
    assert ZoneOk(h.zones[b], c);
    ChunkInZone(h.zones[b], c, k);
    ZonePagesPositive(c);
    hide ZoneOk, ChunkSize;
    var o := h.zones[b].off + k * h.zones[b].chunk;
    assert Address(h, Chunk(b, k)) == b * PAGE + o;
    PageOf(b, o);
    assert 0 <= o < ZonePages(c) * PAGE;
    assert b <= b + o / PAGE < b + ZonePages(c);
  }

  lemma PageOf(b: int, o: nat)
    ensures (b * PAGE + o) / PAGE == b + o / PAGE
  {
  }

  lemma LargeFinds(h: Heap, c: Config, total: nat, p: int)
    requires WF(h, c, total) && Live(h, Pages(p))
    ensures Address(h, Pages(p)) / PAGE == p && p in h.usage && h.usage[p] == Large(h.larges[p])
  {
    hide P.Conserved, Listed, ZoneOk;
  }

  /** Pages a live block lies in. */
  lemma BlockInRun(h: Heap, c: Config, total: nat, blk: Block) returns (r: P.Run)
    requires WF(h, c, total) && Live(h, blk)
    ensures r in h.pages.owned && r == match blk case Chunk(b, _) => P.Run(b, ZonePages(c)) case Pages(p) => P.Run(p, h.larges[p]) case None => r
    ensures r.start * PAGE <= Address(h, blk) && Address(h, blk) + Size(h, blk) <= (r.start + r.len) * PAGE
  {
    match blk
    case Chunk(b, k) =>
      ChunkFindsZone(h, c, total, b, k);
      ZonePagesPositive(c);
      r := P.Run(b, ZonePages(c));
    case Pages(p) => r := P.Run(p, h.larges[p]);
  }

  /** Only no block has the null address. */
  lemma NullIsNone(h: Heap, c: Config, total: nat, blk: Block)
    requires WF(h, c, total) && (blk == None || Live(h, blk))
    ensures Address(h, blk) == NULL <==> blk == None
  {
    if blk != None {
      var r := BlockInRun(h, c, total, blk);
      hide Address, Size, ZonePages, Listed, ZoneOk, Paged;
      assert r.start >= 0;
    }
  }

  lemma NullNowhere(h: Heap)
    ensures Address(h, None) == NULL && !Live(h, None)
  {
  }

  /** Live blocks never overlap. */
  lemma LiveDisjoint(h: Heap, c: Config, total: nat, x: Block, y: Block)
    requires WF(h, c, total) && Live(h, x) && Live(h, y) && x != y
    ensures Address(h, x) + Size(h, x) <= Address(h, y) || Address(h, y) + Size(h, y) <= Address(h, x)
  {
    if x.Chunk? && y.Chunk? && x.zone == y.zone {
      if x.k < y.k { ChunksApart(x.k, y.k, h.zones[x.zone].chunk); } else { ChunksApart(y.k, x.k, h.zones[x.zone].chunk); }
    } else {
      var r := BlockInRun(h, c, total, x);
      var t := BlockInRun(h, c, total, y);
      assert r.start != t.start;
      OwnedApart(h.pages, total, r, t);
      hide WF, Address, Size, ZonePages;
      RunsApart(r, t);
      RunsApart(t, r);
    }
  }

  lemma RunsApart(r: P.Run, t: P.Run)
    ensures r.start + r.len <= t.start ==> (r.start + r.len) * PAGE <= t.start * PAGE
  {
  }

  /** A request is served with enough bytes. */
  lemma MallocFits(h: Heap, c: Config, total: nat, size: nat)
    requires WF(h, c, total) && size > 0
    ensures var (h', blk) := Malloc(h, c, size); blk != None ==> Live(h', blk) && Size(h', blk) >= size
  {
    if size >= c.zoneLimit {
      hide WF, MallocPages, Live;
      MallocPagesFacts(h, c, total, size);
      LiveLarge(MallocPages(h, size).0, MallocPages(h, size).1);
    } else {
      assert Sizes(c) && |h.lists| == NZONES;
      hide WF, MallocChunk, MallocZone, Live, ZoneIndex, ChunkSize;
      var (bytes, i) := ZoneIndex(size);
      ChunkQuarter(c, size);
      ZoneIndexFits(size);
      var (h', blk) := Malloc(h, c, size);
      if h.lists[i] != [] {
        MallocChunkFacts(h, c, total, i);
        ZoneSize(h', c, total, blk.zone);
      } else if h.parked != [] {
        ReuseParked(h, c, total, i, bytes);
        OpenedSize(h, c, total, i, bytes);
      } else {
        FreshZone(h, c, total, i, bytes);
        OpenedSize(h, c, total, i, bytes);
      }
    }
  }

  lemma LiveLarge(h: Heap, blk: Block)
    ensures blk.Pages? && Live(h, blk) ==> blk.first in h.larges
  {
  }

  lemma ZoneSize(h: Heap, c: Config, total: nat, b: int)
    requires WF(h, c, total) && b in h.zones
    ensures h.zones[b].chunk == ChunkSize(h.zones[b].index)
  {
  }

  lemma OpenedSize(h: Heap, c: Config, total: nat, i: nat, size: nat)
    requires WF(h, c, total) && i < NZONES && size > 0
    ensures i < |h.lists|
    ensures var (h', blk) := MallocZone(h, c, i, size);
            blk != None ==> blk.Chunk? && blk.zone in h'.zones && h'.zones[blk.zone].chunk == size
  {
  }

  /** rt_realloc gives the old block up exactly when it hands out another one; without memory for the new size the
      heap stays as it is. */
  lemma ReallocWF(h: Heap, c: Config, total: nat, blk: Block, size: nat)
    requires WF(h, c, total) && Live(h, blk) && size > 0
    ensures var (h', other) := Realloc(h, c, blk, size);
            && WF(h', c, total)
            && (other == None ==> h' == h)
            && (other != None ==> forall x :: Live(h', x) <==> (Live(h, x) && x != blk) || x == other)
  {
    hide WF, Malloc, Free, Live, ZoneIndex;
    var wanted := if blk.Chunk? then ZoneIndex(size).0 else size;
    MallocWF(h, c, total, wanted);
    NullNowhere(h);
    if Malloc(h, c, wanted).1 != None { FreeWF(Malloc(h, c, wanted).0, c, total, blk); }
  }

  /** The new block holds the size asked for; while both blocks are live, where the bytes are copied, they do not overlap
      and both hold the bytes copied. */
  lemma ReallocFits(h: Heap, c: Config, total: nat, blk: Block, size: nat)
    requires WF(h, c, total) && Live(h, blk) && size > 0
    ensures var (h', other) := Realloc(h, c, blk, size);
            && (other == blk ==> h' == h && Size(h, blk) >= size)
            && (other != None && other != blk ==>
                  var wanted := if blk.Chunk? then ZoneIndex(size).0 else size;
                  var h1 := Malloc(h, c, wanted).0;
                  && wanted >= size && Live(h1, blk) && Live(h1, other) && Size(h1, other) >= wanted && Size(h1, blk) == Size(h, blk)
                  && (Address(h1, blk) + Size(h1, blk) <= Address(h1, other) || Address(h1, other) + Size(h1, other) <= Address(h1, blk)))
  {
    hide WF, Malloc, Free, Address, Live;
    var wanted := if blk.Chunk? then ZoneIndex(size).0 else size;
    RoundsUp(size);
    MallocWF(h, c, total, wanted);
    NullNowhere(h);
    if blk.Chunk? { ChunkSized(h, blk); }
    var (h1, other) := Malloc(h, c, wanted);
    if other != None {
      MallocFits(h, c, total, wanted);
      MallocStays(h, c, total, wanted, blk);
      LiveDisjoint(h1, c, total, blk, other);
    }
  }

  lemma RoundsUp(size: nat)
    ensures ZoneIndex(size).0 >= size
  {
  }

  lemma ChunkSized(h: Heap, blk: Block)
    requires blk.Chunk? && Live(h, blk)
    ensures blk.zone in h.zones && Size(h, blk) == h.zones[blk.zone].chunk
  {
  }

  // ----- blocks stay where they are

  /** An allocation moves no live block. */
  lemma MallocStays(h: Heap, c: Config, total: nat, size: nat, x: Block)
    requires WF(h, c, total) && Live(h, x)
    ensures var h' := Malloc(h, c, size).0; Address(h', x) == Address(h, x) && Size(h', x) == Size(h, x)
  {
    hide WF, MallocPages, MallocChunk, MallocZone, Live, Address, Size, ZoneIndex, ChunkSize;
    if size >= c.zoneLimit && size > 0 {
      PagesStay(h, c, total, size, x);
    } else if size > 0 {
      var (bytes, i) := ZoneIndex(size);
      SizesThere(h, c, total);
      ChunkQuarter(c, size);
      ZoneIndexFits(size);
      if h.lists[i] != [] { ChunksStay(h, i, x); } else { ZonesStay(h, c, total, i, bytes, x); }
    }
  }

  lemma SizesThere(h: Heap, c: Config, total: nat)
    requires WF(h, c, total)
    ensures Sizes(c) && |h.lists| == NZONES
  {
  }

  lemma PagesStay(h: Heap, c: Config, total: nat, size: nat, x: Block)
    requires WF(h, c, total) && Live(h, x) && size > 0
    ensures var h' := MallocPages(h, size).0; Address(h', x) == Address(h, x) && Size(h', x) == Size(h, x)
  {
    hide WF;
    MallocPagesFacts(h, c, total, size);
  }

  lemma ChunksStay(h: Heap, i: nat, x: Block)
    ensures var h' := MallocChunk(h, i).0; Address(h', x) == Address(h, x) && Size(h', x) == Size(h, x)
  {
  }

  lemma ZonesStay(h: Heap, c: Config, total: nat, i: nat, size: nat, x: Block)
    requires WF(h, c, total) && Live(h, x) && i < |h.lists| == NZONES && h.lists[i] == []
    requires size == ChunkSize(i) && 0 < size <= c.zoneSize / 4
    ensures var h' := MallocZone(h, c, i, size).0; Address(h', x) == Address(h, x) && Size(h', x) == Size(h, x)
  {
    hide WF, NewZone, ChunkSize, Marked, P.Alloc, P.Step, ZonePages;
    if h.parked == [] {
      FreshZone(h, c, total, i, size);
    } else if x.Chunk? && x.zone == h.parked[0] {
      assert x.zone in h.parked;
      ParkedIdle(h, c, total, x.zone);
    }
  }

  /** Neither does giving a block back. */
  lemma FreeStays(h: Heap, c: Config, blk: Block, x: Block)
    requires Live(h, x) && Live(Free(h, c, blk), x)
    ensures Address(Free(h, c, blk), x) == Address(h, x) && Size(Free(h, c, blk), x) == Size(h, x)
  {
    hide Unmarked, P.Step, ZonePages;
  }

  // ----- histories

  datatype Op = Get(size: nat) | Put(block: Block) | Resize(block: Block, size: nat)

  function Step(h: Heap, c: Config, op: Op): Heap {
    match op
    case Get(size) => Malloc(h, c, size).0
    case Put(blk) => if Live(h, blk) then Free(h, c, blk) else h
    case Resize(blk, size) => if blk == None || Live(h, blk) then Realloc(h, c, blk, size).0 else h
  }

  function Steps(h: Heap, c: Config, ops: seq<Op>): Heap
    decreases |ops|
  {
    if ops == [] then h else Steps(Step(h, c, ops[0]), c, ops[1..])
  }

  /** rt_system_heap_init: all pages are free, then the memusage array takes the first ones. */
  function Init(npages: nat): Heap {
    Heap(P.Step(P.Pages([P.Run(0, npages)], {}), P.Get((npages * 4 + PAGE - 1) / PAGE)),
         map[], seq(NZONES, _ => []), [], map[], map[])
  }

  lemma InitWF(c: Config, npages: nat)
    requires Sizes(c) && npages > 0
    ensures WF(Init(npages), c, npages) && forall x :: !Live(Init(npages), x)
  {
    var start := P.Pages([P.Run(0, npages)], {});
    forall p ensures 0 <= p < npages <==> P.Has(start.free, p) {
      if 0 <= p < npages { P.HasAt(start.free, 0, p); }
    }
    assert P.Conserved(start, npages);
    hide P.Conserved, P.Step;
    P.StepConserves(start, P.Get((npages * 4 + PAGE - 1) / PAGE), npages);
  }

  lemma StepWF(h: Heap, c: Config, total: nat, op: Op)
    requires WF(h, c, total)
    ensures WF(Step(h, c, op), c, total)
  {
    hide WF, Malloc, Free, Live, ZoneIndex, Realloc;
    NullNowhere(h);
    match op
    case Get(size) => MallocWF(h, c, total, size);
    case Put(blk) => if Live(h, blk) { FreeWF(h, c, total, blk); }
    case Resize(blk, size) => if blk == None || Live(h, blk) { ResizeWF(h, c, total, blk, size); }
  }

  lemma ResizeWF(h: Heap, c: Config, total: nat, blk: Block, size: nat)
    requires WF(h, c, total) && (blk == None || Live(h, blk))
    ensures WF(Realloc(h, c, blk, size).0, c, total)
  {
    hide WF, Malloc, Free, Live, ZoneIndex;
    if blk == None { MallocWF(h, c, total, size); }
    else if size == 0 { FreeWF(h, c, total, blk); }
    else { ReallocWF(h, c, total, blk, size); }
  }

  /** A block that is live before and after a call has not moved and has kept its size. */
  lemma StaysPut(h: Heap, c: Config, total: nat, op: Op, x: Block)
    requires WF(h, c, total) && Live(h, x) && Live(Step(h, c, op), x)
    ensures Address(Step(h, c, op), x) == Address(h, x) && Size(Step(h, c, op), x) == Size(h, x)
  {
    hide WF, Malloc, Free, Live, ZoneIndex, Address, Size;
    match op
    case Get(size) => MallocStays(h, c, total, size, x);
    case Put(blk) => if Live(h, blk) { FreeStays(h, c, blk, x); }
    case Resize(blk, size) =>
      var wanted := if blk.Chunk? then ZoneIndex(size).0 else size;
      NullNowhere(h);
      MallocStays(h, c, total, size, x);
      MallocStays(h, c, total, wanted, x);
      MallocWF(h, c, total, wanted);
      if Live(h, blk) && size == 0 { FreeStays(h, c, blk, x); }
      else if Live(h, blk) && Live(Free(Malloc(h, c, wanted).0, c, blk), x) { FreeStays(Malloc(h, c, wanted).0, c, blk, x); }
  }

  /** Over every history of allocations, frees and reallocations. */
  lemma {:induction false} RunWF(h: Heap, c: Config, total: nat, ops: seq<Op>)
    requires WF(h, c, total)
    ensures WF(Steps(h, c, ops), c, total)
    decreases |ops|
  {
    if ops != [] {
      hide WF, Step;
      StepWF(h, c, total, ops[0]);
      RunWF(Step(h, c, ops[0]), c, total, ops[1..]);
    }
  }

  /** In every state of every history: the free count of a zone is what was never used plus what was given back; a zone
      is on the list of its size iff it has a free chunk and is not parked, and the pages of zones, large requests and
      the free list are all pages, without overlap. */
  lemma ZonesConsistent(c: Config, npages: nat, ops: seq<Op>)
    requires Sizes(c) && npages > 0
    ensures var h := Steps(Init(npages), c, ops);
            && |h.lists| == NZONES && P.Conserved(h.pages, npages)
            && (forall b :: b in h.zones ==> h.zones[b].nfree == h.zones[b].nmax - 1 - h.zones[b].uindex + |h.zones[b].freed|)
            && (forall i, b :: 0 <= i < NZONES ==>
                  (b in h.lists[i] <==> b in h.zones && h.zones[b].index == i && h.zones[b].nfree > 0 && b !in h.parked))
  {
    InitWF(c, npages);
    RunWF(Init(npages), c, npages, ops);
    hide Steps, Init, P.Conserved, ChunkSize;
  }

  predicate LiveThroughout(h: Heap, c: Config, ops: seq<Op>, x: Block)
    decreases |ops|
  {
    Live(h, x) && (ops == [] || LiveThroughout(Step(h, c, ops[0]), c, ops[1..], x))
  }

  /** Over every history a block that is never given up stays at its address with its size. */
  lemma {:induction false} NeverMoves(h: Heap, c: Config, total: nat, ops: seq<Op>, x: Block)
    requires WF(h, c, total) && LiveThroughout(h, c, ops, x)
    ensures Address(Steps(h, c, ops), x) == Address(h, x) && Size(Steps(h, c, ops), x) == Size(h, x)
    decreases |ops|
  {
    if ops != [] {
      hide WF, Step, Live, Address, Size;
      var h' := Step(h, c, ops[0]);
      assert Live(h', x);
      StepWF(h, c, total, ops[0]);
      StaysPut(h, c, total, ops[0], x);
      NeverMoves(h', c, total, ops[1..], x);
    }
  }
}
