/** What the calls of the slab allocator answer: when there is a block, where it comes from, and where everything given
    back goes. */
module SlabAnswers {
  import opened Rings
  import P = PageRuns
  import opened Chains
  import opened SlabSpec
  import opened SlabLaws

  // ----- free pages

  /** The n pages from `a` are free. */
  predicate FreeAt(rs: seq<P.Run>, a: int, n: int) {
    forall p :: a <= p < a + n ==> P.Has(rs, p)
  }

  /** Some place has n free pages in a row. */
  ghost predicate Room(h: Heap, n: int) {
    exists a :: FreeAt(h.pages.free, a, n)
  }

  /** The lowest such place. */
  ghost predicate Lowest(h: Heap, n: int, a: int) {
    FreeAt(h.pages.free, a, n) && forall b :: FreeAt(h.pages.free, b, n) ==> a <= b
  }

  /** The pages a request needs. */
  ghost predicate Covers(n: nat, size: nat) {
    size <= n * PAGE < size + PAGE
  }

  lemma PagesFound(h: Heap, c: Config, total: nat, n: nat)
    requires WF(h, c, total) && n > 0
    ensures var a := P.Alloc(h.pages.free, n).1;
            (a == P.NULL <==> !Room(h, n)) && (a != P.NULL ==> a >= 0 && Lowest(h, n, a))
  {
    ListCanonical(h, c, total);
    hide WF, P.Canonical, P.Has, P.Alloc;
    var a := P.Alloc(h.pages.free, n).1;
    if a != P.NULL { P.AllocFacts(h.pages.free, n); assert FreeAt(h.pages.free, a, n); }
    forall b | FreeAt(h.pages.free, b, n) ensures a != P.NULL && a <= b { P.AllocLowest(h.pages.free, n, b); }
  }

  lemma ListCanonical(h: Heap, c: Config, total: nat)
    requires WF(h, c, total)
    ensures P.Canonical(h.pages.free)
  {
  }

  // ----- rt_malloc

  /** Zone b can give a chunk of list i. */
  predicate Gives(h: Heap, i: int, b: int) {
    b in h.zones && h.zones[b].index == i && h.zones[b].nfree > 0 && b !in h.parked
  }

  lemma ListSays(h: Heap, c: Config, total: nat, i: nat)
    requires WF(h, c, total) && i < NZONES
    ensures |h.lists| == NZONES
    ensures h.lists[i] == [] <==> !exists b :: Gives(h, i, b)
    ensures h.lists[i] != [] ==> Gives(h, i, h.lists[i][0])
  {
    hide P.Conserved, Paged, ZoneOk, Distinct;
    if h.lists[i] != [] {
      var b := h.lists[i][0];
      assert b in h.lists[i];
      assert Gives(h, i, b);
    }
    forall b | Gives(h, i, b) ensures h.lists[i] != [] { assert b in h.lists[i]; }
  }

  /** rt_malloc fails exactly when nothing can serve the request: a large one when no place has enough free pages in
      a row; a small one when no zone of its chunk size has a free chunk, no zone is parked, and no place has room for
      a new zone. */
  lemma MallocFailsIff(h: Heap, c: Config, total: nat, size: nat, n: nat)
    requires WF(h, c, total) && size > 0 && Covers(n, size)
    ensures Malloc(h, c, size).1 == None <==>
              if size >= c.zoneLimit then !Room(h, n)
              else !(exists b :: Gives(h, ZoneIndex(size).1, b)) && h.parked == [] && !Room(h, c.zoneSize / PAGE)
  {
    hide WF, ZoneIndex, ChunkSize, Room, Gives, P.Alloc, P.Step, Marked, NewZone, MallocChunk;
    SizesThere(h, c, total);
    if size >= c.zoneLimit {
      assert n == (size + PAGE - 1) / PAGE;
      PagesFound(h, c, total, n);
    } else {
      var (bytes, i) := ZoneIndex(size);
      ChunkQuarter(c, size);
      ZoneIndexFits(size);
      ListSays(h, c, total, i);
      ZonePagesPositive(c);
      PagesFound(h, c, total, ZonePages(c));
      if h.lists[i] != [] { MallocChunkFacts(h, c, total, i); }
    }
  }

  /** What is handed out, and how much of it: whole pages from the lowest place that has them, or a chunk of the size
      of its list. The chunk is from a zone that had one to give; only without such a zone is a parked zone opened
      again, and only without a parked one a new zone, at the lowest place that has room. */
  lemma MallocSource(h: Heap, c: Config, total: nat, size: nat)
    requires WF(h, c, total) && size > 0 && Malloc(h, c, size).1 != None
    ensures var (h', blk) := Malloc(h, c, size);
            var i := ZoneIndex(size).1;
            && (blk.Pages? <==> size >= c.zoneLimit)
            && (blk.Pages? ==> blk.first in h'.larges && Covers(h'.larges[blk.first], size) && Lowest(h, h'.larges[blk.first], blk.first))
            && (blk.Chunk? ==>
                  && blk.zone in h'.zones && h'.zones[blk.zone].index == i && Size(h', blk) == ZoneIndex(size).0
                  && (Gives(h, i, blk.zone) || forall b :: !Gives(h, i, b))
                  && ((forall b :: !Gives(h, i, b)) ==>
                        if h.parked != [] then blk.zone == h.parked[0] else Lowest(h, c.zoneSize / PAGE, blk.zone)))
  {
    hide WF, ZoneIndex, ChunkSize, Room, Gives, P.Alloc, P.Step, Marked, NewZone, MallocChunk, Lowest;
    SizesThere(h, c, total);
    if size >= c.zoneLimit {
      PagesFound(h, c, total, (size + PAGE - 1) / PAGE);
    } else {
      var (bytes, i) := ZoneIndex(size);
      ChunkQuarter(c, size);
      ZoneIndexFits(size);
      ListSays(h, c, total, i);
      ZonePagesPositive(c);
      PagesFound(h, c, total, ZonePages(c));
      if h.lists[i] != [] {
        MallocChunkFacts(h, c, total, i);
        ChunkOf(h, c, total, i);
      } else {
        NewZoneOf(c, i, bytes);
        OpenedSize(h, c, total, i, bytes);
      }
    }
  }

  lemma ChunkOf(h: Heap, c: Config, total: nat, i: nat)
    requires WF(h, c, total) && i < NZONES && h.lists[i] != []
    ensures var (h', blk) := MallocChunk(h, i);
            blk.Chunk? && blk.zone == h.lists[i][0] && blk.zone in h'.zones && h'.zones[blk.zone].chunk == ChunkSize(i)
  {
    MallocChunkFacts(h, c, total, i);
    ZoneSize(MallocChunk(h, i).0, c, total, MallocChunk(h, i).1.zone);
    hide WF, ChunkSize;
  }

  lemma NewZoneOf(c: Config, i: nat, size: nat)
    requires size > 0
    ensures NewZone(c, i, size).index == i && NewZone(c, i, size).chunk == size
  {
  }

  // ----- rt_realloc

  /** A resize keeps its block exactly when that is a chunk of the size the request is rounded to; else it answers what
      an allocation of that size answers. Without a block it is an allocation, without a size a free. */
  lemma ReallocAnswerIff(h: Heap, c: Config, total: nat, blk: Block, size: nat)
    requires WF(h, c, total) && (blk == None || Live(h, blk))
    ensures var (h', other) := Realloc(h, c, blk, size);
            && (blk == None ==> (h', other) == Malloc(h, c, size))
            && (blk != None && size == 0 ==> other == None && forall x :: Live(h', x) <==> Live(h, x) && x != blk)
            && (blk != None && size > 0 ==>
                  var wanted := if blk.Chunk? then ZoneIndex(size).0 else size;
                  && (other == blk <==> blk.Chunk? && Size(h, blk) == wanted)
                  && (other != blk ==> other == Malloc(h, c, wanted).1))
  {
    hide WF, Malloc, Free, Live, ZoneIndex;
    NullNowhere(h);
    if blk != None && size == 0 { FreeWF(h, c, total, blk); }
    if blk != None {
      if blk.Chunk? { ChunkSized(h, blk); }
      MallocWF(h, c, total, if blk.Chunk? then ZoneIndex(size).0 else size);
    }
  }

  // ----- rt_free

  /** Where a zone goes when its last live chunk is given back: it stays on its list when no other zone there has a free
      chunk; else it is parked, or, with two zones parked already, its pages go back. No other call of rt_free moves a
      zone. */
  lemma FreeParksIff(h: Heap, c: Config, total: nat, b: int, k: nat)
    requires WF(h, c, total) && Live(h, Chunk(b, k))
    ensures var h' := Free(h, c, Chunk(b, k));
            var empty := h.zones[b].nfree + 1 == h.zones[b].nmax && exists d :: d != b && Gives(h, h.zones[b].index, d);
            && (b !in h'.zones <==> empty && |h.parked| == RELEASE_THRESH)
            && (b in h'.parked <==> empty && |h.parked| < RELEASE_THRESH)
            && (forall d :: d != b ==> (d in h'.zones <==> d in h.zones) && (d in h'.parked <==> d in h.parked))
  {
    hide WF, Return, Unmarked, P.Step, Without;
    ReturnFacts(h, c, total, b, k);
    var h1 := Return(h, b, k);
    SizesThere(h, c, total);
    ReturnForm(h, b, k);
    ListLength(h, h1, c, total);
    Company(h1, c, total, b);
    ParkedNot(h, c, total, b, k);
    OthersSame(h, h1, b);
  }

  lemma ReturnForm(h: Heap, b: int, k: nat)
    requires b in h.zones && h.zones[b].index < |h.lists|
    ensures var h1 := Return(h, b, k);
            && h1.zones == h.zones[b := h.zones[b].(nfree := h.zones[b].nfree + 1, freed := [k] + h.zones[b].freed)]
            && h1.parked == h.parked && h1.pages == h.pages && h1.larges == h.larges
  {
  }

  lemma ParkedNot(h: Heap, c: Config, total: nat, b: int, k: nat)
    requires WF(h, c, total) && Live(h, Chunk(b, k))
    ensures b !in h.parked && |h.parked| <= RELEASE_THRESH
  {
    hide P.Conserved, Paged, ZoneOk;
    if b in h.parked { ParkedIdle(h, c, total, b); }
  }

  lemma OthersSame(h: Heap, h1: Heap, b: int)
    requires b in h.zones && b in h1.zones && h1.zones == h.zones[b := h1.zones[b]] && h1.parked == h.parked
    ensures forall i, d :: d != b ==> (Gives(h1, i, d) <==> Gives(h, i, d))
  {
  }

  /** The test for another zone on the list. */
  lemma Company(h: Heap, c: Config, total: nat, b: int)
    requires WF(h, c, total) && b in h.zones && h.zones[b].index < |h.lists| == NZONES && h.zones[b].nfree > 0 && b !in h.parked
    ensures |h.lists[h.zones[b].index]| > 1 <==> exists d :: d != b && Gives(h, h.zones[b].index, d)
  {
    hide P.Conserved, Paged, ZoneOk;
    var i := h.zones[b].index;
    var list := h.lists[i];
    assert b in list;
    if |list| > 1 {
      var d := if list[0] == b then list[1] else list[0];
      assert d in list && d != b;
      assert Gives(h, i, d);
    }
    forall d | d != b && Gives(h, i, d) ensures |list| > 1 {
      assert d in list;
      var i, j :| 0 <= i < |list| && list[i] == b && 0 <= j < |list| && list[j] == d;
    }
  }

  /** A zone that was full hands out first what has just come back. */
  lemma FullZoneReuses(h: Heap, c: Config, total: nat, b: int, k: nat, size: nat)
    requires WF(h, c, total) && Live(h, Chunk(b, k)) && h.zones[b].nfree == 0
    requires 0 < size < c.zoneLimit && ZoneIndex(size).1 == h.zones[b].index
    ensures Malloc(Free(h, c, Chunk(b, k)), c, size).1 == Chunk(b, k)
  {
    hide WF, ZoneIndex;
    ReturnFacts(h, c, total, b, k);
    SizesThere(h, c, total);
    FullZone(h, c, total, b);
  }

  lemma FullZone(h: Heap, c: Config, total: nat, b: int)
    requires WF(h, c, total) && b in h.zones && h.zones[b].nfree == 0
    ensures h.zones[b].uindex + 1 == h.zones[b].nmax && h.zones[b].nmax >= 2 && h.zones[b].freed == []
  {
    hide P.Conserved, Paged, Listed;
    assert ZoneOk(h.zones[b], c);
  }

  // ----- pages

  /** Every page run handed out belongs to a zone, to a large allocation, or is one of `base`. */
  ghost predicate NoLeak(h: Heap, c: Config, base: set<P.Run>) {
    && (forall r :: r in h.pages.owned <==>
          r in base || (r.start in h.zones && r.len == ZonePages(c)) || (r.start in h.larges && r.len == h.larges[r.start]))
    && (forall r :: r in base ==> r.start !in h.zones && r.start !in h.larges)
  }

  /** The run of b belongs to b alone. */
  lemma OneRun(h: Heap, c: Config, total: nat, b: int, r: P.Run)
    requires WF(h, c, total) && b in h.zones && r in h.pages.owned && r.start == b
    ensures r.len == ZonePages(c)
  {
    hide P.Canonical, Listed, ZoneOk;
    ZonePagesPositive(c);
    OwnedOnce(h.pages, total, r, P.Run(b, ZonePages(c)));
  }

  lemma OneLarge(h: Heap, c: Config, total: nat, p: int, r: P.Run)
    requires WF(h, c, total) && p in h.larges && r in h.pages.owned && r.start == p
    ensures r.len == h.larges[p]
  {
    hide P.Canonical, Listed, ZoneOk;
    OwnedOnce(h.pages, total, r, P.Run(p, h.larges[p]));
  }

  lemma OwnedOnce(s: P.Pages, total: nat, r: P.Run, t: P.Run)
    requires P.Conserved(s, total) && r in s.owned && t in s.owned && r.start == t.start
    ensures r == t
  {
    assert r == t || r.start + r.len <= t.start || t.start + t.len <= r.start;
  }

  lemma MallocAccounts(h: Heap, c: Config, total: nat, size: nat, base: set<P.Run>)
    requires WF(h, c, total) && NoLeak(h, c, base)
    ensures NoLeak(Malloc(h, c, size).0, c, base)
  {
    hide WF, ZoneIndex, NewZone, Marked, P.Alloc, P.Step, MallocChunk;
    SizesThere(h, c, total);
    ZonePagesPositive(c);
    if size >= c.zoneLimit && size > 0 {
      GetFacts(h, c, total, (size + PAGE - 1) / PAGE);
    } else if size > 0 {
      GetFacts(h, c, total, ZonePages(c));
      var i := ZoneIndex(size).1;
      if 0 <= i < |h.lists| && h.lists[i] != [] { ChunkPages(h, i); }
      if h.parked != [] { ParkedZones(h, c, total); }
    }
  }

  lemma GetFacts(h: Heap, c: Config, total: nat, n: nat)
    requires WF(h, c, total) && n > 0
    ensures var (s, a) := (P.Step(h.pages, P.Get(n)), P.Alloc(h.pages.free, n).1);
            a != P.NULL ==> s.owned == h.pages.owned + {P.Run(a, n)} && a !in h.zones && a !in h.larges
                            && forall r :: r in h.pages.owned ==> r.start != a
  {
    hide P.Conserved, P.Alloc, Listed, ZoneOk;
    var a := P.Alloc(h.pages.free, n).1;
    if a != P.NULL {
      FreshRun(h.pages, n, total);
      ZonePagesPositive(c);
      ApartFromAll(h, c, a, n);
    }
  }

  lemma ChunkPages(h: Heap, i: int)
    requires 0 <= i
    ensures var h' := MallocChunk(h, i).0; h'.pages == h.pages && h'.zones.Keys == h.zones.Keys && h'.larges == h.larges
  {
  }

  lemma ParkedZones(h: Heap, c: Config, total: nat)
    requires WF(h, c, total) && h.parked != []
    ensures h.parked[0] in h.zones
  {
    hide P.Conserved, Paged, ZoneOk, Distinct;
    var b := h.parked[0];
    assert b in h.parked;
  }

  lemma FreeAccounts(h: Heap, c: Config, total: nat, blk: Block, base: set<P.Run>)
    requires WF(h, c, total) && Live(h, blk) && NoLeak(h, c, base)
    ensures NoLeak(Free(h, c, blk), c, base)
  {
    hide WF, NoLeak, Return, Park, FreePages;
    match blk
    case Pages(p) => PutLarge(h, c, total, p, base);
    case Chunk(b, k) =>
      ReturnFacts(h, c, total, b, k);
      ReturnForm(h, b, k);
      SameAccounts(h, Return(h, b, k), c, base);
      ParkAccounts(Return(h, b, k), c, total, b, base);
  }

  lemma SameAccounts(h: Heap, h': Heap, c: Config, base: set<P.Run>)
    requires NoLeak(h, c, base) && h'.pages == h.pages && h'.zones.Keys == h.zones.Keys && h'.larges == h.larges
    ensures NoLeak(h', c, base)
  {
  }

  lemma PutLarge(h: Heap, c: Config, total: nat, p: int, base: set<P.Run>)
    requires WF(h, c, total) && p in h.larges && NoLeak(h, c, base)
    ensures NoLeak(FreePages(h, p), c, base)
  {
    hide WF, P.Free;
    forall r | r in h.pages.owned && r.start == p ensures r == P.Run(p, h.larges[p]) { OneLarge(h, c, total, p, r); }
    LargeOwned(h, c, total, p);
  }

  lemma LargeOwned(h: Heap, c: Config, total: nat, p: int)
    requires WF(h, c, total) && p in h.larges
    ensures P.Run(p, h.larges[p]) in h.pages.owned && p !in h.zones
  {
    hide P.Conserved, Listed, ZoneOk;
    assert p in h.larges.Keys && p !in h.zones.Keys;
  }

  lemma ParkAccounts(h: Heap, c: Config, total: nat, b: int, base: set<P.Run>)
    requires WF(h, c, total) && b in h.zones && NoLeak(h, c, base)
    ensures NoLeak(Park(h, c, b), c, base)
  {
    hide WF, P.Free, Unmarked, ZonePages;
    forall r | r in h.pages.owned && r.start == b ensures r == P.Run(b, ZonePages(c)) { OneRun(h, c, total, b, r); }
    ZoneOwned(h, c, total, b);
  }

  lemma ZoneOwned(h: Heap, c: Config, total: nat, b: int)
    requires WF(h, c, total) && b in h.zones
    ensures P.Run(b, ZonePages(c)) in h.pages.owned && b !in h.larges
  {
    hide P.Conserved, Listed, ZoneOk;
    assert b in h.zones.Keys && b !in h.larges.Keys;
  }

  lemma StepAccounts(h: Heap, c: Config, total: nat, op: Op, base: set<P.Run>)
    requires WF(h, c, total) && NoLeak(h, c, base)
    ensures NoLeak(Step(h, c, op), c, base)
  {
    hide WF, NoLeak, Malloc, Free, Live, ZoneIndex;
    NullNowhere(h);
    match op
    case Get(size) => MallocAccounts(h, c, total, size, base);
    case Put(blk) => if Live(h, blk) { FreeAccounts(h, c, total, blk, base); }
    case Resize(blk, size) =>
      MallocAccounts(h, c, total, size, base);
      if Live(h, blk) {
        FreeAccounts(h, c, total, blk, base);
        var wanted := if blk.Chunk? then ZoneIndex(size).0 else size;
        MallocWF(h, c, total, wanted);
        MallocAccounts(h, c, total, wanted, base);
        FreeAccounts(Malloc(h, c, wanted).0, c, total, blk, base);
      }
  }

  lemma {:induction false} RunAccounts(h: Heap, c: Config, total: nat, ops: seq<Op>, base: set<P.Run>)
    requires WF(h, c, total) && NoLeak(h, c, base)
    ensures NoLeak(Steps(h, c, ops), c, base)
    decreases |ops|
  {
    if ops != [] {
      hide WF, NoLeak, Step;
      StepWF(h, c, total, ops[0]);
      StepAccounts(h, c, total, ops[0], base);
      RunAccounts(Step(h, c, ops[0]), c, total, ops[1..], base);
    }
  }

  /** In every state of every history no page is lost: a page run that is not free belongs to a zone, to a large
      allocation that has not been given back, or to the page table. */
  lemma NoPageLost(c: Config, npages: nat, ops: seq<Op>)
    requires Sizes(c) && npages > 0
    ensures NoLeak(Steps(Init(npages), c, ops), c, Init(npages).pages.owned)
  {
    InitWF(c, npages);
    assert NoLeak(Init(npages), c, Init(npages).pages.owned) by { hide P.Step; }
    RunAccounts(Init(npages), c, npages, ops, Init(npages).pages.owned);
  }
}
