/** The slab allocator of slab.c in place: zone headers, the singly linked lists of zones and of freed chunks, and the
    page usage table are changed by each call. A pointer to a chunk is its zone and its number. */
module Slab {
  import opened Rings
  import P = PageRuns
  import PageAllocator
  import opened Chains
  import opened SlabSpec
  import opened SlabLaws

  /** The header at the start of a zone, without its link. */
  datatype Header = Header(index: nat, chunk: nat, off: nat, nmax: nat, uindex: nat, nfree: nat, freeChunk: int)

  function FirstChunk(s: seq<nat>): int {
    if s == [] then NULL else s[0]
  }

  /** Following c_next from `head` visits the freed chunks s of zone b. */
  ghost predicate ChunkChain(link: map<(int, nat), int>, b: int, head: int, s: seq<nat>) {
    && head == FirstChunk(s)
    && (forall i {:trigger s[i]} :: 0 <= i < |s| ==> (b, s[i]) in link && link[(b, s[i])] == FirstChunk(s[i + 1..]))
  }

  lemma ChunkTail(link: map<(int, nat), int>, b: int, head: int, s: seq<nat>)
    requires ChunkChain(link, b, head, s) && s != []
    ensures head == s[0] && (b, s[0]) in link && ChunkChain(link, b, link[(b, s[0])], s[1..])
  {
    var r := s[1..];
    assert link[(b, s[0])] == FirstChunk(s[0 + 1..]);
    forall i | 0 <= i < |r| ensures (b, r[i]) in link && link[(b, r[i])] == FirstChunk(r[i + 1..]) {
      assert r[i] == s[i + 1] && r[i + 1..] == s[i + 2..];
    }
  }

  lemma ChunkPush(link: map<(int, nat), int>, b: int, head: int, s: seq<nat>, k: nat)
    requires ChunkChain(link, b, head, s) && k !in s
    ensures ChunkChain(link[(b, k) := head], b, k, [k] + s)
  {
    var r := [k] + s;
    var link' := link[(b, k) := head];
    forall i | 0 <= i < |r| ensures (b, r[i]) in link' && link'[(b, r[i])] == FirstChunk(r[i + 1..]) {
      if i == 0 {
        assert r[1..] == s;
      } else {
        assert r[i] == s[i - 1] && r[i + 1..] == s[i..];
        assert s[i - 1] in s;
        assert s[i - 1 + 1..] == s[i..];
      }
    }
  }

  lemma ChunkFrame(link: map<(int, nat), int>, b: int, head: int, s: seq<nat>, d: int, k: nat, v: int)
    requires ChunkChain(link, b, head, s) && d != b
    ensures ChunkChain(link[(d, k) := v], b, head, s)
  {
  }

  ghost predicate Written(header: Header, z: Zone, link: map<(int, nat), int>, b: int) {
    && header == Header(z.index, z.chunk, z.off, z.nmax, z.uindex, z.nfree, header.freeChunk)
    && ChunkChain(link, b, header.freeChunk, z.freed)
  }

  ghost predicate Zoned(headers: map<int, Header>, link: map<(int, nat), int>, zones: map<int, Zone>) {
    forall b {:trigger headers[b]} {:trigger zones[b]} :: b in zones ==> b in headers && Written(headers[b], zones[b], link, b)
  }

  /** Every list of zones is linked. */
  ghost predicate Threaded(next: map<int, int>, heads: seq<int>, lists: seq<seq<int>>) {
    |heads| == |lists| && forall i :: 0 <= i < |heads| ==> Chain(next, heads[i], lists[i])
  }

  /** No other list has zone b. */
  ghost predicate OnlyIn(lists: seq<seq<int>>, i: nat, b: int) {
    forall j :: 0 <= j < |lists| && j != i ==> b !in lists[j]
  }

  lemma ThreadedPop(next: map<int, int>, heads: seq<int>, lists: seq<seq<int>>, i: nat)
    requires Threaded(next, heads, lists) && i < |lists| && lists[i] != [] && Distinct(lists[i]) && OnlyIn(lists, i, lists[i][0])
    ensures heads[i] == lists[i][0] && lists[i][0] in next
    ensures var b := lists[i][0]; Threaded(next[b := NULL], heads[i := next[b]], lists[i := lists[i][1..]])
  {
    hide Chain, Distinct;
    var b := lists[i][0];
    ChainTail(next, heads[i], lists[i]);
    RestDistinct(lists[i]);
    var heads', lists' := heads[i := next[b]], lists[i := lists[i][1..]];
    forall j | 0 <= j < |heads'| ensures Chain(next[b := NULL], heads'[j], lists'[j]) {
      ChainFrame(next, heads'[j], lists'[j], b, NULL);
    }
  }

  lemma ThreadedPush(next: map<int, int>, heads: seq<int>, lists: seq<seq<int>>, i: nat, b: int)
    requires Threaded(next, heads, lists) && i < |lists| && forall j :: 0 <= j < |lists| ==> b !in lists[j]
    ensures Threaded(next[b := heads[i]], heads[i := b], lists[i := [b] + lists[i]])
  {
    hide Chain;
    var heads', lists' := heads[i := b], lists[i := [b] + lists[i]];
    forall j | 0 <= j < |heads| ensures Chain(next[b := heads[i]], heads'[j], lists'[j]) {
      if j == i { ChainPush(next, heads[i], lists[i], b); } else { ChainFrame(next, heads[j], lists[j], b, heads[i]); }
    }
  }

  /** Skipping the zone at position m of list i. */
  lemma ThreadedSkip(next: map<int, int>, heads: seq<int>, lists: seq<seq<int>>, i: nat, m: nat)
    requires Threaded(next, heads, lists) && i < |lists| && Distinct(lists[i]) && m < |lists[i]|
    requires forall x :: x in lists[i] ==> OnlyIn(lists, i, x)
    ensures lists[i][m] in next
    ensures var s, b := lists[i], lists[i][m];
            Threaded(if m == 0 then next else next[s[m - 1] := next[b]], if m == 0 then heads[i := next[b]] else heads, lists[i := RemoveAt(s, m)])
  {
    var s, b := lists[i], lists[i][m];
    assert s[m] in next by { assert Chain(next, heads[i], s); }
    ChainSkip(next, heads[i], s, m);
    hide Chain, Distinct;
    var next' := if m == 0 then next else next[s[m - 1] := next[b]];
    var heads' := if m == 0 then heads[i := next[b]] else heads;
    forall j | 0 <= j < |heads'| ensures Chain(next', heads'[j], lists[i := RemoveAt(s, m)][j]) {
      if j != i && m > 0 {
        assert s[m - 1] in s;
        ChainFrame(next, heads[j], lists[j], s[m - 1], next[b]);
      }
    }
  }

  lemma ZonedUpdate(headers: map<int, Header>, link: map<(int, nat), int>, zones: map<int, Zone>, b: int, header: Header, z: Zone,
                    link': map<(int, nat), int>, k: nat)
    requires Zoned(headers, link, zones) && Written(header, z, link', b)
    requires link' == link || ((b, k) in link' && link' == link[(b, k) := link'[(b, k)]])
    ensures Zoned(headers[b := header], link', zones[b := z])
  {
    hide ChunkChain;
    var headers', zones' := headers[b := header], zones[b := z];
    forall d | d in zones' ensures d in headers' && Written(headers'[d], zones'[d], link', d) {
      if d != b {
        assert d in zones;
        assert Written(headers[d], zones[d], link, d);
        if link' != link { ChunkFrame(link, d, headers[d].freeChunk, zones[d].freed, b, k, link'[(b, k)]); }
      }
    }
  }

  lemma ZonedGone(headers: map<int, Header>, link: map<(int, nat), int>, zones: map<int, Zone>, b: int)
    requires Zoned(headers, link, zones)
    ensures Zoned(headers, link, zones - {b})
  {
    hide Written;
  }

  /** What the lists say about a zone's place. */
  lemma Places(h: Heap, i: nat)
    requires Listed(h) && i < NZONES
    ensures |h.lists| == NZONES && Distinct(h.lists[i]) && Distinct(h.parked)
    ensures forall b :: b in h.lists[i] ==> OnlyIn(h.lists, i, b) && b !in h.parked && b in h.zones && h.zones[b].index == i
    ensures forall b :: b in h.parked ==> b in h.zones && forall j :: 0 <= j < NZONES ==> b !in h.lists[j]
  {
    hide Distinct;
    forall b | b in h.lists[i] ensures OnlyIn(h.lists, i, b) {
      forall j | 0 <= j < |h.lists| && j != i ensures b !in h.lists[j] { OneList(h, i, j, b); }
    }
  }

  lemma OneList(h: Heap, i: nat, j: nat, b: int)
    requires Listed(h) && i < NZONES && j < NZONES && i != j && b in h.lists[i]
    ensures b !in h.lists[j]
  {
    hide Listed;
    InList(h, i, b);
    InList(h, j, b);
  }

  lemma InList(h: Heap, i: nat, b: int)
    requires Listed(h) && i < NZONES
    ensures i < |h.lists| && (b in h.lists[i] ==> b in h.zones && h.zones[b].index == i)
  {
    hide Distinct;
    assert b in h.lists[i] <==> b in h.zones && h.zones[b].index == i && h.zones[b].nfree > 0 && b !in h.parked;
  }

  predicate HasZone(h: Heap, i: nat) {
    i < NZONES && i < |h.lists| && h.lists[i] != []
  }

  lemma TakePlan(h: Heap, c: Config, total: nat, i: nat)
    requires WF(h, c, total) && HasZone(h, i)
    ensures var b := h.lists[i][0];
            && b in h.lists[i] && b in h.zones && h.zones[b].nfree > 0 && Distinct(h.lists[i]) && OnlyIn(h.lists, i, b) && b !in h.parked
            && (h.zones[b].uindex + 1 == h.zones[b].nmax ==> h.zones[b].freed != [])
    ensures WF(MallocChunk(h, i).0, c, total)
  {
    hide P.Conserved, Paged, ZoneOk, OnlyIn, Distinct;
    Places(h, i);
    HeadZone(h, i);
    MallocChunkFacts(h, c, total, i);
    TakenOk(h.zones[h.lists[i][0]], c);
    assert h.lists[i][0] in h.lists[i];
  }

  class Allocator {
    const config: Config
    const pages: PageAllocator.PageList
    const heads: array<int>
    var headers: map<int, Header>
    var next: map<int, int>
    var link: map<(int, nat), int>
    var parked: int
    var parkedCount: nat
    var usage: map<int, Usage>
    ghost var heap: Heap
    ghost var total: nat

    ghost predicate Linked()
      reads this, pages, heads
    {
      && pages.Valid() && pages.runs == heap.pages.free && usage == heap.usage && parkedCount == |heap.parked|
      && Zoned(headers, link, heap.zones) && Threaded(next, heads[..], heap.lists) && Chain(next, parked, heap.parked)
    }

    ghost predicate Valid()
      reads this, pages, heads
    {
      Linked() && WF(heap, config, total)
    }

    /** rt_system_heap_init: the smallest zone size that is not too small for the heap. */
    static method ChooseSizes(limit: nat) returns (c: Config)
      ensures Sizes(c)
      ensures c.zoneSize == 131072 || limit / 1024 <= 2 * c.zoneSize
      ensures c.zoneSize > 32768 ==> c.zoneSize < limit / 1024
    {
      var size := 32768;
      while size < 131072 && 2 * size < limit / 1024
        invariant size == 32768 || ((size == 65536 || size == 131072) && size < limit / 1024)
        decreases 131072 - size
      {
        size := size * 2;
      }
      c := Config(size, if size / 4 > 16384 then 16384 else size / 4);
    }

    constructor (npages: nat)
      requires npages > 0
      ensures Valid() && total == npages && heap == Init(npages)
      ensures fresh(pages) && fresh(heads)
    {
      var c := ChooseSizes(npages * PAGE);
      var list := new PageAllocator.PageList(0, npages);
      config, pages := c, list;
      heads := new int[NZONES](_ => NULL);
      headers, next, link, usage := map[], map[], map[], map[];
      parked, parkedCount := NULL, 0;
      heap, total := Init(npages), npages;
      new;
      InitWF(config, npages);
      var memusage := pages.Alloc((npages * 4 + PAGE - 1) / PAGE);
    }

    /** The first zone of list i gives a chunk. */
    method TakeChunk(i: nat) returns (b: int, k: int)
      requires Valid() && HasZone(heap, i)
      modifies this, heads
      ensures Valid() && total == old(total) && heap == MallocChunk(old(heap), i).0
      ensures k >= 0 && MallocChunk(old(heap), i).1 == Chunk(b, k)
    {
      hide Chain, Written, Distinct, OnlyIn, WF, ChunkChain, PageAllocator.PageList.Valid;
      ghost var h := heap;
      TakePlan(h, config, total, i);
      ThreadedPop(next, heads[..], h.lists, i);
      b := heads[i];
      HeaderIs(headers, link, h.zones, b);
      var z := headers[b];
      z := z.(nfree := z.nfree - 1);
      if z.nfree == 0 {
        ChainFrame(next, parked, h.parked, b, NULL);
        heads[i] := next[b];
        next := next[b := NULL];
      }
      if z.uindex + 1 != z.nmax {
        z := z.(uindex := z.uindex + 1);
        k := z.uindex;
      } else {
        ChunkTail(link, b, z.freeChunk, h.zones[b].freed);
        k := z.freeChunk;
        z := z.(freeChunk := link[(b, k)]);
      }
      headers := headers[b := z];
      heap := MallocChunk(h, i).0;
      WrittenIs(z, heap.zones[b], link, b);
      ZonedUpdate(old(headers), link, h.zones, b, z, heap.zones[b], link, 0);
    }

    /** A large request takes whole pages. */
    method TakePages(size: nat) returns (first: int)
      requires Valid() && size > 0
      modifies this, pages
      ensures Valid() && total == old(total) && heap == MallocPages(old(heap), size).0
      ensures MallocPages(old(heap), size).1 == if first == NULL then None else Pages(first)
    {
      hide Chain, Zoned, Threaded, WF, PageAllocator.PageList.Valid, P.Alloc, P.Free, P.Canonical;
      ghost var h := heap;
      MallocPagesFacts(h, config, total, size);
      PagesCanonical(h, config, total);
      var n := (size + PAGE - 1) / PAGE;
      NothingTaken(h.pages.free, n);
      first := pages.Alloc(n);
      heap := MallocPages(h, size).0;
      if first != NULL { usage := usage[first := Large(n)]; }
    }

    /** memusage of the pages of zone b. */
    method Mark(b: int, n: nat)
      modifies this`usage
      ensures usage == Marked(old(usage), b, n)
    {
      var off := 0;
      while off < n
        invariant 0 <= off <= n && usage == Marked(old(usage), b, off)
      {
        usage := usage[b + off := Small(off)];
        off := off + 1;
      }
    }

    method Unmark(b: int, n: nat)
      modifies this`usage
      ensures usage == Unmarked(old(usage), b, n)
    {
      var off := 0;
      while off < n
        invariant 0 <= off <= n && usage == Unmarked(old(usage), b, off)
      {
        usage := usage[b + off := FreePage];
        off := off + 1;
      }
    }

    /** A list without zones gets one, and its first chunk is handed out. */
    method OpenZone(i: nat, size: nat) returns (b: int)
      requires Valid() && i < NZONES && i < |heap.lists| && heap.lists[i] == [] && size == ChunkSize(i) && 0 < size <= config.zoneSize / 4
      modifies this, heads, pages
      ensures Valid() && total == old(total) && heap == MallocZone(old(heap), config, i, size).0
      ensures MallocZone(old(heap), config, i, size).1 == if b == NULL then None else Chunk(b, 0)
    {
      hide Chain, Written, ChunkSize, WF, Threaded, Zoned, Distinct, PageAllocator.PageList.Valid, P.Alloc, P.Free, NewZone, P.Canonical;
      ghost var h := heap;
      ListsThere(h, config, total);
      HeadNull(h, config, total, i);
      ChainHead(next, parked, h.parked);
      if parked != NULL {
        ReuseParked(h, config, total, i, size);
        ParkedPlan(h, config, total);
        ChainTail(next, parked, h.parked);
        b := parked;
        parked := next[b];
        parkedCount := parkedCount - 1;
        Install(b, i, size, h.parked[1..], h);
        heap := MallocZone(h, config, i, size).0;
      } else {
        FreshZone(h, config, total, i, size);
        FreshPlan(h, config, total);
        var n := config.zoneSize / PAGE;
        PagesCanonical(h, config, total);
        NothingTaken(h.pages.free, n);
        b := pages.Alloc(n);
        if b != NULL {
          Mark(b, n);
          Install(b, i, size, h.parked, h);
          heap := MallocZone(h, config, i, size).0;
        }
      }
    }

    /** Writes the header of a zone and puts it at the front of its list. */
    method Install(b: int, i: nat, size: nat, ghost rest: seq<int>, ghost h: Heap)
      requires Zoned(headers, link, h.zones) && Threaded(next, heads[..], h.lists) && Chain(next, parked, rest) && b !in rest
      requires i < |h.lists| && (forall j :: 0 <= j < |h.lists| ==> b !in h.lists[j])
      requires Sizes(config) && i < NZONES && size == ChunkSize(i) && 0 < size <= config.zoneSize / 4
      modifies this`headers, this`next, heads
      ensures Zoned(headers, link, h.zones[b := NewZone(config, i, size)])
      ensures Threaded(next, heads[..], h.lists[i := [b] + h.lists[i]]) && Chain(next, parked, rest)
    {
      hide Chain, Written, ChunkSize, ChunkChain;
      ghost var z := NewZone(config, i, size);
      NewZoneOk(config, i, size);
      ThreadedPush(next, heads[..], h.lists, i, b);
      ChainFrame(next, parked, rest, b, heads[i]);
      var off := if BitScan.Or(size, size - 1) + 1 == 2 * size
                 then (HEADER + size - 1) / size * size
                 else (HEADER + MIN_CHUNK - 1) / MIN_CHUNK * MIN_CHUNK;
      OffsetFits(config, i, size);
      var nmax := (config.zoneSize - off) / size;
      var header := Header(i, size, off, nmax, 0, nmax - 1, NULL);
      NoChunks(link, b);
      WrittenIs(header, z, link, b);
      ZonedUpdate(headers, link, h.zones, b, header, z, link, 0);
      headers := headers[b := header];
      next := next[b := heads[i]];
      heads[i] := b;
    }

    /** rt_malloc; the block is named by its zone and chunk number, or by its first page. */
    method Malloc(size: nat) returns (blk: Block, address: int)
      requires Valid()
      modifies this, heads, pages
      ensures Valid() && total == old(total)
      ensures heap == SlabSpec.Malloc(old(heap), config, size).0 && blk == SlabSpec.Malloc(old(heap), config, size).1
      ensures blk != None ==> address == Address(heap, blk)
      ensures blk == None ==> address == NULL
    {
      hide Linked, WF, MallocPages, MallocChunk, MallocZone, ChunkSize, ZoneIndex, Live;
      if size == 0 { return None, NULL; }
      ListsThere(heap, config, total);
      ghost var h := heap;
      if size >= config.zoneLimit {
        MallocPagesFacts(h, config, total, size);
        var first := TakePages(size);
        if first == NULL { return None, NULL; }
        return Pages(first), first * PAGE;
      }
      var (bytes, i) := ZoneIndex(size);
      ChunkQuarter(config, size);
      ZoneIndexFits(size);
      HeadThere(i);
      HeadNull(h, config, total, i);
      if heads[i] != NULL {
        MallocChunkFacts(h, config, total, i);
        var b, k := TakeChunk(i);
        blk := Chunk(b, k);
        address := ChunkAddress(b, k);
      } else {
        OpenedSize(h, config, total, i, bytes);
        var b := OpenZone(i, bytes);
        if b == NULL { return None, NULL; }
        blk := Chunk(b, 0);
        address := ChunkAddress(b, 0);
      }
    }

    /** rt_free of an allocation made of pages. */
    method GivePages(first: int)
      requires Valid() && first in heap.larges && first in usage && usage[first] == Large(heap.larges[first])
      modifies this, pages
      ensures Valid() && total == old(total) && heap == FreePages(old(heap), first)
    {
      hide Chain, Zoned, Threaded, WF, PageAllocator.PageList.Valid, P.Free;
      ghost var h := heap;
      FreePagesFacts(h, config, total, first);
      GivePlan(h, config, total, first);
      var n := usage[first].pages;
      usage := usage[first := Large(0)];
      pages.Free(first, n);
      heap := FreePages(h, first);
    }

    /** The chunk goes to the front of its zone's freed chunks. */
    method ReturnChunk(b: int, k: nat)
      requires Valid() && Live(heap, Chunk(b, k))
      modifies this, heads
      ensures Valid() && total == old(total) && heap == Return(old(heap), b, k)
    {
      hide Chain, Written, Distinct, WF, ChunkChain, PageAllocator.PageList.Valid;
      ghost var h := heap;
      ReturnFacts(h, config, total, b, k);
      ReturnPlan(h, config, total, b, k);
      HeaderIs(headers, link, h.zones, b);
      var z := headers[b];
      ChunkPush(link, b, z.freeChunk, h.zones[b].freed, k);
      link := link[(b, k) := z.freeChunk];
      z := z.(freeChunk := k);
      if z.nfree == 0 {
        ThreadedPush(next, heads[..], h.lists, z.index, b);
        ChainFrame(next, parked, h.parked, b, heads[z.index]);
        next := next[b := heads[z.index]];
        heads[z.index] := b;
      }
      z := z.(nfree := z.nfree + 1);
      headers := headers[b := z];
      heap := Return(h, b, k);
      WrittenIs(z, heap.zones[b], link, b);
      ZonedUpdate(old(headers), old(link), h.zones, b, z, heap.zones[b], link, k);
    }

    /** The loop of rt_free that takes a zone off its list. */
    method TakeOff(i: nat, b: int)
      requires Linked() && WF(heap, config, total) && i < NZONES && i < |heap.lists| && b in heap.lists[i]
      modifies this`next, heads
      ensures Threaded(next, heads[..], heap.lists[i := Without(heap.lists[i], b)]) && Chain(next, parked, heap.parked)
      ensures b in next
    {
      hide Chain, Zoned, WF, Distinct, OnlyIn, PageAllocator.PageList.Valid;
      ghost var s := heap.lists[i];
      TakeOffPlan(heap, config, total, i, b);
      ListThere(i);
      var pz, m := Find(i, b);
      IndexIs(s, m, b);
      ThreadedSkip(next, heads[..], heap.lists, i, m);
      ChainAt(next, heads[i], s, m);
      if m > 0 {
        ListNotParked(heap, config, total, i, m - 1);
        ChainFrame(next, parked, heap.parked, pz, next[b]);
      }
      ListZone(heap, config, total, i, m);
      if pz == NULL { heads[i] := next[b]; } else { next := next[pz := next[b]]; }
    }

    /** Follows the list to the link that leads to zone b: NULL stands for the head of the list. */
    method Find(i: nat, b: int) returns (pz: int, ghost m: nat)
      requires Linked() && i < |heap.lists| && b in heap.lists[i]
      ensures m < |heap.lists[i]| && heap.lists[i][m] == b && (forall j :: 0 <= j < m ==> heap.lists[i][j] != b)
      ensures pz == if m == 0 then NULL else heap.lists[i][m - 1]
    {
      hide Chain, Zoned, PageAllocator.PageList.Valid;
      ghost var s := heap.lists[i];
      ListThere(i);
      pz, m := NULL, 0;
      var z := heads[i];
      while z != b
        invariant m < |s| && z == s[m] && (forall j :: 0 <= j < m ==> s[j] != b)
        invariant pz == if m == 0 then NULL else s[m - 1]
        decreases |s| - m
      {
        ChainAt(next, heads[i], s, m);
        LaterThere(s, m, b);
        pz := z;
        z := next[z];
        m := m + 1;
      }
    }

    /** Parks a zone that has become empty, unless it is the only one on its list, and gives it back to the page
        allocator when two are parked already. */
    method ParkZone(b: int)
      requires Valid() && b in heap.zones && heap.zones[b].nfree > 0 && b !in heap.parked && heap.zones[b].index < |heap.lists|
      modifies this, heads, pages
      ensures Valid() && total == old(total) && heap == Park(old(heap), config, b)
    {
      hide Chain, Written, Distinct, WF, OnlyIn, PageAllocator.PageList.Valid, P.Free, Threaded, Zoned;
      ghost var h := heap;
      ParkFacts(h, config, total, b);
      ParkPlan(h, config, total, b);
      HeaderThere(b);
      var z := headers[b];
      OthersOnList(next, heads[..], h, config, total, b);
      if z.nfree == z.nmax && (next[b] != NULL || heads[z.index] != b) {
        TakeOff(z.index, b);
        ghost var lists := h.lists[z.index := Without(h.lists[z.index], b)];
        OffAll(h, config, total, b);
        FramePush(next, heads[..], lists, b, parked, h.parked);
        next := next[b := parked];
        parked := b;
        parkedCount := parkedCount + 1;
        if parkedCount > RELEASE_THRESH { Release(b, lists); }
        heap := Park(h, config, b);
      }
    }

    /** The zone parked last goes back to the page allocator. */
    method Release(b: int, ghost lists: seq<seq<int>>)
      requires pages.Valid() && pages.runs == heap.pages.free && usage == heap.usage && parked == b && parkedCount > 0
      requires Zoned(headers, link, heap.zones) && Threaded(next, heads[..], lists) && Chain(next, parked, [b] + heap.parked)
      requires P.Taken(heap.pages.free, b, ZonePages(config)) && b >= 0 && ZonePages(config) > 0
      modifies this`parked, this`parkedCount, this`usage, pages
      ensures pages.Valid() && pages.runs == P.Free(heap.pages.free, b, ZonePages(config))
      ensures usage == Unmarked(heap.usage, b, ZonePages(config)) && parkedCount == old(parkedCount) - 1
      ensures Zoned(headers, link, heap.zones - {b}) && Threaded(next, heads[..], lists) && Chain(next, parked, heap.parked)
    {
      hide Chain, Written, PageAllocator.PageList.Valid, P.Free, Threaded, Zoned, P.Taken;
      ChainTail(next, parked, [b] + heap.parked);
      assert ([b] + heap.parked)[1..] == heap.parked;
      parked := next[b];
      parkedCount := parkedCount - 1;
      var n := config.zoneSize / PAGE;
      Unmark(b, n);
      ZonedGone(headers, link, heap.zones, b);
      pages.Free(b, n);
    }

    lemma HeaderThere(b: int)
      requires Linked() && b in heap.zones
      ensures b in headers && headers[b].nfree == heap.zones[b].nfree && headers[b].nmax == heap.zones[b].nmax
      ensures headers[b].index == heap.zones[b].index && headers[b].chunk == heap.zones[b].chunk
    {
      HeaderIs(headers, link, heap.zones, b);
    }

    lemma ListThere(i: nat)
      requires Linked() && i < |heap.lists|
      ensures i < heads.Length && Chain(next, heads[i], heap.lists[i]) && (heap.lists[i] != [] ==> heads[i] == heap.lists[i][0])
    {
      assert Chain(next, heads[..][i], heap.lists[i]);
    }

    /** rt_free: the page the pointer lies in says whether it is a large allocation, or where its zone starts. */
    method Free(address: int, k: nat, ghost blk: Block)
      requires Valid() && Live(heap, blk) && address == Address(heap, blk) && (blk.Chunk? ==> k == blk.k)
      modifies this, heads, pages
      ensures Valid() && total == old(total) && heap == SlabSpec.Free(old(heap), config, blk)
    {
      hide Linked, WF, Return, Park, FreePages, PageAllocator.PageList.Valid, Address;
      ghost var h := heap;
      UsageIs();
      FreeFinds(h, config, total, blk);
      var page := address / PAGE;
      if usage[page].Large? {
        GivePages(page);
        return;
      }
      var b := page - usage[page].offset;
      ReturnFacts(h, config, total, b, k);
      ReturnChunk(b, k);
      ListLength(h, heap, config, total);
      ParkZone(b);
    }

    /** rt_realloc: a zone's chunk stays when the rounded size is its own; otherwise a new block is taken and the old one
        given up. The copied bytes are not part of this class. */
    method Realloc(address: int, k: nat, size: nat, ghost blk: Block) returns (other: Block, a: int)
      requires Valid() && (blk == None || Live(heap, blk)) && address == Address(heap, blk) && (blk.Chunk? ==> k == blk.k)
      modifies this, heads, pages
      ensures Valid() && total == old(total)
      ensures heap == SlabSpec.Realloc(old(heap), config, blk, size).0 && other == SlabSpec.Realloc(old(heap), config, blk, size).1
      ensures a == Address(heap, other)
    {
      hide Linked, WF, SlabSpec.Malloc, SlabSpec.Free, PageAllocator.PageList.Valid, Address, Live, ZoneIndex;
      ghost var h := heap;
      NullNowhere(h);
      if address == NULL {
        NullIsNone(h, config, total, blk);
        other, a := Malloc(size);
        NullNowhere(heap);
        return;
      }
      if size == 0 {
        Free(address, k, blk);
        NullNowhere(heap);
        return None, NULL;
      }
      UsageIs();
      FreeFinds(h, config, total, blk);
      var page := address / PAGE;
      if usage[page].Large? {
        other, a := Replace(address, k, size, blk);
        return;
      }
      var b := page - usage[page].offset;
      ChunkSized(h, blk);
      HeaderThere(b);
      var (bytes, _) := ZoneIndex(size);
      if headers[b].chunk == bytes { return Chunk(b, k), address; }
      other, a := Replace(address, k, bytes, blk);
    }

    /** Takes a new block and, if there is one, gives up the old. */
    method Replace(address: int, k: nat, size: nat, ghost blk: Block) returns (other: Block, a: int)
      requires Valid() && Live(heap, blk) && address == Address(heap, blk) && (blk.Chunk? ==> k == blk.k)
      modifies this, heads, pages
      ensures Valid() && total == old(total)
      ensures var (h1, x) := SlabSpec.Malloc(old(heap), config, size);
              other == x && heap == if x == None then old(heap) else SlabSpec.Free(h1, config, blk)
      ensures a == Address(heap, other)
    {
      hide Linked, WF, SlabSpec.Malloc, SlabSpec.Free, PageAllocator.PageList.Valid, Address, Live;
      ghost var h := heap;
      MallocWF(h, config, total, size);
      MallocStays(h, config, total, size, blk);
      NullNowhere(h);
      other, a := Malloc(size);
      NullNowhere(heap);
      if other != None {
        FreeWF(heap, config, total, blk);
        FreeStays(heap, config, blk, other);
        Free(address, k, blk);
      }
    }

    lemma UsageIs()
      requires Linked()
      ensures usage == heap.usage
    {
    }

    lemma HeadThere(i: nat)
      requires Linked() && i < NZONES && |heap.lists| == NZONES
      ensures heads.Length == NZONES && heads[i] == First(heap.lists[i])
    {
      assert Chain(next, heads[..][i], heap.lists[i]);
    }

    method ChunkAddress(b: int, k: nat) returns (a: int)
      requires Linked() && b in heap.zones
      ensures a == Address(heap, Chunk(b, k))
    {
      hide Threaded, Chain, PageAllocator.PageList.Valid;
      HeaderIs(headers, link, heap.zones, b);
      a := b * PAGE + headers[b].off + k * headers[b].chunk;
    }
  }

  lemma HeaderIs(headers: map<int, Header>, link: map<(int, nat), int>, zones: map<int, Zone>, b: int)
    requires Zoned(headers, link, zones) && b in zones
    ensures b in headers && headers[b] == Header(zones[b].index, zones[b].chunk, zones[b].off, zones[b].nmax, zones[b].uindex, zones[b].nfree, headers[b].freeChunk)
    ensures ChunkChain(link, b, headers[b].freeChunk, zones[b].freed)
  {
    hide ChunkChain;
    assert Written(headers[b], zones[b], link, b);
  }

  lemma WrittenIs(header: Header, z: Zone, link: map<(int, nat), int>, b: int)
    requires header == Header(z.index, z.chunk, z.off, z.nmax, z.uindex, z.nfree, header.freeChunk)
    requires ChunkChain(link, b, header.freeChunk, z.freed)
    ensures Written(header, z, link, b)
  {
  }

  lemma ListsThere(h: Heap, c: Config, total: nat)
    requires WF(h, c, total)
    ensures |h.lists| == NZONES && Sizes(c)
  {
  }

  lemma ZoneNumber(h: Heap, c: Config, total: nat, b: int)
    requires WF(h, c, total) && b in h.zones
    ensures b >= 0
  {
    hide P.Canonical, P.Has, ZoneOk, Listed;
    assert P.Run(b, ZonePages(c)) in h.pages.owned;
  }

  lemma ParkedZone(h: Heap)
    requires Listed(h) && h.parked != []
    ensures h.parked[0] in h.zones
  {
    hide Distinct;
    var b := h.parked[0];
    assert b in h.parked;
  }

  lemma NothingTaken(rs: seq<P.Run>, n: nat)
    ensures P.Alloc(rs, n).1 == P.NULL && P.Canonical(rs) ==> P.Alloc(rs, n).0 == rs
  {
  }

  lemma PagesCanonical(h: Heap, c: Config, total: nat)
    requires WF(h, c, total)
    ensures P.Canonical(h.pages.free)
  {
  }

  /** A list head is NULL exactly for an empty list. */
  lemma HeadNull(h: Heap, c: Config, total: nat, i: nat)
    requires WF(h, c, total) && i < NZONES
    ensures i < |h.lists| && (First(h.lists[i]) == NULL <==> h.lists[i] == [])
    ensures First(h.parked) == NULL <==> h.parked == []
  {
    assert Listed(h);
    if h.lists[i] != [] {
      HeadZone(h, i);
      hide WF;
      ZoneNumber(h, c, total, h.lists[i][0]);
    }
    if h.parked != [] {
      ParkedZone(h);
      hide WF;
      ZoneNumber(h, c, total, h.parked[0]);
    }
  }

  lemma ParkedPlan(h: Heap, c: Config, total: nat)
    requires WF(h, c, total) && h.parked != []
    ensures var b := h.parked[0];
            b != NULL && b !in h.parked[1..] && b in h.zones && forall j :: 0 <= j < |h.lists| ==> b !in h.lists[j]
  {
    assert Listed(h) && Distinct(h.parked);
    var b := h.parked[0];
    assert b in h.parked && b in h.zones;
    RestDistinct(h.parked);
    assert forall j :: 0 <= j < |h.lists| ==> b !in h.lists[j];
    hide WF;
    ZoneNumber(h, c, total, b);
  }

  lemma FreshPlan(h: Heap, c: Config, total: nat)
    requires WF(h, c, total)
    ensures var b := P.Alloc(h.pages.free, ZonePages(c)).1;
            b != P.NULL ==> b !in h.zones && b !in h.parked && forall j :: 0 <= j < |h.lists| ==> b !in h.lists[j]
  {
    hide P.Conserved, ZoneOk, P.Alloc;
    var b := P.Alloc(h.pages.free, ZonePages(c)).1;
    if b != P.NULL {
      ZonePagesPositive(c);
      FreshRun(h.pages, ZonePages(c), total);
      ApartFromAll(h, c, b, ZonePages(c));
    }
  }

  lemma OffsetFits(c: Config, i: nat, size: nat)
    requires Sizes(c) && i < NZONES && size == ChunkSize(i) && 0 < size <= c.zoneSize / 4
    ensures c.zoneSize >= Offset(size) && (c.zoneSize - Offset(size)) / size >= 2
    ensures NewZone(c, i, size) == Zone(i, size, Offset(size), (c.zoneSize - Offset(size)) / size, 0, (c.zoneSize - Offset(size)) / size - 1, [])
  {
    hide ChunkSize, Offset;
    NewZoneOk(c, i, size);
  }

  lemma NoChunks(link: map<(int, nat), int>, b: int)
    ensures ChunkChain(link, b, NULL, [])
  {
  }

  lemma GivePlan(h: Heap, c: Config, total: nat, first: int)
    requires WF(h, c, total) && first in h.larges
    ensures P.Run(first, h.larges[first]) in h.pages.owned && first >= 0 && h.larges[first] > 0
    ensures P.Taken(h.pages.free, first, h.larges[first])
  {
    hide P.Canonical, P.Has, P.Taken, ZoneOk, Listed;
    assert P.Run(first, h.larges[first]) in h.pages.owned;
  }

  lemma ReturnPlan(h: Heap, c: Config, total: nat, b: int, k: nat)
    requires WF(h, c, total) && Live(h, Chunk(b, k))
    ensures b in h.zones && k !in h.zones[b].freed && h.zones[b].index < |h.lists| && b !in h.parked
    ensures h.zones[b].nfree == 0 ==> forall j :: 0 <= j < |h.lists| ==> b !in h.lists[j]
  {
    hide P.Conserved, Paged, Distinct;
    if b in h.parked { ParkedIdle(h, c, total, b); }
    if h.zones[b].nfree == 0 {
      forall j | 0 <= j < |h.lists| ensures b !in h.lists[j] {
        assert b in h.lists[j] <==> b in h.zones && h.zones[b].index == j && h.zones[b].nfree > 0 && b !in h.parked;
      }
    }
  }

  lemma ChainAt(next: map<int, int>, head: int, s: seq<int>, m: nat)
    requires Chain(next, head, s) && m < |s|
    ensures s[m] in next && next[s[m]] == if m + 1 < |s| then s[m + 1] else NULL
  {
  }

  lemma LaterThere(s: seq<int>, m: nat, b: int)
    requires b in s && m < |s| && s[m] != b && forall j :: 0 <= j < m ==> s[j] != b
    ensures m + 1 < |s|
  {
  }

  lemma IndexIs(s: seq<int>, m: nat, b: int)
    requires m < |s| && s[m] == b && forall j :: 0 <= j < m ==> s[j] != b
    ensures Without(s, b) == RemoveAt(s, m)
  {
  }

  lemma TakeOffPlan(h: Heap, c: Config, total: nat, i: nat, b: int)
    requires WF(h, c, total) && i < NZONES && i < |h.lists| && b in h.lists[i]
    ensures Distinct(h.lists[i]) && forall x :: x in h.lists[i] ==> OnlyIn(h.lists, i, x)
  {
    hide P.Conserved, Paged, ZoneOk;
    Places(h, i);
  }

  lemma ListZone(h: Heap, c: Config, total: nat, i: nat, m: nat)
    requires WF(h, c, total) && i < NZONES && i < |h.lists| && m < |h.lists[i]|
    ensures h.lists[i][m] in h.zones && h.lists[i][m] !in h.parked
    ensures h.lists[i][m] != NULL && (m > 0 ==> h.lists[i][m - 1] != NULL)
  {
    assert Listed(h);
    Places(h, i);
    hide WF;
    var b := h.lists[i][m];
    assert b in h.lists[i];
    ZoneNumber(h, c, total, b);
    if m > 0 {
      var d := h.lists[i][m - 1];
      assert d in h.lists[i];
      ZoneNumber(h, c, total, d);
    }
  }

  lemma ListNotParked(h: Heap, c: Config, total: nat, i: nat, m: nat)
    requires WF(h, c, total) && i < NZONES && i < |h.lists| && m < |h.lists[i]|
    ensures h.lists[i][m] !in h.parked
  {
    hide WF;
    ListZone(h, c, total, i, m);
  }

  lemma ParkPlan(h: Heap, c: Config, total: nat, b: int)
    requires WF(h, c, total) && b in h.zones && h.zones[b].nfree > 0 && b !in h.parked && h.zones[b].index < |h.lists|
    ensures |h.lists| == NZONES && b in h.lists[h.zones[b].index] && |h.parked| <= RELEASE_THRESH && b >= 0 && ZonePages(c) > 0
    ensures P.Taken(h.pages.free, b, ZonePages(c)) && P.Run(b, ZonePages(c)) in h.pages.owned && Distinct(h.lists[h.zones[b].index])
  {
    hide P.Canonical, P.Has, P.Taken, ZoneOk;
    assert P.Run(b, ZonePages(c)) in h.pages.owned;
    ZonePagesPositive(c);
    var i := h.zones[b].index;
    assert b in h.lists[i] <==> b in h.zones && h.zones[b].index == i && h.zones[b].nfree > 0 && b !in h.parked;
  }

  /** The test of rt_free for another zone on the list. */
  lemma OthersOnList(next: map<int, int>, heads: seq<int>, h: Heap, c: Config, total: nat, b: int)
    requires WF(h, c, total) && Threaded(next, heads, h.lists) && b in h.zones && h.zones[b].index < |h.lists|
    requires b in h.lists[h.zones[b].index] && Distinct(h.lists[h.zones[b].index])
    ensures var i := h.zones[b].index;
            i < |heads| && b in next && (|h.lists[i]| > 1 <==> next[b] != NULL || heads[i] != b)
  {
    var i := h.zones[b].index;
    var s := h.lists[i];
    assert Listed(h);
    hide WF, Listed;
    assert Chain(next, heads[i], s);
    var m :| 0 <= m < |s| && s[m] == b;
    ChainAt(next, heads[i], s, m);
    ListsThere(h, c, total);
    if m + 1 < |s| { ListZone(h, c, total, i, m + 1); }
    if m > 0 { assert s[0] != s[m]; }
  }

  /** After it has been taken off, the zone is on no list. */
  lemma OffAll(h: Heap, c: Config, total: nat, b: int)
    requires WF(h, c, total) && b in h.zones && h.zones[b].index < |h.lists| && b in h.lists[h.zones[b].index]
    ensures var lists := h.lists[h.zones[b].index := Without(h.lists[h.zones[b].index], b)];
            forall j :: 0 <= j < |lists| ==> b !in lists[j]
  {
    var i := h.zones[b].index;
    ListsThere(h, c, total);
    TakeOffPlan(h, c, total, i, b);
    DropDistinct(h.lists[i], b);
    hide WF, Without, Distinct;
  }

  lemma FramePush(next: map<int, int>, heads: seq<int>, lists: seq<seq<int>>, b: int, parked: int, rest: seq<int>)
    requires Threaded(next, heads, lists) && Chain(next, parked, rest) && b !in rest && forall j :: 0 <= j < |lists| ==> b !in lists[j]
    ensures Threaded(next[b := parked], heads, lists) && Chain(next[b := parked], b, [b] + rest)
  {
    hide Chain;
    ChainPush(next, parked, rest, b);
    forall j | 0 <= j < |heads| ensures Chain(next[b := parked], heads[j], lists[j]) {
      ChainFrame(next, heads[j], lists[j], b, parked);
    }
  }

  lemma FreeFinds(h: Heap, c: Config, total: nat, blk: Block)
    requires WF(h, c, total) && Live(h, blk)
    ensures var page := Address(h, blk) / PAGE;
            && page in h.usage
            && (blk.Pages? ==> page == blk.first && page in h.larges && h.usage[page] == Large(h.larges[page]))
            && (blk.Chunk? ==> h.usage[page].Small? && page - h.usage[page].offset == blk.zone)
            && blk != None
  {
    match blk
    case Chunk(b, k) => ChunkFindsZone(h, c, total, b, k);
    case Pages(p) => LargeFinds(h, c, total, p);
  }
}
