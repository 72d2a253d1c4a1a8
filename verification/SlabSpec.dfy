/** The slab allocator of slab.c on values: zones of equal chunks on top of the page allocator. Addresses are offsets
    from the start of the heap; a zone is named by its first page. */
module SlabSpec {
  import opened Rings
  import BitScan
  import P = PageRuns
  import opened Chains

  const PAGE := 4096
  const NZONES := 72
  const HEADER := 36
  const MIN_CHUNK := 8
  const RELEASE_THRESH := 2

  datatype Config = Config(zoneSize: nat, zoneLimit: nat)

  /** The zone sizes rt_system_heap_init can choose. */
  predicate Sizes(c: Config) {
    && (c.zoneSize == 32768 || c.zoneSize == 65536 || c.zoneSize == 131072)
    && c.zoneLimit == if c.zoneSize / 4 > 16384 then 16384 else c.zoneSize / 4
  }

  function ZonePages(c: Config): nat {
    c.zoneSize / PAGE
  }

  /** zoneindex: the request rounded up to a chunk size, and the list it belongs to. */
  function ZoneIndex(n: nat): (nat, int) {
    if n < 128 then var b := (n + 7) / 8 * 8; (b, b / 8 - 1)
    else if n < 256 then var b := (n + 15) / 16 * 16; (b, b / 16 + 7)
    else if n < 512 then var b := (n + 31) / 32 * 32; (b, b / 32 + 15)
    else if n < 1024 then var b := (n + 63) / 64 * 64; (b, b / 64 + 23)
    else if n < 2048 then var b := (n + 127) / 128 * 128; (b, b / 128 + 31)
    else if n < 4096 then var b := (n + 255) / 256 * 256; (b, b / 256 + 39)
    else if n < 8192 then var b := (n + 511) / 512 * 512; (b, b / 512 + 47)
    else if n < 16384 then var b := (n + 1023) / 1024 * 1024; (b, b / 1024 + 55)
    else (n, 0)
  }

  /** The chunk size of list i. */
  function ChunkSize(i: nat): nat {
    if i < 16 then 8 * (i + 1)
    else if i < 24 then 16 * (i - 7)
    else if i < 32 then 32 * (i - 15)
    else if i < 40 then 64 * (i - 23)
    else if i < 48 then 128 * (i - 31)
    else if i < 56 then 256 * (i - 39)
    else if i < 64 then 512 * (i - 47)
    else if i < 72 then 1024 * (i - 55)
    else 0
  }

  /** z_zoneindex, z_chunksize, the offset of z_baseptr in the zone, z_nmax, z_uindex, z_nfree, and the chunks of
      z_freechunk in list order. */
  datatype Zone = Zone(index: nat, chunk: nat, off: nat, nmax: nat, uindex: nat, nfree: nat, freed: seq<nat>)

  datatype Usage = FreePage | Small(offset: nat) | Large(pages: nat)

  /** `lists` are zone_array, `parked` is zone_free; `larges` remembers the allocations made of whole pages. */
  datatype Heap = Heap(pages: P.Pages, zones: map<int, Zone>, lists: seq<seq<int>>, parked: seq<int>,
                       usage: map<int, Usage>, larges: map<int, nat>)

  datatype Block = Chunk(zone: int, k: nat) | Pages(first: int) | None

  /** The power-of-two test of rt_malloc. */
  predicate PowerOfTwo(size: nat)
    requires size > 0
  {
    BitScan.Or(size, size - 1) + 1 == 2 * size
  }

  /** Where the chunks of a zone start: behind its header, aligned to the chunk size when that is a power of two. */
  function Offset(size: nat): nat
    requires size > 0
  {
    if PowerOfTwo(size) then (HEADER + size - 1) / size * size else (HEADER + MIN_CHUNK - 1) / MIN_CHUNK * MIN_CHUNK
  }

  /** A zone from which the first chunk is taken at once. */
  function NewZone(c: Config, index: nat, size: nat): Zone
    requires size > 0
  {
    var nmax := if c.zoneSize >= Offset(size) then (c.zoneSize - Offset(size)) / size else 0;
    Zone(index, size, Offset(size), nmax, 0, if nmax > 0 then nmax - 1 else 0, [])
  }

  function Address(h: Heap, b: Block): int {
    match b
    case Chunk(z, k) => if z in h.zones then z * PAGE + h.zones[z].off + k * h.zones[z].chunk else NULL
    case Pages(p) => p * PAGE
    case None => NULL
  }

  /** memusage of a new zone's pages. */
  function Marked(usage: map<int, Usage>, z: int, n: nat): map<int, Usage>
    decreases n
  {
    if n == 0 then usage else Marked(usage, z, n - 1)[z + n - 1 := Small(n - 1)]
  }

  function Unmarked(usage: map<int, Usage>, z: int, n: nat): map<int, Usage>
    decreases n
  {
    if n == 0 then usage else Unmarked(usage, z, n - 1)[z + n - 1 := FreePage]
  }

  /** A large request: whole pages. */
  function MallocPages(h: Heap, size: nat): (Heap, Block) {
    var n := (size + PAGE - 1) / PAGE;
    var (free, a) := P.Alloc(h.pages.free, n);
    if a == P.NULL then (h, None)
    else (h.(pages := P.Step(h.pages, P.Get(n)), usage := h.usage[a := Large(n)], larges := h.larges[a := n]), Pages(a))
  }

  /** The first zone of a list gives a chunk: one never used before, else the one freed last. */
  function MallocChunk(h: Heap, i: nat): (Heap, Block) {
    if i >= |h.lists| || h.lists[i] == [] || h.lists[i][0] !in h.zones then (h, None)
    else
      var b := h.lists[i][0];
      var z := h.zones[b];
      var nfree := if z.nfree > 0 then z.nfree - 1 else 0;
      var lists := if nfree == 0 then h.lists[i := h.lists[i][1..]] else h.lists;
      if z.uindex + 1 != z.nmax then
        (h.(zones := h.zones[b := z.(nfree := nfree, uindex := z.uindex + 1)], lists := lists), Chunk(b, z.uindex + 1))
      else if z.freed == [] then (h, None)
      else
        (h.(zones := h.zones[b := z.(nfree := nfree, freed := z.freed[1..])], lists := lists), Chunk(b, z.freed[0]))
  }

  /** A list without zones gets one: a parked zone, or pages from the page allocator. */
  function MallocZone(h: Heap, c: Config, i: nat, size: nat): (Heap, Block) {
    if i >= |h.lists| || size == 0 then (h, None)
    else if h.parked != [] then
      var b := h.parked[0];
      (h.(zones := h.zones[b := NewZone(c, i, size)], lists := h.lists[i := [b] + h.lists[i]], parked := h.parked[1..]), Chunk(b, 0))
    else
      var (free, b) := P.Alloc(h.pages.free, ZonePages(c));
      if b == P.NULL then (h, None)
      else
        (h.(pages := P.Step(h.pages, P.Get(ZonePages(c))), usage := Marked(h.usage, b, ZonePages(c)),
            zones := h.zones[b := NewZone(c, i, size)], lists := h.lists[i := [b] + h.lists[i]]), Chunk(b, 0))
  }

  /** rt_malloc */
  function Malloc(h: Heap, c: Config, size: nat): (Heap, Block) {
    if size == 0 then (h, None)
    else if size >= c.zoneLimit then MallocPages(h, size)
    else
      var (bytes, i) := ZoneIndex(size);
      if !(0 <= i < |h.lists|) then (h, None)
      else if h.lists[i] != [] then MallocChunk(h, i)
      else MallocZone(h, c, i, bytes)
  }

  /** rt_free of an allocation made of pages; memusage keeps the type. */
  function FreePages(h: Heap, first: int): Heap {
    if first !in h.larges then h
    else
      h.(pages := P.Step(h.pages, P.Put(P.Run(first, h.larges[first]))), usage := h.usage[first := Large(0)],
         larges := h.larges - {first})
  }

  /** The chunk goes to the front of its zone's list of freed chunks; a zone that had none comes back on its list. */
  function Return(h: Heap, b: int, k: nat): Heap {
    if b !in h.zones || h.zones[b].index >= |h.lists| then h
    else
      var z := h.zones[b];
      h.(zones := h.zones[b := z.(nfree := z.nfree + 1, freed := [k] + z.freed)],
         lists := if z.nfree == 0 then h.lists[z.index := [b] + h.lists[z.index]] else h.lists)
  }

  /** A zone that has become empty is parked when its list has another one; more than two parked zones are too many,
      and the one just parked goes back to the page allocator. */
  function Park(h: Heap, c: Config, b: int): Heap {
    if b !in h.zones || h.zones[b].index >= |h.lists| then h
    else
      var z := h.zones[b];
      var list := h.lists[z.index];
      if z.nfree != z.nmax || |list| <= 1 then h
      else
        var h1 := h.(lists := h.lists[z.index := Without(list, b)]);
        if |h.parked| + 1 > RELEASE_THRESH then
          h1.(pages := P.Step(h.pages, P.Put(P.Run(b, ZonePages(c)))), usage := Unmarked(h.usage, b, ZonePages(c)),
              zones := h.zones - {b})
        else h1.(parked := [b] + h.parked)
  }

  /** rt_free */
  function Free(h: Heap, c: Config, blk: Block): Heap {
    match blk
    case None => h
    case Pages(p) => FreePages(h, p)
    case Chunk(b, k) => Park(Return(h, b, k), c, b)
  }

  /** rt_realloc, apart from the copy: a zone's chunk stays when the request has the same chunk size. */
  function Realloc(h: Heap, c: Config, blk: Block, size: nat): (Heap, Block) {
    if blk == None then Malloc(h, c, size)
    else if size == 0 then (Free(h, c, blk), None)
    else
      var wanted := if blk.Chunk? then ZoneIndex(size).0 else size;
      if blk.Chunk? && blk.zone in h.zones && h.zones[blk.zone].chunk == wanted then (h, blk)
      else
        var (h1, other) := Malloc(h, c, wanted);
        if other == None then (h, None) else (Free(h1, c, blk), other)
  }

  // ----- what must agree

  /** Handed out and not freed yet. */
  predicate Live(h: Heap, blk: Block) {
    match blk
    case None => false
    case Pages(p) => p in h.larges
    case Chunk(b, k) => b in h.zones && k <= h.zones[b].uindex && k !in h.zones[b].freed
  }

  ghost predicate ZoneOk(z: Zone, c: Config) {
    && z.index < NZONES && z.chunk == ChunkSize(z.index) && z.chunk > 0
    && HEADER <= z.off && z.off + z.nmax * z.chunk <= c.zoneSize
    && z.nmax >= 2 && z.uindex < z.nmax
    && Distinct(z.freed) && (forall i :: 0 <= i < |z.freed| ==> z.freed[i] <= z.uindex)
    && z.nfree == z.nmax - 1 - z.uindex + |z.freed|
  }

  /** A zone is on the list of its index iff it has a free chunk and is not parked; parked zones have no live chunk. */
  ghost predicate Listed(h: Heap) {
    && |h.lists| == NZONES
    && (forall i :: 0 <= i < NZONES ==> Distinct(h.lists[i]))
    && (forall i, b :: 0 <= i < NZONES ==>
          (b in h.lists[i] <==> b in h.zones && h.zones[b].index == i && h.zones[b].nfree > 0 && b !in h.parked))
    && Distinct(h.parked) && |h.parked| <= RELEASE_THRESH
    && (forall b :: b in h.parked ==> b in h.zones && h.zones[b].nfree == h.zones[b].nmax)
  }

  /** Zones and large allocations own their pages, and memusage says which page belongs to what. */
  ghost predicate Paged(h: Heap, c: Config) {
    && h.zones.Keys !! h.larges.Keys
    && (forall b :: b in h.zones ==> P.Run(b, ZonePages(c)) in h.pages.owned)
    && (forall p :: p in h.larges ==> P.Run(p, h.larges[p]) in h.pages.owned)
    && (forall b, q :: b in h.zones && b <= q < b + ZonePages(c) ==> q in h.usage && h.usage[q] == Small(q - b))
    && (forall p :: p in h.larges ==> p in h.usage && h.usage[p] == Large(h.larges[p]))
  }

  ghost predicate WF(h: Heap, c: Config, total: nat) {
    && Sizes(c) && P.Conserved(h.pages, total) && Paged(h, c) && Listed(h)
    && forall b :: b in h.zones ==> ZoneOk(h.zones[b], c)
  }
}
