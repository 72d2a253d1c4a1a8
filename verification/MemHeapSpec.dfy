/** What rt_memheap_alloc, rt_memheap_free and rt_memheap_realloc do to the heap, on values.
    Addresses are offsets from the start of the pool. */
module MemHeapSpec {
  import opened Rings
  import opened Blocks

  const HDR: nat := 24
  const MINIALLOC := 12
  const ALIGN := 4
  const NULL := -1
  const WORD := 0x1_0000_0000

  /** `free` lists the header addresses of the free blocks in free-list order. */
  datatype Heap = Heap(pool: int, blocks: seq<Block>, free: seq<int>, available: int, maxUsed: int)

  /** 32-bit rounding up to a multiple of 4: the addition wraps. */
  function Align(n: nat): int {
    (n + 3) % WORD / 4 * 4
  }

  function Request(n: nat): (r: nat)
    ensures r >= MINIALLOC && r % ALIGN == 0
  {
    if Align(n) < MINIALLOC then MINIALLOC else Align(n)
  }

  /** The free list holds exactly the unused blocks, each once. */
  ghost predicate FreeExact(blocks: set<Block>, free: seq<int>) {
    && Distinct(free)
    && (forall a :: a in free <==> Block(a, false) in blocks)
  }

  /** The blocks tile the pool, start at aligned addresses, and no two neighbours are both free. */
  ghost predicate Layout(bs: seq<Block>, hi: int) {
    Tiled(bs, 0, hi, HDR) && AlignedTo(bs, ALIGN) && NoAdjacentFree(bs)
  }

  ghost predicate WF(h: Heap) {
    && h.pool % ALIGN == 0 && h.pool < WORD
    && Layout(h.blocks, h.pool - HDR)
    && FreeExact(Members(h.blocks), h.free)
    && h.available == FreeBytes(h.blocks, HDR)
    && h.pool - h.available <= h.maxUsed
  }

  function Init(size: nat): Heap
    requires size / ALIGN * ALIGN >= 2 * HDR && size < WORD
  {
    var pool := size / ALIGN * ALIGN;
    var available := pool - 2 * HDR;
    Heap(pool, [Block(0, false), Block(pool - HDR, true)], [0], available, pool - available)
  }

  function SizeAt(bs: seq<Block>, a: int): int {
    var i := At(bs, a);
    if i + 1 < |bs| then Payload(bs, i, HDR) else 0
  }

  /** First entry of the free list that is large enough, or |free|. */
  function FirstFit(bs: seq<Block>, free: seq<int>, req: int): (k: nat)
    ensures k <= |free|
    ensures k < |free| ==> SizeAt(bs, free[k]) >= req
    ensures forall i :: 0 <= i < k ==> SizeAt(bs, free[i]) < req
  {
    if free == [] then 0
    else if SizeAt(bs, free[0]) >= req then 0
    else 1 + FirstFit(bs, free[1..], req)
  }

  function Raise(h: Heap): (r: Heap)
    ensures r.pool == h.pool
  {
    if h.pool - h.available > h.maxUsed then h.(maxUsed := h.pool - h.available) else h
  }

  /** Hands out free-list entry k. */
  function Carve(h: Heap, k: nat, req: nat): Heap
    requires k < |h.free| && At(h.blocks, h.free[k]) + 1 < |h.blocks|
  {
    var i := At(h.blocks, h.free[k]);
    var size := Payload(h.blocks, i, HDR);
    var rest := h.free[k] + HDR + req;
    if size >= req + HDR + MINIALLOC then
      Raise(h.(blocks := Split(Mark(h.blocks, i, true), i, rest, false),
               free := [rest] + RemoveAt(h.free, k),
               available := h.available - req - HDR))
    else
      Raise(h.(blocks := Mark(h.blocks, i, true),
               free := RemoveAt(h.free, k),
               available := h.available - size))
  }

  /** Index in the free list of the block rt_memheap_alloc takes; |free| when it finds none. */
  function Choice(h: Heap, size: nat): (k: nat)
    ensures k <= |h.free|
  {
    if Request(size) < h.available then FirstFit(h.blocks, h.free, Request(size)) else |h.free|
  }

  function Alloc(h: Heap, size: nat): (r: (Heap, int))
    ensures r.0.pool == h.pool
  {
    var k := Choice(h, size);
    if k == |h.free| || At(h.blocks, h.free[k]) + 1 >= |h.blocks| then (h, NULL)
    else (Carve(h, k, Request(size)), h.free[k] + HDR)
  }

  /** Frees block i. */
  function Free(h: Heap, i: nat): (r: Heap)
    requires i + 1 < |h.blocks|
    ensures r.pool == h.pool
  {
    var bs := h.blocks;
    var left, right := i > 0 && !bs[i - 1].used, !bs[i + 1].used;
    var others := if right then Without(h.free, bs[i + 1].addr) else h.free;
    Heap(h.pool, Release(bs, i),
         if left then others else [bs[i].addr] + others,
         h.available + Payload(bs, i, HDR) + (if left then HDR else 0) + (if right then HDR else 0),
         h.maxUsed)
  }

  /** The guard of the in-place growth; its addition is 32 bits wide. */
  predicate CanGrow(h: Heap, i: nat, req: nat)
    requires i + 1 < |h.blocks|
  {
    && !h.blocks[i + 1].used
    && i + 2 < |h.blocks|
    && Payload(h.blocks, i + 1, HDR) + Payload(h.blocks, i, HDR) > (req + MINIALLOC) % WORD
  }

  /** An address beyond 32 bits wraps. */
  function Wrap(a: int): int {
    if a >= WORD then a - WORD else a
  }

  /** Moves the header of the free block behind block i up so that block i holds `req` bytes. */
  function Grow(h: Heap, i: nat, req: nat): Heap
    requires i + 2 < |h.blocks|
  {
    var next := Wrap(h.blocks[i].addr + HDR + req);
    Raise(h.(blocks := Split(Absorb(h.blocks, i), i, next, false),
             free := [next] + Without(h.free, h.blocks[i + 1].addr),
             available := h.available - (req - Payload(h.blocks, i, HDR))))
  }

  /** Cuts block i down to `req` bytes; the rest is freed. */
  function Shrink(h: Heap, i: nat, req: nat): Heap
    requires i + 1 < |h.blocks|
  {
    var bs := h.blocks;
    var cut := bs[i].addr + HDR + req;
    var right := !bs[i + 1].used;
    Heap(h.pool, Release(Split(bs, i, cut, true), i + 1),
         [cut] + (if right then Without(h.free, bs[i + 1].addr) else h.free),
         h.available + bs[i + 1].addr - cut - HDR + (if right then HDR else 0),
         h.maxUsed)
  }

  function Move(h: Heap, i: nat, req: nat): (Heap, int)
    requires i + 1 < |h.blocks|
  {
    var (h1, p) := Alloc(h, req);
    var j := At(h1.blocks, h.blocks[i].addr);
    if p == NULL || j + 1 >= |h1.blocks| then (h1, NULL) else (Free(h1, j), p)
  }

  /** rt_memheap_realloc of used block i to a nonzero size. */
  function Realloc(h: Heap, i: nat, newsize: nat): (r: (Heap, int))
    requires i + 1 < |h.blocks|
    ensures r.0.pool == h.pool
  {
    var req, size := Request(newsize), Payload(h.blocks, i, HDR);
    var ptr := h.blocks[i].addr + HDR;
    if req > size then
      if CanGrow(h, i, req) then (Grow(h, i, req), ptr) else Move(h, i, req)
    else if req + HDR + MINIALLOC >= size then (h, ptr)
    else (Shrink(h, i, req), ptr)
  }

  // ----- histories

  datatype Op = OpAlloc(size: nat) | OpFree(p: int) | OpRealloc(p: int, size: nat)

  /** Index of the allocated block whose payload starts at `p`, or |blocks|. */
  function Live(h: Heap, p: int): (i: nat)
    ensures i + 1 < |h.blocks| ==> h.blocks[i] == Block(p - HDR, true)
  {
    var i := At(h.blocks, p - HDR);
    if i + 1 < |h.blocks| && h.blocks[i].used then i else |h.blocks|
  }

  /** One call. Pointers that name no allocated block are outside the interface; such a call is skipped. */
  function Step(h: Heap, op: Op): Heap {
    match op
    case OpAlloc(size) => Alloc(h, size).0
    case OpFree(p) => if Live(h, p) + 1 < |h.blocks| then Free(h, Live(h, p)) else h
    case OpRealloc(p, size) =>
      if p == NULL then (if size == 0 then h else Alloc(h, size).0)
      else if Live(h, p) + 1 < |h.blocks| then
        if size == 0 then Free(h, Live(h, p)) else Realloc(h, Live(h, p), size).0
      else h
  }

  /** The guard of the in-place growth holds although it has wrapped. */
  predicate Overruns(h: Heap, i: nat, size: nat)
    requires i + 1 < |h.blocks|
  {
    Request(size) + MINIALLOC >= WORD && CanGrow(h, i, Request(size))
  }

  /** What a caller can check before a call to know that the heap stays consistent. */
  predicate Safe(h: Heap, op: Op) {
    op.OpRealloc? && op.p != NULL && op.size > 0 && Live(h, op.p) + 1 < |h.blocks| ==> !Overruns(h, Live(h, op.p), op.size)
  }

  predicate AllSafe(h: Heap, ops: seq<Op>)
    decreases |ops|
  {
    ops == [] || (Safe(h, ops[0]) && AllSafe(Step(h, ops[0]), ops[1..]))
  }

  function Run(h: Heap, ops: seq<Op>): Heap
    decreases |ops|
  {
    if ops == [] then h else Run(Step(h, ops[0]), ops[1..])
  }

  lemma FreeIsBlock(h: Heap, k: nat)
    requires WF(h) && k < |h.free|
    ensures At(h.blocks, h.free[k]) + 1 < |h.blocks|
    ensures !h.blocks[At(h.blocks, h.free[k])].used
  {
    assert h.free[k] in h.free;
    var b := Block(h.free[k], false);
    assert b in h.blocks;
    var i :| 0 <= i < |h.blocks| && h.blocks[i] == b;
    AtUnique(h.blocks, 0, h.pool - HDR, HDR, i);
  }
}
