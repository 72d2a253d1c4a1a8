/** What rt_malloc, rt_free and rt_realloc of the small-memory heap (mem.c) do, on values.
    Addresses are offsets from heap_ptr; the last entry of `blocks` is heap_end. */
module SmallMemSpec {
  import opened Rings
  import opened Blocks

  const HDR: nat := 12
  const MIN_SIZE := 12
  const ALIGN := 4
  const NULL := -1
  const WORD := 0x1_0000_0000

  datatype Mem = Mem(size: int, blocks: seq<Block>, lfree: int, usedMem: int, maxMem: int)

  function Align(n: nat): (r: nat) {
    (n + 3) % WORD / 4 * 4
  }

  ghost predicate Layout(bs: seq<Block>, hi: int) {
    Tiled(bs, 0, hi, HDR) && AlignedTo(bs, ALIGN) && NoAdjacentFree(bs)
  }

  /** lfree sits on a block that is free, or on heap_end. */
  ghost predicate HintOnBlock(bs: seq<Block>, hi: int, lfree: int) {
    lfree == hi || Block(lfree, false) in Members(bs)
  }

  ghost predicate WF(m: Mem) {
    && m.size >= MIN_SIZE && m.size % ALIGN == 0
    && Layout(m.blocks, m.size + HDR)
    && HintOnBlock(m.blocks, m.size + HDR, m.lfree)
    && m.usedMem == UsedExtent(m.blocks)
    && m.usedMem <= m.maxMem
  }

  ghost predicate UsedBelow(blocks: set<Block>, l: int) {
    forall b :: b in blocks && b.addr < l ==> b.used
  }

  /** The hint is exact: every block below lfree is used. */
  ghost predicate Lowest(m: Mem) {
    UsedBelow(Members(m.blocks), m.lfree)
  }

  predicate InitOk(begin: nat, end: nat) {
    var (b, e) := ((begin + 3) / 4 * 4, end / 4 * 4);
    e > 2 * HDR && e - 2 * HDR >= b
  }

  function Init(begin: nat, end: nat): Mem {
    var size := end / 4 * 4 - (begin + 3) / 4 * 4 - 2 * HDR;
    Mem(size, [Block(0, false), Block(size + HDR, true)], 0, 0, 0)
  }

  predicate Fits(bs: seq<Block>, i: nat, req: int)
    requires i + 1 < |bs|
  {
    !bs[i].used && Payload(bs, i, HDR) >= req
  }

  /** The search of rt_malloc: first fitting block from index i on that starts below `limit`. */
  function Search(bs: seq<Block>, i: nat, limit: int, req: int): (k: nat)
    ensures k <= |bs|
    ensures k < |bs| ==> i <= k && k + 1 < |bs| && Fits(bs, k, req) && bs[k].addr < limit
    decreases |bs| - i
  {
    if i + 1 >= |bs| || bs[i].addr >= limit then |bs|
    else if Fits(bs, i, req) then i
    else Search(bs, i + 1, limit, req)
  }

  /** First free block from index i on, or the last block. */
  function NextFree(bs: seq<Block>, i: nat): (a: int)
    requires i < |bs|
    decreases |bs| - i
  {
    if !bs[i].used || i + 1 == |bs| then bs[i].addr else NextFree(bs, i + 1)
  }

  function Raise(m: Mem): Mem {
    if m.maxMem < m.usedMem then m.(maxMem := m.usedMem) else m
  }

  /** Block sequence after handing out free block i. */
  function Taken(bs: seq<Block>, i: nat, req: nat): seq<Block>
    requires i + 1 < |bs|
  {
    if Payload(bs, i, HDR) >= req + HDR + MIN_SIZE
    then Split(Mark(bs, i, true), i, bs[i].addr + HDR + req, false)
    else Mark(bs, i, true)
  }

  function Take(m: Mem, i: nat, req: nat): Mem
    requires i + 1 < |m.blocks|
  {
    var bs := Taken(m.blocks, i, req);
    Raise(m.(blocks := bs,
             lfree := if m.blocks[i].addr == m.lfree && i < |bs| then NextFree(bs, i) else m.lfree,
             usedMem := m.usedMem + (if Payload(m.blocks, i, HDR) >= req + HDR + MIN_SIZE then req + HDR
                                     else m.blocks[i + 1].addr - m.blocks[i].addr)))
  }

  function Request(n: nat): (r: nat)
    ensures r >= MIN_SIZE && r % ALIGN == 0
  {
    if Align(n) < MIN_SIZE then MIN_SIZE else Align(n)
  }

  /** Index of the block rt_malloc takes, or |blocks|. */
  function Choice(m: Mem, n: nat): nat {
    if n == 0 || Align(n) > m.size then |m.blocks|
    else Search(m.blocks, At(m.blocks, m.lfree), m.size - Request(n), Request(n))
  }

  function Malloc(m: Mem, n: nat): (r: (Mem, int))
    ensures r.0.size == m.size
  {
    var i := Choice(m, n);
    if i + 1 >= |m.blocks| then (m, NULL) else (Take(m, i, Request(n)), m.blocks[i].addr + HDR)
  }

  /** Where lfree ends up when block i has just become free and plug_holes has run. */
  function HintAfterPlug(bs: seq<Block>, i: nat, lfree: int): int
    requires i + 1 < |bs|
  {
    var l := if !bs[i + 1].used && lfree == bs[i + 1].addr then bs[i].addr else lfree;
    if i > 0 && !bs[i - 1].used && l == bs[i].addr then bs[i - 1].addr else l
  }

  /** Frees block i. */
  function Free(m: Mem, i: nat): (r: Mem)
    requires i + 1 < |m.blocks|
    ensures r.size == m.size
  {
    var bs := m.blocks;
    m.(blocks := Release(bs, i),
       lfree := HintAfterPlug(bs, i, if bs[i].addr < m.lfree then bs[i].addr else m.lfree),
       usedMem := m.usedMem - (bs[i + 1].addr - bs[i].addr))
  }

  /** Cuts used block i down to n bytes. */
  function Shrink(m: Mem, i: nat, n: nat): (r: Mem)
    requires i + 1 < |m.blocks|
    ensures r.size == m.size
  {
    var cut := m.blocks[i].addr + HDR + n;
    var s := Split(m.blocks, i, cut, true);
    m.(blocks := Release(s, i + 1),
       lfree := HintAfterPlug(s, i + 1, m.lfree),
       usedMem := m.usedMem - (Payload(m.blocks, i, HDR) - n))
  }

  predicate Shrinks(m: Mem, i: nat, n: nat)
    requires i + 1 < |m.blocks|
  {
    n + HDR + MIN_SIZE < Payload(m.blocks, i, HDR)
  }

  function Move(m: Mem, i: nat, n: nat): (r: (Mem, int))
    requires i + 1 < |m.blocks|
    ensures r.0.size == m.size
  {
    var (m1, p) := Malloc(m, n);
    var j := At(m1.blocks, m.blocks[i].addr);
    if p == NULL || j + 1 >= |m1.blocks| then (m1, NULL) else (Free(m1, j), p)
  }

  /** rt_realloc of used block i; n is the rounded new size and neither 0 nor above the heap size. */
  function Resize(m: Mem, i: nat, n: nat): (r: (Mem, int))
    requires i + 1 < |m.blocks|
    ensures r.0.size == m.size
  {
    var p := m.blocks[i].addr + HDR;
    if Payload(m.blocks, i, HDR) == n then (m, p)
    else if Shrinks(m, i, n) then (Shrink(m, i, n), p)
    else Move(m, i, n)
  }

  /** Index of the allocated block whose payload starts at p, or |blocks|. */
  function Live(m: Mem, p: int): (i: nat)
    ensures i + 1 < |m.blocks| ==> m.blocks[i] == Block(p - HDR, true) && 0 <= p < m.size + HDR
  {
    var i := At(m.blocks, p - HDR);
    if 0 <= p < m.size + HDR && i + 1 < |m.blocks| && m.blocks[i].used then i else |m.blocks|
  }

  function Realloc(m: Mem, p: int, newsize: nat): (r: (Mem, int))
    ensures r.0.size == m.size
  {
    var n := Align(newsize);
    if n > m.size then (m, NULL)
    else if n == 0 then (if Live(m, p) + 1 < |m.blocks| then Free(m, Live(m, p)) else m, NULL)
    else if p == NULL then Malloc(m, n)
    else if p < 0 || p >= m.size + HDR then (m, p)
    else if Live(m, p) + 1 < |m.blocks| then Resize(m, Live(m, p), n)
    else (m, p)
  }

  datatype Op = OpMalloc(n: nat) | OpFree(p: int) | OpRealloc(p: int, n: nat)

  /** One call; pointers that name no allocated block are outside the interface and are skipped. */
  function Step(m: Mem, op: Op): (r: Mem)
    ensures r.size == m.size
  {
    match op
    case OpMalloc(n) => Malloc(m, n).0
    case OpFree(p) => if Live(m, p) + 1 < |m.blocks| then Free(m, Live(m, p)) else m
    case OpRealloc(p, n) => Realloc(m, p, n).0
  }

  function Run(m: Mem, ops: seq<Op>): Mem
    decreases |ops|
  {
    if ops == [] then m else Run(Step(m, ops[0]), ops[1..])
  }
}
