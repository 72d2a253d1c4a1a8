/** The memory heap object of memheap.c: block headers inside the pool, linked in address order and,
    when free, on a second list.

    Each header field is one store, a map from header address to value; the pool bytes are an array. */
module MemHeap {
  import opened Rings
  import opened Blocks
  import opened Payloads
  import Spec = MemHeapSpec
  import Laws = MemHeapLaws

  const HDR := Spec.HDR
  const NULL := Spec.NULL
  /** Address of the free-list header, which lies outside the pool. */
  const FREE_LIST := -2

  ghost predicate ListOff(len: int, free: seq<int>, keep: set<int>) {
    forall a :: a in free ==> Writable(len, a, HDR, keep)
  }

  lemma ListOffAt(len: int, free: seq<int>, keep: set<int>, k: nat)
    requires ListOff(len, free, keep) && k < |free|
    ensures Writable(len, free[k], HDR, keep)
    ensures ListOff(len, RemoveAt(free, k), keep)
    ensures k + 1 < |free| ==> Writable(len, free[k + 1], HDR, keep)
    ensures k > 0 ==> Writable(len, free[k - 1], HDR, keep)
  {
  }

  lemma HeadersOff(h: Spec.Heap)
    requires Spec.WF(h)
    ensures AllOff(h.pool, h.blocks, HDR, LiveBytes(h.blocks, HDR, h.pool))
    ensures ListOff(h.pool, h.free, LiveBytes(h.blocks, HDR, h.pool))
    ensures FREE_LIST !in h.free && FREE_LIST !in Addrs(h.blocks)
  {
    hide Spaced, NoAdjacentFree, AlignedTo, FreeBytes, Writable, Spec.FreeExact;
    forall i | 0 <= i < |h.blocks|
      ensures Writable(h.pool, h.blocks[i].addr, HDR, LiveBytes(h.blocks, HDR, h.pool)) && h.blocks[i].addr >= 0
    {
      HeaderOff(h.blocks, HDR, h.pool, i);
      Laws.BlockInPool(h, i);
    }
    forall a | a in h.free
      ensures Writable(h.pool, a, HDR, LiveBytes(h.blocks, HDR, h.pool)) && a >= 0
    {
      var k :| 0 <= k < |h.free| && h.free[k] == a;
      Spec.FreeIsBlock(h, k);
    }
  }

  lemma NextHeader(h: Spec.Heap, next: map<int, int>, prev: map<int, int>, i: nat)
    requires Spec.WF(h) && Ring(next, prev, Addrs(h.blocks)) && i + 1 < |h.blocks|
    ensures h.blocks[i].addr in next && next[h.blocks[i].addr] == h.blocks[i + 1].addr
  {
    hide Spec.WF, Ring;
    LinksAt(next, prev, Addrs(h.blocks), i);
  }

  lemma HeaderSize(h: Spec.Heap, next: map<int, int>, prev: map<int, int>, k: nat)
    requires Spec.WF(h) && Ring(next, prev, Addrs(h.blocks)) && k < |h.free|
    ensures h.free[k] in next && next[h.free[k]] - h.free[k] - HDR == Spec.SizeAt(h.blocks, h.free[k])
  {
    hide Spec.WF, Ring, At;
    Spec.FreeIsBlock(h, k);
    NextHeader(h, next, prev, At(h.blocks, h.free[k]));
  }

  lemma NextFree(nextFree: map<int, int>, prevFree: map<int, int>, free: seq<int>, k: nat)
    requires Ring(nextFree, prevFree, [FREE_LIST] + free) && k < |free|
    ensures free[k] in nextFree && nextFree[free[k]] == (if k + 1 == |free| then FREE_LIST else free[k + 1])
  {
    hide Ring;
    LinksAt(nextFree, prevFree, [FREE_LIST] + free, k + 1);
  }

  lemma NotInTail(free: seq<int>, k: nat)
    requires Distinct(free) && FREE_LIST !in free && k < |free|
    ensures free[k] !in [FREE_LIST] + RemoveAt(free, k)
  {
    DistinctAfterRemove(free, k);
  }

  lemma WFList(h: Spec.Heap)
    requires Spec.WF(h)
    ensures Distinct(h.free) && Spec.Layout(h.blocks, h.pool - HDR) && Spaced(h.blocks, HDR)
    ensures forall a :: a in h.free ==> Block(a, false) in Members(h.blocks)
  {
  }

  lemma PoolTiled(h: Spec.Heap)
    requires Spec.WF(h)
    ensures Tiled(h.blocks, 0, h.pool - HDR, HDR)
  {
  }

  lemma SafeGuard(h: Spec.Heap, p: int, size: nat)
    requires Spec.Safe(h, Spec.OpRealloc(p, size)) && p != NULL && size > 0 && Spec.Live(h, p) + 1 < |h.blocks|
    ensures Spec.Request(size) + Spec.MINIALLOC >= Spec.WORD ==> !Spec.CanGrow(h, Spec.Live(h, p), Spec.Request(size))
  {
  }

  lemma FreshEntry(h: Spec.Heap, i: nat, a: int)
    requires Spec.WF(h) && i + 1 < |h.blocks| && h.blocks[i].addr < a < h.blocks[i + 1].addr
    ensures a !in h.free && a !in Addrs(h.blocks) && a > 0
  {
    hide Spec.WF, Members;
    WFList(h);
    FreshAddress(h.blocks, HDR, i, a);
    InsideFresh(h.blocks, HDR, i, a);
    Laws.BlockInPool(h, i);
  }

  lemma FlagCarve(used: map<int, bool>, bs: seq<Block>, i: nat, a: int)
    requires Flagged(used, bs) && Spaced(bs, HDR) && i + 1 < |bs|
    requires bs[i].addr + HDR <= a && a + HDR <= bs[i + 1].addr
    ensures Flagged(used[a := false][bs[i].addr := true], Mark(Split(bs, i, a, false), i, true))
    ensures Mark(Split(bs, i, a, false), i, true) == Split(Mark(bs, i, true), i, a, false)
    ensures Addrs(Mark(Split(bs, i, a, false), i, true)) == Addrs(Split(bs, i, a, false))
    ensures i < |Split(bs, i, a, false)|
  {
    hide Flagged, Spaced;
    InsideFresh(bs, HDR, i, a);
    FlagSplit(used, bs, i, a, false);
    SplitSpaced(bs, HDR, i, a, false);
    FlagMark(used[a := false], Split(bs, i, a, false), HDR, i, true);
    AddrsOf(Split(bs, i, a, false));
    MarkSplitSwap(bs, i, a);
  }

  lemma MarkSplitSwap(bs: seq<Block>, i: nat, a: int)
    requires i < |bs|
    ensures Mark(Split(bs, i, a, false), i, true) == Split(Mark(bs, i, true), i, a, false)
  {
  }

  /** Facts about the block rt_memheap_alloc is about to hand out. */
  lemma CarveFacts(h: Spec.Heap, k: nat, req: nat) returns (i: nat)
    requires Spec.WF(h) && k < |h.free| && Spec.SizeAt(h.blocks, h.free[k]) >= req
    ensures i == At(h.blocks, h.free[k]) && i + 1 < |h.blocks| && h.blocks[i] == Block(h.free[k], false)
    ensures Spec.SizeAt(h.blocks, h.free[k]) == Payload(h.blocks, i, HDR)
    ensures Spaced(h.blocks, HDR) && Tiled(h.blocks, 0, h.pool - HDR, HDR)
    ensures Distinct(h.free) && FREE_LIST !in h.free
    ensures AllOff(h.pool, h.blocks, HDR, LiveBytes(h.blocks, HDR, h.pool))
    ensures Writable(h.pool, h.free[k], HDR, LiveBytes(h.blocks, HDR, h.pool))
    ensures ListOff(h.pool, h.free, LiveBytes(h.blocks, HDR, h.pool))
  {
    hide Spec.WF, Writable, AllOff, ListOff;
    Spec.FreeIsBlock(h, k);
    i := At(h.blocks, h.free[k]);
    HeadersOff(h);
    WFList(h);
    ListOffAt(h.pool, h.free, LiveBytes(h.blocks, HDR, h.pool), k);
  }

  lemma PrevFlag(next: map<int, int>, prev: map<int, int>, used: map<int, bool>, bs: seq<Block>, i: nat)
    requires Ring(next, prev, Addrs(bs)) && Flagged(used, bs) && i + 1 < |bs| && bs[|bs| - 1].used
    ensures bs[i].addr in prev && prev[bs[i].addr] in used
    ensures used[prev[bs[i].addr]] == (i == 0 || bs[i - 1].used)
    ensures i > 0 ==> prev[bs[i].addr] == bs[i - 1].addr
  {
    LinksAt(next, prev, Addrs(bs), i);
  }

  lemma NextFlag(next: map<int, int>, prev: map<int, int>, used: map<int, bool>, bs: seq<Block>, j: nat)
    requires Ring(next, prev, Addrs(bs)) && Flagged(used, bs) && j + 1 < |bs|
    ensures bs[j].addr in next && next[bs[j].addr] == bs[j + 1].addr
    ensures bs[j + 1].addr in used && used[bs[j + 1].addr] == bs[j + 1].used
  {
    LinksAt(next, prev, Addrs(bs), j);
  }

  /** The intermediate sequences of a free. */
  lemma FreeSteps(bs: seq<Block>, i: nat) returns (l: seq<Block>, j: nat)
    requires i + 1 < |bs| && bs[i].used && bs[|bs| - 1].used
    ensures |Mark(bs, i, false)| == |bs| && Mark(bs, i, false)[i].addr == bs[i].addr
    ensures Mark(bs, i, false)[|bs| - 1].used
    ensures i > 0 ==> Mark(bs, i, false)[i - 1] == bs[i - 1]
    ensures l == MergeLeft(Mark(bs, i, false), i)
    ensures j == if i > 0 && !bs[i - 1].used then i - 1 else i
    ensures j + 1 < |l| && l[j + 1] == bs[i + 1] && l[j].addr == bs[j].addr
    ensures MergeRight(l, j) == Release(bs, i)
  {
    l := MergeLeft(Mark(bs, i, false), i);
    j := if i > 0 && !bs[i - 1].used then i - 1 else i;
    ReleaseLeftFirst(bs, i);
    hide MergeRight, MergeLeft, Release;
  }

  /** What each step of a free needs to know about the free list. */
  lemma FreeListSteps(h: Spec.Heap, i: nat)
    requires Spec.WF(h) && i + 1 < |h.blocks| && h.blocks[i].used
    ensures !h.blocks[i + 1].used ==> h.blocks[i + 1].addr in h.free
    ensures h.blocks[i].addr !in h.free && h.blocks[i].addr >= 0
    ensures forall x :: x in Without(h.free, h.blocks[i + 1].addr) ==> x in h.free
  {
    hide Spec.WF, Members, Without;
    WFList(h);
    Laws.LayoutFacts(h.blocks, h.pool - HDR, i);
    WithoutSubset(h.free, h.blocks[i + 1].addr);
    FreeListSays(h, h.blocks[i].addr);
    FreeListSays(h, h.blocks[i + 1].addr);
  }

  lemma FreeListSays(h: Spec.Heap, a: int)
    requires Spec.WF(h)
    ensures a in h.free <==> Block(a, false) in Members(h.blocks)
  {
  }

  lemma WithoutSubset(s: seq<int>, n: int)
    ensures forall x :: x in Without(s, n) ==> x in s
  {
  }

  lemma FreeFacts(h: Spec.Heap, i: nat)
    requires Spec.WF(h) && i + 1 < |h.blocks|
    ensures Spaced(h.blocks, HDR) && h.blocks[|h.blocks| - 1].used
    ensures AllOff(h.pool, h.blocks, HDR, LiveBytes(h.blocks, HDR, h.pool))
    ensures ListOff(h.pool, h.free, LiveBytes(h.blocks, HDR, h.pool))
    ensures FREE_LIST !in h.free && Distinct(h.free)
    ensures forall k :: k in LiveBytes(h.blocks, HDR, h.pool) ==> 0 <= k < h.pool
  {
    HeadersOff(h);
    WFList(h);
    Laws.LayoutFacts(h.blocks, h.pool - HDR, i);
  }

  lemma AbsorbShape(bs: seq<Block>, i: nat)
    requires i + 2 < |bs|
    ensures |Absorb(bs, i)| == |bs| - 1
    ensures Absorb(bs, i)[|bs| - 2] == bs[|bs| - 1] && Absorb(bs, i)[i] == bs[i]
  {
  }

  lemma GrowFacts(h: Spec.Heap, i: nat, req: nat)
    requires Spec.WF(h) && i + 1 < |h.blocks| && h.blocks[i].used
    requires req > Payload(h.blocks, i, HDR) && Spec.CanGrow(h, i, req) && req + Spec.MINIALLOC < Spec.WORD
    ensures var a := h.blocks[i].addr + HDR + req;
            && Writable(h.pool, a, HDR, LiveBytes(h.blocks, HDR, h.pool))
            && a > 0 && a !in h.free && a !in Addrs(Absorb(h.blocks, i))
    ensures UnusedAfter(h, i)
  {
    hide Spec.WF, Writable, Members;
    var a := h.blocks[i].addr + HDR + req;
    WFList(h);
    PoolTiled(h);
    GapOff(h.blocks, HDR, h.pool, i + 1, a);
    FreshEntry(h, i + 1, a);
    AbsorbAddrs(h.blocks, i);
  }

  predicate UnusedAfter(h: Spec.Heap, i: nat) {
    i + 2 < |h.blocks| && !h.blocks[i + 1].used
  }

  lemma AbsorbAddrs(bs: seq<Block>, i: nat)
    requires i + 1 < |bs|
    ensures forall a :: a in Addrs(Absorb(bs, i)) ==> a in Addrs(bs)
  {
    AddrsOf(bs);
  }

  lemma FlagGrow(used: map<int, bool>, bs: seq<Block>, i: nat, a: int)
    requires Flagged(used, bs) && i + 1 < |bs| && a !in Addrs(Absorb(bs, i))
    ensures Flagged(used[a := false], Split(Absorb(bs, i), i, a, false))
  {
    hide Flagged;
    FlagAbsorb(used, bs, i);
    FlagSplit(used, Absorb(bs, i), i, a, false);
  }

  lemma SecondPlace(free: seq<int>, a: int)
    ensures InsertAt([FREE_LIST] + free, 1, a) == [FREE_LIST] + ([a] + free)
  {
  }

  lemma RestAfter(free: seq<int>, k: nat)
    requires k < |free|
    ensures RemoveAt([FREE_LIST] + free, k + 1) == [FREE_LIST] + RemoveAt(free, k)
  {
  }

  lemma CutOff(h: Spec.Heap, i: nat, cut: int)
    requires Spec.WF(h) && i + 1 < |h.blocks| && h.blocks[i].used
    requires h.blocks[i].addr + HDR <= cut && cut + HDR <= h.blocks[i + 1].addr
    ensures var keep := KeptBytes(h.blocks, HDR, h.pool, cut, h.blocks[i + 1].addr);
            && AllOff(h.pool, h.blocks, HDR, keep) && ListOff(h.pool, h.free, keep) && Writable(h.pool, cut, HDR, keep)
            && (forall k :: k in keep ==> 0 <= k < h.pool)
  {
    FreeFacts(h, i);
    Laws.LayoutFacts(h.blocks, h.pool - HDR, i);
    hide Spec.WF, LiveBytes;
  }

  lemma FlagCut(used: map<int, bool>, h: Spec.Heap, i: nat, cut: int)
    requires Spec.WF(h) && i + 1 < |h.blocks| && Flagged(used, h.blocks)
    requires h.blocks[i].addr + HDR <= cut && cut + HDR <= h.blocks[i + 1].addr
    ensures Flagged(used[cut := false], Split(h.blocks, i, cut, false))
    ensures cut > 0 && cut !in h.free && cut !in Addrs(h.blocks)
  {
    hide Spec.WF, Flagged, Addrs;
    WFList(h);
    FreshEntry(h, i, cut);
    FlagSplit(used, h.blocks, i, cut, false);
  }

  lemma CutSteps(bs: seq<Block>, i: nat, cut: int)
    requires i + 1 < |bs| && bs[i].used && bs[|bs| - 1].used
    ensures var s := Split(bs, i, cut, false);
            && |s| == |bs| + 1 && s[i + 1] == Block(cut, false) && s[i + 2] == bs[i + 1] && s[|s| - 1].used
            && (i + 2 < |bs| ==> s[i + 3] == bs[i + 2])
            && Release(Split(bs, i, cut, true), i + 1) == MergeRight(s, i + 1)
            && |MergeRight(s, i + 1)| > i + 2 && MergeRight(s, i + 1)[i + 1] == Block(cut, false)
            && MergeRight(s, i + 1)[i + 2] == if bs[i + 1].used then bs[i + 1] else s[i + 3]
  {
    assert Mark(Split(bs, i, cut, true), i + 1, false) == Split(bs, i, cut, false);
  }

  /** Where a moving realloc copies to: space no live block used before. */
  lemma TargetFresh(h: Spec.Heap, size: nat)
    requires Spec.WF(h) && Spec.Alloc(h, size).1 != NULL
    ensures var (h1, q) := Spec.Alloc(h, size);
            && HDR <= q && q + Spec.Request(size) <= h.pool
            && (forall k :: q <= k < q + Spec.Request(size) ==>
                  k !in LiveBytes(h.blocks, HDR, h.pool) && k in LiveBytes(h1.blocks, HDR, h.pool))
  {
    hide Spec.WF, Spec.Alloc, LiveBytes, Payload, Spec.Live, Tiled;
    var h1, q, req := Spec.Alloc(h, size).0, Spec.Alloc(h, size).1, Spec.Request(size);
    var i := Laws.AllocCarves(h, size);
    var j := Laws.AllocGives(h, size);
    PoolTiled(h);
    PoolTiled(h1);
    PayloadFresh(h.blocks, HDR, h.pool, i, q, req);
    PayloadLive(h1.blocks, HDR, h1.pool, j, q, req);
  }

  /** Live bytes stay live across an allocation. */
  lemma AllocKeepsLive(h: Spec.Heap, size: nat)
    requires Spec.WF(h)
    ensures forall k :: k in LiveBytes(h.blocks, HDR, h.pool) ==> k in LiveBytes(Spec.Alloc(h, size).0.blocks, HDR, h.pool)
  {
    if Spec.Alloc(h, size).1 != NULL {
      hide Spec.WF, Spec.Alloc;
      var i := Laws.AllocCarves(h, size);
      TakenKeepsLive(h.blocks, HDR, h.pool, i, Laws.Carved(h.blocks, i, Spec.Request(size)),
                     h.blocks[i].addr + HDR + Spec.Request(size));
    } else {
      hide Spec.WF, Spec.Alloc;
      Laws.AllocSucceedsIff(h, size);
    }
  }

  lemma RequestAgain(n: nat)
    requires n < Spec.WORD
    ensures Spec.Request(n) < Spec.WORD && Spec.Request(Spec.Request(n)) == Spec.Request(n)
  {
  }

  lemma ReallocFacts(h: Spec.Heap, i: nat)
    requires Spec.WF(h) && i + 1 < |h.blocks|
    ensures 0 <= h.blocks[i].addr && h.blocks[i].addr + HDR <= h.blocks[i + 1].addr <= h.pool
    ensures !h.blocks[i + 1].used ==> i + 2 < |h.blocks|
  {
    Laws.LayoutFacts(h.blocks, h.pool - HDR, i);
  }

  lemma NullNotLive(h: Spec.Heap)
    requires Spec.WF(h)
    ensures Spec.Live(h, NULL) + 1 >= |h.blocks|
  {
    var i := Spec.Live(h, NULL);
    if i + 1 < |h.blocks| {
      Laws.BlockInPool(h, i);
    }
  }

  lemma AllocSame(h: Spec.Heap, a: nat, b: nat)
    requires Spec.Request(a) == Spec.Request(b)
    ensures Spec.Alloc(h, a) == Spec.Alloc(h, b)
  {
  }

  lemma InitialView(size: nat)
    requires size / Spec.ALIGN * Spec.ALIGN >= 2 * HDR && size < Spec.WORD
    ensures var pool := size / Spec.ALIGN * Spec.ALIGN;
            Spec.Init(size) == Spec.Heap(pool, [Block(0, false), Block(pool - HDR, true)], [0], pool - 2 * HDR, pool - (pool - 2 * HDR))
  {
  }

  lemma InitialLinks(next: map<int, int>, prev: map<int, int>, nextFree: map<int, int>, prevFree: map<int, int>, used: map<int, bool>, tail: int)
    requires tail > 0 && used == map[0 := false, tail := true]
    requires next == map[0 := tail, tail := 0] && prev == map[0 := tail, tail := 0]
    requires nextFree == map[0 := FREE_LIST, FREE_LIST := 0, tail := NULL]
    requires prevFree == map[0 := FREE_LIST, FREE_LIST := 0, tail := NULL]
    ensures Ring(next, prev, Addrs([Block(0, false), Block(tail, true)])) && Ring(nextFree, prevFree, [FREE_LIST] + [0])
    ensures Flagged(used, [Block(0, false), Block(tail, true)])
  {
    assert Addrs([Block(0, false), Block(tail, true)]) == [0, tail];
  }

  class Heap {
    const poolSize: int
    var available: int
    var maxUsed: int
    var used: map<int, bool>
    var next: map<int, int>
    var prev: map<int, int>
    var nextFree: map<int, int>
    var prevFree: map<int, int>
    const bytes: array<bv8>
    ghost var blocks: seq<Block>
    ghost var free: seq<int>

    ghost function View(): Spec.Heap
      reads this
    {
      Spec.Heap(poolSize, blocks, free, available, maxUsed)
    }

    ghost predicate BlockLinks()
      reads this`next, this`prev, this`blocks
    {
      Ring(next, prev, Addrs(blocks))
    }

    ghost predicate FreeLinks()
      reads this`nextFree, this`prevFree, this`free
    {
      Ring(nextFree, prevFree, [FREE_LIST] + free)
    }

    ghost predicate Valid()
      reads this
    {
      Spec.WF(View()) && BlockLinks() && FreeLinks() && Flagged(used, blocks) && bytes.Length == poolSize
    }

    /** rt_memheap_init: one free block and the used tailer that stops merging at the end. */
    constructor (size: nat)
      requires size / Spec.ALIGN * Spec.ALIGN >= 2 * HDR && size < Spec.WORD
      ensures Valid() && View() == Spec.Init(size) && fresh(bytes)
    {
      hide Spec.WF, Ring, Flagged, Spec.Init;
      var pool := size / Spec.ALIGN * Spec.ALIGN;
      var tail := pool - HDR;
      poolSize := pool;
      available := pool - 2 * HDR;
      maxUsed := pool - (pool - 2 * HDR);
      used := map[0 := false, tail := true];
      next := map[0 := tail, tail := 0];
      prev := map[0 := tail, tail := 0];
      nextFree := map[0 := FREE_LIST, FREE_LIST := 0, tail := NULL];
      prevFree := map[0 := FREE_LIST, FREE_LIST := 0, tail := NULL];
      bytes := new bv8[pool];
      blocks := [Block(0, false), Block(tail, true)];
      free := [0];
      new;
      Laws.InitWF(size);
      InitialView(size);
      InitialLinks(next, prev, nextFree, prevFree, used, tail);
    }

    // ----- header stores

    method SetNext(a: int, v: int, ghost keep: set<int>)
      requires Writable(bytes.Length, a, HDR, keep)
      modifies this`next, bytes
      ensures next == old(next)[a := v]
      ensures forall k :: k in keep && 0 <= k < bytes.Length ==> bytes[k] == old(bytes[k])
    {
      next := next[a := v];
      Touch(bytes, a, HDR, keep);
    }

    method SetPrev(a: int, v: int, ghost keep: set<int>)
      requires Writable(bytes.Length, a, HDR, keep)
      modifies this`prev, bytes
      ensures prev == old(prev)[a := v]
      ensures forall k :: k in keep && 0 <= k < bytes.Length ==> bytes[k] == old(bytes[k])
    {
      prev := prev[a := v];
      Touch(bytes, a, HDR, keep);
    }

    method SetNextFree(a: int, v: int, ghost keep: set<int>)
      requires Writable(bytes.Length, a, HDR, keep)
      modifies this`nextFree, bytes
      ensures nextFree == old(nextFree)[a := v]
      ensures forall k :: k in keep && 0 <= k < bytes.Length ==> bytes[k] == old(bytes[k])
    {
      nextFree := nextFree[a := v];
      Touch(bytes, a, HDR, keep);
    }

    method SetPrevFree(a: int, v: int, ghost keep: set<int>)
      requires Writable(bytes.Length, a, HDR, keep)
      modifies this`prevFree, bytes
      ensures prevFree == old(prevFree)[a := v]
      ensures forall k :: k in keep && 0 <= k < bytes.Length ==> bytes[k] == old(bytes[k])
    {
      prevFree := prevFree[a := v];
      Touch(bytes, a, HDR, keep);
    }

    method SetUsed(a: int, v: bool, ghost keep: set<int>)
      requires Writable(bytes.Length, a, HDR, keep)
      modifies this`used, bytes
      ensures used == old(used)[a := v]
      ensures forall k :: k in keep && 0 <= k < bytes.Length ==> bytes[k] == old(bytes[k])
    {
      used := used[a := v];
      Touch(bytes, a, HDR, keep);
    }

    // ----- list surgery

    /** Puts header `n` behind the header `a` of block i in the address-ordered list. */
    method LinkBlock(a: int, n: int, ghost i: nat, ghost flag: bool, ghost keep: set<int>)
      requires BlockLinks() && i < |blocks| && blocks[i].addr == a && n !in Addrs(blocks)
      requires AllOff(bytes.Length, blocks, HDR, keep) && Writable(bytes.Length, n, HDR, keep)
      modifies this`next, this`prev, this`blocks, bytes
      ensures BlockLinks() && blocks == Split(old(blocks), i, n, flag)
      ensures forall k :: k in keep && 0 <= k < bytes.Length ==> bytes[k] == old(bytes[k])
    {
      hide Ring, Split, Addrs, Writable, AllOff;
      ghost var s := Addrs(blocks);
      OffAt(bytes.Length, blocks, HDR, keep, i);
      LinksAt(next, prev, s, i);
      SetPrev(n, a, keep);
      SetNext(n, next[a], keep);
      SetPrev(next[a], n, keep);
      SetNext(a, n, keep);
      assert prev == old(prev)[Succ(s, i) := n][n := s[i]];
      RingInsert(old(next), old(prev), next, prev, s, i, n);
      AddrsOf(blocks);
      blocks := Split(blocks, i, n, flag);
    }

    /** Takes header `n` of block i + 1 out of the address-ordered list; block i absorbs it. */
    method UnlinkBlock(n: int, ghost i: nat, ghost keep: set<int>)
      requires BlockLinks() && i + 1 < |blocks| && blocks[i + 1].addr == n
      requires AllOff(bytes.Length, blocks, HDR, keep)
      modifies this`next, this`prev, this`blocks, bytes
      ensures BlockLinks() && blocks == Absorb(old(blocks), i)
      ensures forall k :: k in keep && 0 <= k < bytes.Length ==> bytes[k] == old(bytes[k])
    {
      hide Ring, Absorb, Addrs, Writable, AllOff;
      ghost var s := Addrs(blocks);
      OffAt(bytes.Length, blocks, HDR, keep, i);
      OffAt(bytes.Length, blocks, HDR, keep, i + 1);
      LinksAt(next, prev, s, i + 1);
      SetPrev(next[n], prev[n], keep);
      SetNext(prev[n], next[n], keep);
      RingRemove(old(next), old(prev), next, prev, s, i + 1);
      AddrsOf(blocks);
      blocks := Absorb(blocks, i);
    }

    /** Puts header `a` at the front of the free list. */
    method LinkFree(a: int, ghost keep: set<int>)
      requires FreeLinks() && a != FREE_LIST && a !in free
      requires Writable(bytes.Length, a, HDR, keep)
      requires ListOff(bytes.Length, free, keep)
      modifies this`nextFree, this`prevFree, this`free, bytes
      ensures FreeLinks() && free == [a] + old(free)
      ensures forall k :: k in keep && 0 <= k < bytes.Length ==> bytes[k] == old(bytes[k])
    {
      hide Ring, ListOff, InsertAt, RemoveAt;
      ghost var s := [FREE_LIST] + free;
      LinksAt(nextFree, prevFree, s, 0);
      if free != [] { ListOffAt(bytes.Length, free, keep, 0); }
      SetNextFree(a, nextFree[FREE_LIST], keep);
      SetPrevFree(a, FREE_LIST, keep);
      SetPrevFree(nextFree[FREE_LIST], a, keep);
      SetNextFree(FREE_LIST, a, keep);
      assert prevFree == old(prevFree)[Succ(s, 0) := a][a := s[0]];
      RingInsert(old(nextFree), old(prevFree), nextFree, prevFree, s, 0, a);
      SecondPlace(free, a);
      free := [a] + free;
    }

    /** Takes entry k, the header `a`, out of the free list. */
    method UnlinkFree(a: int, ghost k: nat, ghost keep: set<int>)
      requires FreeLinks() && k < |free| && free[k] == a
      requires ListOff(bytes.Length, free, keep)
      modifies this`nextFree, this`prevFree, this`free, bytes
      ensures FreeLinks() && free == RemoveAt(old(free), k) && ListOff(bytes.Length, free, keep)
      ensures forall k :: k in keep && 0 <= k < bytes.Length ==> bytes[k] == old(bytes[k])
    {
      hide Ring, ListOff, InsertAt, RemoveAt;
      ghost var s := [FREE_LIST] + free;
      LinksAt(nextFree, prevFree, s, k + 1);
      ListOffAt(bytes.Length, free, keep, k);
      SetPrevFree(nextFree[a], prevFree[a], keep);
      SetNextFree(prevFree[a], nextFree[a], keep);
      RingRemove(old(nextFree), old(prevFree), nextFree, prevFree, s, k + 1);
      RestAfter(free, k);
      free := RemoveAt(free, k);
    }

    /** The search loop of rt_memheap_alloc. */
    method FirstFit(req: nat) returns (header: int, freeSize: int, ghost k: nat)
      requires Valid() && req > 0
      ensures k == Spec.FirstFit(blocks, free, req)
      ensures k < |free| ==> header == free[k] && freeSize == Spec.SizeAt(blocks, free[k]) && freeSize >= req
      ensures k == |free| ==> freeSize < req
    {
      hide Spec.WF, Ring, Spec.SizeAt, Spec.FirstFit, Writable;
      freeSize := 0;
      k := 0;
      HeadersOff(View());
      LinksAt(nextFree, prevFree, [FREE_LIST] + free, 0);
      header := nextFree[FREE_LIST];
      while header != FREE_LIST && freeSize < req
        invariant k <= |free|
        invariant header == if k == |free| then FREE_LIST else free[k]
        invariant freeSize >= req ==> k < |free| && freeSize == Spec.SizeAt(blocks, free[k])
        invariant forall i :: 0 <= i < k ==> Spec.SizeAt(blocks, free[i]) < req
        decreases |free| - k, if freeSize < req then 1 else 0
      {
        HeaderSize(View(), next, prev, k);
        freeSize := next[header] - header - HDR;
        if freeSize < req {
          NextFree(nextFree, prevFree, free, k);
          header := nextFree[header];
          k := k + 1;
        }
      }
    }

    /** Takes entry k out of the free list and clears its free links. */
    method DetachFree(a: int, ghost k: nat, ghost keep: set<int>)
      requires FreeLinks() && k < |free| && free[k] == a && Distinct(free) && FREE_LIST !in free
      requires ListOff(bytes.Length, free, keep)
      modifies this`nextFree, this`prevFree, this`free, bytes
      ensures FreeLinks() && free == RemoveAt(old(free), k) && ListOff(bytes.Length, free, keep)
      ensures forall k :: k in keep && 0 <= k < bytes.Length ==> bytes[k] == old(bytes[k])
    {
      hide Ring, Writable, ListOff;
      NotInTail(free, k);
      ListOffAt(bytes.Length, free, keep, k);
      UnlinkFree(a, k, keep);
      ghost var n, p := nextFree, prevFree;
      SetNextFree(a, NULL, keep);
      SetPrevFree(a, NULL, keep);
      RingLinks(n, p, [FREE_LIST] + free);
      RingFrame(n, p, nextFree, prevFree, [FREE_LIST] + free);
    }

    /** Cuts free block i, free-list entry k, at `rest`: the rest takes its place at the front of the
        free list. */
    method SplitOff(header: int, rest: int, ghost i: nat, ghost k: nat, ghost keep: set<int>)
      requires BlockLinks() && FreeLinks() && i + 1 < |blocks| && blocks[i].addr == header
      requires k < |free| && free[k] == header && Distinct(free) && FREE_LIST !in free
      requires rest !in free && rest !in Addrs(blocks) && rest != FREE_LIST
      requires AllOff(bytes.Length, blocks, HDR, keep)
      requires ListOff(bytes.Length, free, keep)
      requires Writable(bytes.Length, rest, HDR, keep)
      modifies this`used, this`next, this`prev, this`nextFree, this`prevFree, this`blocks, this`free, bytes
      ensures BlockLinks() && FreeLinks()
      ensures used == old(used)[rest := false] && blocks == Split(old(blocks), i, rest, false)
      ensures free == [rest] + RemoveAt(old(free), k)
      ensures forall k :: k in keep && 0 <= k < bytes.Length ==> bytes[k] == old(bytes[k])
    {
      hide Ring, Writable, Split, Distinct, AllOff, ListOff;
      DistinctAfterRemove(free, k);
      SetUsed(rest, false, keep);
      LinkBlock(header, rest, i, false, keep);
      DetachFree(header, k, keep);
      LinkFree(rest, keep);
    }

    /** Hands out free-list entry k: splits the block when a usable rest remains. */
    method Carve(header: int, freeSize: int, req: nat, ghost k: nat)
      requires Valid() && k < |free| && header == free[k] && req % Spec.ALIGN == 0
      requires freeSize == Spec.SizeAt(blocks, header) && freeSize >= req
      modifies this, bytes
      ensures Valid()
      ensures At(old(blocks), header) + 1 < |old(blocks)|
      ensures View() == Spec.Carve(old(View()), k, req)
      ensures forall k :: k in old(LiveBytes(blocks, HDR, poolSize)) ==> bytes[k] == old(bytes[k])
    {
      hide Spec.WF, Tiled, Ring, Spec.SizeAt, At, Writable, LiveBytes, AllOff, ListOff, Flagged, Split, Mark, Distinct, Spaced;
      ghost var h, bs, keep := View(), blocks, LiveBytes(blocks, HDR, poolSize);
      ghost var i := CarveFacts(h, k, req);
      Laws.CarveWF(h, k, req);
      LiveBound(bs, HDR, poolSize);
      if freeSize >= req + HDR + Spec.MINIALLOC {
        var rest := header + req + HDR;
        GapOff(bs, HDR, poolSize, i, rest);
        FreshEntry(h, i, rest);
        FlagCarve(used, bs, i, rest);
        SplitOff(header, rest, i, k, keep);
        Account(req + HDR);
      } else {
        FlagMark(used, bs, HDR, i, true);
        AddrsOf(bs);
        Account(freeSize);
        DetachFree(header, k, keep);
      }
      SetUsed(header, true, keep);
      blocks := Mark(blocks, i, true);
    }

    /** Takes n bytes out of the available ones and keeps the high-water mark. */
    method Account(n: int)
      modifies this`available, this`maxUsed
      ensures available == old(available) - n
      ensures maxUsed == if poolSize - available > old(maxUsed) then poolSize - available else old(maxUsed)
    {
      available := available - n;
      if poolSize - available > maxUsed { maxUsed := poolSize - available; }
    }

    /** rt_memheap_alloc. */
    method Alloc(size: nat) returns (p: int)
      requires Valid() && size < Spec.WORD
      modifies this, bytes
      ensures Valid()
      ensures View() == Spec.Alloc(old(View()), size).0 && p == Spec.Alloc(old(View()), size).1
      ensures forall k :: k in old(LiveBytes(blocks, HDR, poolSize)) ==> bytes[k] == old(bytes[k])
    {
      LiveBound(blocks, HDR, poolSize);
      hide Spec.WF, Ring, Spec.SizeAt, At, LiveBytes, Flagged, Spec.Carve;
      p := NULL;
      var req := Spec.Request(size);
      if req < available {
        var header, freeSize, k := FirstFit(req);
        if freeSize >= req {
          Carve(header, freeSize, req, k);
          p := header + HDR;
        }
      }
    }

    ghost predicate Structure(keep: set<int>)
      reads this
    {
      BlockLinks() && Flagged(used, blocks) && AllOff(bytes.Length, blocks, HDR, keep) && |blocks| >= 2
      && blocks[|blocks| - 1].used
    }

    /** Lets the left neighbour absorb block i when it is free. */
    method MergeWithPrev(header: int, ghost i: nat, ghost keep: set<int>)
      returns (left: int, merged: bool, ghost j: nat)
      requires Structure(keep) && i + 1 < |blocks| && blocks[i].addr == header
      modifies this`next, this`prev, this`blocks, this`available, bytes
      ensures Structure(keep) && blocks == MergeLeft(old(blocks), i)
      ensures merged == (i > 0 && !old(blocks)[i - 1].used) && j == (if merged then i - 1 else i)
      ensures j < |blocks| && left == old(blocks)[j].addr
      ensures available == old(available) + (if merged then HDR else 0)
      ensures forall k :: k in keep && 0 <= k < bytes.Length ==> bytes[k] == old(bytes[k])
    {
      hide Ring, AllOff, Flagged, Addrs, Absorb, RemoveAt;
      PrevFlag(next, prev, used, blocks, i);
      left, merged, j := header, false, i;
      if !used[prev[header]] {
        available := available + HDR;
        OffAfter(bytes.Length, blocks, HDR, keep);
        FlagAbsorb(used, blocks, i - 1);
        AbsorbShape(blocks, i - 1);
        left := prev[header];
        UnlinkBlock(header, i - 1, keep);
        merged, j := true, i - 1;
      }
    }

    /** Lets block j absorb its right neighbour when that is free; the neighbour leaves the free list. */
    method MergeWithNext(header: int, ghost j: nat, ghost keep: set<int>) returns (merged: bool)
      requires Structure(keep) && FreeLinks() && j + 1 < |blocks| && blocks[j].addr == header
      requires Distinct(free) && FREE_LIST !in free && ListOff(bytes.Length, free, keep)
      requires !blocks[j + 1].used ==> blocks[j + 1].addr in free
      modifies this`next, this`prev, this`blocks, this`nextFree, this`prevFree, this`free, bytes
      ensures Structure(keep) && FreeLinks() && blocks == MergeRight(old(blocks), j)
      ensures ListOff(bytes.Length, free, keep) && merged == !old(blocks)[j + 1].used
      ensures free == if merged then Without(old(free), old(blocks)[j + 1].addr) else old(free)
      ensures forall k :: k in keep && 0 <= k < bytes.Length ==> bytes[k] == old(bytes[k])
    {
      hide Ring, AllOff, ListOff, Flagged, Addrs, Writable, Distinct, Absorb;
      NextFlag(next, prev, used, blocks, j);
      merged := !used[next[header]];
      if merged {
        var n := next[header];
        OffAfter(bytes.Length, blocks, HDR, keep);
        FlagAbsorb(used, blocks, j);
        AbsorbShape(blocks, j);
        UnlinkBlock(n, j, keep);
        UnlinkFree(n, IndexOf(free, n), keep);
      }
    }

    /** Clears the used bit of block i and counts its payload as available. */
    method MarkFreed(header: int, ghost i: nat, ghost keep: set<int>)
      requires BlockLinks() && Flagged(used, blocks) && AllOff(bytes.Length, blocks, HDR, keep)
      requires Spaced(blocks, HDR) && i + 1 < |blocks| && blocks[i].addr == header
      requires blocks[|blocks| - 1].used
      modifies this`used, this`blocks, this`available, bytes
      ensures Structure(keep) && blocks == Mark(old(blocks), i, false)
      ensures available == old(available) + Payload(old(blocks), i, HDR)
      ensures forall k :: k in keep && 0 <= k < bytes.Length ==> bytes[k] == old(bytes[k])
    {
      hide Ring, AllOff, Flagged, Addrs, Writable, Spaced;
      NextFlag(next, prev, used, blocks, i);
      FlagMark(used, blocks, HDR, i, false);
      AddrsOf(blocks);
      OffAfter(bytes.Length, blocks, HDR, keep);
      OffAt(bytes.Length, blocks, HDR, keep, i);
      SetUsed(header, false, keep);
      blocks := Mark(blocks, i, false);
      available := available + (next[header] - header - HDR);
    }

    /** Marks block i free and merges it with its free neighbours; its own place in the free list is
        still open. */
    method Merge(header: int, ghost i: nat, ghost keep: set<int>) returns (left: int, merged: bool)
      requires Structure(keep) && FreeLinks() && Spaced(blocks, HDR)
      requires i + 1 < |blocks| && blocks[i] == Block(header, true)
      requires Distinct(free) && FREE_LIST !in free && ListOff(bytes.Length, free, keep)
      requires !blocks[i + 1].used ==> blocks[i + 1].addr in free
      modifies this`used, this`next, this`prev, this`blocks, this`nextFree, this`prevFree, this`free,
               this`available, bytes
      ensures Structure(keep) && FreeLinks() && ListOff(bytes.Length, free, keep)
      ensures blocks == Release(old(blocks), i)
      ensures merged == (i > 0 && !old(blocks)[i - 1].used) && (!merged ==> left == header)
      ensures free == if old(blocks)[i + 1].used then old(free) else Without(old(free), old(blocks)[i + 1].addr)
      ensures available == old(available) + Payload(old(blocks), i, HDR)
                + (if merged then HDR else 0) + (if !old(blocks)[i + 1].used then HDR else 0)
      ensures forall k :: k in keep && 0 <= k < bytes.Length ==> bytes[k] == old(bytes[k])
    {
      hide Ring, Writable, AllOff, ListOff, Flagged, Mark, MergeLeft, MergeRight, Release,
           Distinct, Spaced, Addrs, Without, Payload;
      ghost var l, j' := FreeSteps(blocks, i);
      MarkFreed(header, i, keep);
      ghost var j;
      left, merged, j := MergeWithPrev(header, i, keep);
      var right := MergeWithNext(left, j, keep);
      if right { available := available + HDR; }
    }

    /** Frees block i, whose header is `header`. */
    method FreeBlock(header: int, ghost i: nat)
      requires Valid() && i + 1 < |blocks| && blocks[i] == Block(header, true)
      modifies this, bytes
      ensures Valid() && View() == Spec.Free(old(View()), i)
      ensures forall k :: k in old(LiveBytes(blocks, HDR, poolSize)) ==> bytes[k] == old(bytes[k])
    {
      hide Spec.WF, Ring, LiveBytes, Writable, AllOff, ListOff, Flagged, Release,
           Distinct, Spaced, Addrs, Without, Payload, At, Members, Succ, Mark, OffHeader, Coalesce, MergeLeft, MergeRight,
           InsertAt, RemoveAt, IndexOf;
      ghost var h, keep := View(), LiveBytes(blocks, HDR, poolSize);
      FreeFacts(h, i);
      FreeListSteps(h, i);
      Laws.FreeWF(h, i);
      OffAt(bytes.Length, blocks, HDR, keep, i);
      var left, merged := Merge(header, i, keep);
      if !merged {
        LinkFree(left, keep);
      }
    }

    /** rt_memheap_free. */
    method Free(p: int)
      requires Valid()
      requires p != NULL ==> Spec.Live(View(), p) + 1 < |blocks|
      modifies this, bytes
      ensures Valid()
      ensures p == NULL ==> View() == old(View())
      ensures p != NULL ==> View() == Spec.Free(old(View()), Spec.Live(old(View()), p))
      ensures forall k :: k in old(LiveBytes(blocks, HDR, poolSize)) ==> bytes[k] == old(bytes[k])
    {
      hide Spec.WF, Ring, Flagged, Spec.Live, Spec.Free;
      LiveBound(blocks, HDR, poolSize);
      hide LiveBytes;
      if p != NULL {
        FreeBlock(p - HDR, Spec.Live(View(), p));
      }
    }

    // ----- realloc

    /** Replaces the header `n` of free block i + 1 by one at `moved`, at the front of the free list. */
    method MoveHeader(header: int, n: int, moved: int, ghost i: nat, ghost keep: set<int>)
      requires BlockLinks() && FreeLinks() && i + 2 < |blocks| && AllOff(bytes.Length, blocks, HDR, keep)
      requires blocks[i].addr == header && blocks[i + 1].addr == n && n in free
      requires ListOff(bytes.Length, free, keep) && Writable(bytes.Length, moved, HDR, keep)
      requires moved != FREE_LIST && moved !in Without(free, n) && moved !in Addrs(Absorb(blocks, i))
      modifies this`used, this`next, this`prev, this`nextFree, this`prevFree, this`blocks, this`free, bytes
      ensures BlockLinks() && FreeLinks() && used == old(used)[moved := false]
      ensures blocks == Split(Absorb(old(blocks), i), i, moved, false)
      ensures free == [moved] + Without(old(free), n)
      ensures forall k :: k in keep && 0 <= k < bytes.Length ==> bytes[k] == old(bytes[k])
    {
      hide Ring, Writable, AllOff, ListOff, Addrs, Split, Absorb;
      OffAfter(bytes.Length, blocks, HDR, keep);
      AbsorbShape(blocks, i);
      ListOffAt(bytes.Length, free, keep, IndexOf(free, n));
      UnlinkFree(n, IndexOf(free, n), keep);
      UnlinkBlock(n, i, keep);
      SetUsed(moved, false, keep);
      LinkBlock(header, moved, i, false, keep);
      LinkFree(moved, keep);
    }

    /** In-place growth: the header of free block i + 1 moves up. */
    method GrowBlock(header: int, req: nat, ghost i: nat)
      requires Valid() && i + 1 < |blocks| && blocks[i] == Block(header, true)
      requires req > Payload(blocks, i, HDR) && Spec.CanGrow(View(), i, req) && req % Spec.ALIGN == 0
      requires req + Spec.MINIALLOC < Spec.WORD
      modifies this, bytes
      ensures Valid() && View() == Spec.Grow(old(View()), i, req)
      ensures forall k :: k in old(LiveBytes(blocks, HDR, poolSize)) ==> bytes[k] == old(bytes[k])
    {
      hide Spec.WF, Ring, LiveBytes, Writable, AllOff, ListOff, Flagged, Distinct, Spaced, Addrs, Without,
           Split, Absorb;
      ghost var h, keep := View(), LiveBytes(blocks, HDR, poolSize);
      FreeFacts(h, i);
      FreeListSteps(h, i);
      Laws.GrowWF(h, i, req);
      GrowFacts(h, i, req);
      FlagGrow(used, blocks, i, header + HDR + req);
      NextFlag(next, prev, used, blocks, i);
      var n := next[header];
      available := available - (req - (n - header - HDR));
      if poolSize - available > maxUsed { maxUsed := poolSize - available; }
      MoveHeader(header, n, header + HDR + req, i, keep);
    }

    /** Puts a free header at `cut` inside block i and merges it with a free right neighbour; it is not
        yet on the free list. */
    method CutBlock(header: int, cut: int, ghost i: nat, ghost keep: set<int>)
      requires BlockLinks() && FreeLinks() && Flagged(used, blocks) && i + 1 < |blocks|
      requires blocks[i] == Block(header, true) && blocks[|blocks| - 1].used
      requires AllOff(bytes.Length, blocks, HDR, keep) && ListOff(bytes.Length, free, keep)
      requires Writable(bytes.Length, cut, HDR, keep) && Distinct(free) && FREE_LIST !in free
      requires cut !in Addrs(blocks) && Flagged(used[cut := false], Split(blocks, i, cut, false))
      requires !blocks[i + 1].used ==> i + 2 < |blocks| && blocks[i + 1].addr in free
      modifies this`used, this`next, this`prev, this`nextFree, this`prevFree, this`blocks, this`free,
               this`available, bytes
      ensures BlockLinks() && FreeLinks() && Flagged(used, blocks)
      ensures blocks == MergeRight(Split(old(blocks), i, cut, false), i + 1)
      ensures free == if old(blocks)[i + 1].used then old(free) else Without(old(free), old(blocks)[i + 1].addr)
      ensures ListOff(bytes.Length, free, keep)
      ensures available == old(available)
                           - (if old(blocks)[i + 1].used then 0 else Payload(old(blocks), i + 1, HDR))
      ensures forall k :: k in keep && 0 <= k < bytes.Length ==> bytes[k] == old(bytes[k])
    {
      hide Ring, Writable, AllOff, ListOff, Flagged, Addrs, Split, MergeRight, Distinct, Without;
      CutSteps(blocks, i, cut);
      OffSplit(bytes.Length, blocks, HDR, keep, i, cut);
      SetUsed(cut, false, keep);
      LinkBlock(header, cut, i, false, keep);
      NextFlag(next, prev, used, blocks, i + 1);
      var n := next[cut];
      if !used[n] {
        NextFlag(next, prev, used, blocks, i + 2);
        available := available - (next[n] - n - HDR);
      }
      var merged := MergeWithNext(cut, i + 1, keep);
    }

    /** In-place shrink: the tail of block i becomes free. */
    method ShrinkBlock(header: int, req: nat, ghost i: nat)
      requires Valid() && i + 1 < |blocks| && blocks[i] == Block(header, true)
      requires req + HDR + Spec.MINIALLOC < Payload(blocks, i, HDR) && req % Spec.ALIGN == 0
      modifies this, bytes
      ensures Valid() && View() == Spec.Shrink(old(View()), i, req)
      ensures forall k :: (k in old(LiveBytes(blocks, HDR, poolSize))
                           && !(header + HDR + req <= k < old(blocks)[i + 1].addr)) ==> bytes[k] == old(bytes[k])
    {
      hide Spec.WF, Ring, LiveBytes, Writable, AllOff, ListOff, Flagged, Distinct, Spaced, Addrs, Without,
           Split, MergeRight, Release;
      var cut := header + HDR + req;
      ghost var h, keep := View(), KeptBytes(blocks, HDR, poolSize, cut, blocks[i + 1].addr);
      FreeFacts(h, i);
      FreeListSteps(h, i);
      Laws.ShrinkWF(h, i, req);
      CutOff(h, i, cut);
      FlagCut(used, h, i, cut);
      CutSteps(blocks, i, cut);
      CutBlock(header, cut, i, keep);
      LinkFree(cut, keep);
      NextFlag(next, prev, used, blocks, i + 1);
      available := available + (next[cut] - cut - HDR);
    }

    /** Realloc by allocating anew, copying and freeing the old block. */
    method MoveBlock(header: int, size: nat, req: nat, ghost i: nat) returns (r: int)
      requires Valid() && i + 1 < |blocks| && blocks[i] == Block(header, true)
      requires size == Payload(blocks, i, HDR) && size < req < Spec.WORD && Spec.Request(req) == req
      requires header >= 0 && header + HDR + size <= bytes.Length
      modifies this, bytes
      ensures Valid()
      ensures View() == Spec.Move(old(View()), i, req).0 && r == Spec.Move(old(View()), i, req).1
      ensures forall k :: k in old(LiveBytes(blocks, HDR, poolSize)) ==> bytes[k] == old(bytes[k])
      ensures r != NULL ==> 0 <= r && r + size <= bytes.Length
      ensures r != NULL ==> bytes[r..r + size] == old(bytes[header + HDR..header + HDR + size])
    {
      hide Spec.WF, Ring, LiveBytes, Flagged, Spec.Alloc, Spec.Free, Spec.Move, At, Payload, Tiled, Addrs, Spec.Request;
      ghost var h := View();
      Laws.MoveWF(h, i, req);
      Laws.AllocSucceedsIff(h, req);
      PoolTiled(h);
      PayloadLive(h.blocks, HDR, h.pool, i, header + HDR, size);
      AllocKeepsLive(h, req);
      LiveBound(blocks, HDR, poolSize);
      r := Alloc(req);
      if r != NULL {
        TargetFresh(h, req);
        CopyApart(header + HDR, r, size, req, LiveBytes(h.blocks, HDR, h.pool));
        CopyAndFree(header, r, size, At(blocks, header));
      }
    }

    /** Copies the payload of block j to live bytes elsewhere and frees the block. */
    method CopyAndFree(header: int, dst: int, size: nat, ghost j: nat)
      requires Valid() && j + 1 < |blocks| && blocks[j] == Block(header, true)
      requires 0 <= header + HDR && header + HDR + size <= bytes.Length && 0 <= dst && dst + size <= bytes.Length
      requires dst + size <= header + HDR || header + HDR + size <= dst
      requires forall k :: dst <= k < dst + size ==> k in LiveBytes(blocks, HDR, poolSize)
      modifies this, bytes
      ensures Valid() && View() == Spec.Free(old(View()), j)
      ensures bytes[dst..dst + size] == old(bytes[header + HDR..header + HDR + size])
      ensures forall k :: k in old(LiveBytes(blocks, HDR, poolSize)) && !(dst <= k < dst + size) ==> bytes[k] == old(bytes[k])
    {
      LiveBound(blocks, HDR, poolSize);
      hide Spec.WF, Ring, LiveBytes, Flagged, Spec.Free;
      Copy(bytes, dst, header + HDR, size);
      ghost var copied := bytes[dst..dst + size];
      FreeBlock(header, j);
      assert bytes[dst..dst + size] == copied;
    }

    /** The growing half of rt_memheap_realloc: in place when the next block is free and large enough. */
    method Expand(header: int, size: nat, req: nat, ghost i: nat) returns (r: int)
      requires Valid() && i + 1 < |blocks| && blocks[i] == Block(header, true)
      requires size == Payload(blocks, i, HDR) && size < req < Spec.WORD && Spec.Request(req) == req
      requires header >= 0 && header + HDR + size <= bytes.Length
      requires req + Spec.MINIALLOC >= Spec.WORD ==> !Spec.CanGrow(View(), i, req)
      modifies this, bytes
      ensures Valid()
      ensures if Spec.CanGrow(old(View()), i, req)
              then View() == Spec.Grow(old(View()), i, req) && r == header + HDR
              else View() == Spec.Move(old(View()), i, req).0 && r == Spec.Move(old(View()), i, req).1
      ensures forall k :: k in old(LiveBytes(blocks, HDR, poolSize)) ==> bytes[k] == old(bytes[k])
      ensures r != NULL ==> 0 <= r && r + size <= bytes.Length
      ensures r != NULL ==> bytes[r..r + size] == old(bytes[header + HDR..header + HDR + size])
    {
      hide Spec.WF, Ring, LiveBytes, Flagged, Spec.Grow, Spec.Move, Tiled;
      ghost var h := View();
      PoolTiled(h);
      PayloadLive(h.blocks, HDR, h.pool, i, header + HDR, size);
      ReallocFacts(h, i);
      NextFlag(next, prev, used, blocks, i);
      var n := next[header];
      if !used[n] {
        NextFlag(next, prev, used, blocks, i + 1);
        var nextSize := next[n] - n - HDR;
        if nextSize + size > (req + Spec.MINIALLOC) % Spec.WORD {
          GrowBlock(header, req, i);
          return header + HDR;
        }
      }
      r := MoveBlock(header, size, req, i);
    }

    /** rt_memheap_realloc. */
    method Realloc(p: int, newsize: nat) returns (r: int)
      requires Valid() && newsize < Spec.WORD
      requires p != NULL ==> Spec.Live(View(), p) + 1 < |blocks|
      requires Spec.Safe(View(), Spec.OpRealloc(p, newsize))
      modifies this, bytes
      ensures Valid()
      ensures newsize == 0 ==> r == NULL && View() == Spec.Step(old(View()), Spec.OpFree(p))
      ensures newsize > 0 && p == NULL ==> r == Spec.Alloc(old(View()), newsize).1
      ensures newsize > 0 && p != NULL ==> r == Spec.Realloc(old(View()), old(Spec.Live(View(), p)), newsize).1
      ensures newsize > 0 ==> View() == Spec.Step(old(View()), Spec.OpRealloc(p, newsize))
      ensures p != NULL && r != NULL ==>
                var i := old(Spec.Live(View(), p));
                var end := EndOf(old(blocks), i);
                PayloadKept(old(bytes[..]), bytes[..], old(LiveBytes(blocks, HDR, poolSize)), p, end,
                            if Spec.Request(newsize) < end - p then Spec.Request(newsize) else end - p, r)
      ensures r == NULL ==> SameBytes(old(bytes[..]), bytes[..], old(LiveBytes(blocks, HDR, poolSize)))
    {
      hide Spec.WF, Ring, LiveBytes, Flagged, Spec.Live, Spec.Alloc, Spec.Free, Spec.Grow, Spec.Shrink, Spec.Move, Tiled,
           Addrs, Spec.CanGrow, Spec.Safe;
      LiveBound(blocks, HDR, poolSize);
      NullNotLive(View());
      if newsize == 0 {
        Free(p);
        return NULL;
      }
      var req := Spec.Request(newsize);
      RequestAgain(newsize);
      if p == NULL {
        AllocSame(View(), req, newsize);
        r := Alloc(req);
        return;
      }
      ghost var h, i := View(), Spec.Live(View(), p);
      var header := p - HDR;
      SafeGuard(h, p, newsize);
      ReallocFacts(h, i);
      NextHeader(h, next, prev, i);
      var size := next[header] - header - HDR;
      PoolTiled(h);
      PayloadLive(h.blocks, HDR, h.pool, i, p, size);
      if req > size {
        r := Expand(header, size, req, i);
      } else if req + HDR + Spec.MINIALLOC >= size {
        r := p;
      } else {
        ShrinkBlock(header, req, i);
        r := p;
      }
    }
  }
}
