/** What rt_memheap promises, proved of the heap functions for every heap, request and history. */
module MemHeapLaws {
  import opened Rings
  import opened Blocks
  import opened Stretches
  import opened MemHeapSpec

  lemma InitWF(size: nat)
    requires size / ALIGN * ALIGN >= 2 * HDR && size < WORD
    ensures WF(Init(size)) && Extents(Init(size).blocks) == {} && size - ALIGN < Init(size).pool <= size
  {
    var bs := Init(size).blocks;
    assert bs[1..] == [bs[1]];
    assert FreeBytes(bs, HDR) == Payload(bs, 0, HDR);
  }

  // ----- the free list

  lemma UsedExact(ms: set<Block>, free: seq<int>, b: Block)
    requires FreeExact(ms, free) && b.used
    ensures FreeExact(ms + {b}, free) && FreeExact(ms - {b}, free)
  {
  }

  lemma TakeExact(ms: set<Block>, free: seq<int>, k: nat)
    requires FreeExact(ms, free) && k < |free|
    ensures FreeExact(ms - {Block(free[k], false)}, RemoveAt(free, k))
  {
    DistinctAfterRemove(free, k);
    RemoveMembers(free, k);
  }

  lemma PushExact(ms: set<Block>, free: seq<int>, a: int)
    requires FreeExact(ms, free) && Block(a, false) !in ms
    ensures FreeExact(ms + {Block(a, false)}, [a] + free)
  {
    assert a !in free;
    assert forall x :: x in [a] + free <==> x == a || x in free;
  }

  lemma DropExact(ms: set<Block>, free: seq<int>, a: int)
    requires FreeExact(ms, free) && Block(a, false) in ms
    ensures FreeExact(ms - {Block(a, false)}, Without(free, a))
  {
    assert a in free;
    TakeExact(ms, free, IndexOf(free, a));
  }

  lemma LayoutFacts(bs: seq<Block>, hi: int, i: nat)
    requires Layout(bs, hi) && i + 1 < |bs|
    ensures bs[|bs| - 1].used && Spaced(bs, HDR)
    ensures 0 <= bs[i].addr && bs[i].addr + HDR <= bs[i + 1].addr <= hi
    ensures bs[i].addr % ALIGN == 0 && bs[i + 1].addr % ALIGN == 0
    ensures bs[i] in Members(bs) && bs[i + 1] in Members(bs)
    ensures Block(bs[i].addr, !bs[i].used) !in Members(bs)
    ensures !bs[i].used ==> bs[i + 1].used
  {
    IsMember(bs, i);
    IsMember(bs, i + 1);
    OneFlag(bs, HDR, i);
  }

  // ----- allocation

  /** The block sequence after handing out free block i. */
  function Carved(bs: seq<Block>, i: nat, req: nat): seq<Block>
    requires i + 1 < |bs|
  {
    if Payload(bs, i, HDR) >= req + HDR + MINIALLOC
    then Split(Mark(bs, i, true), i, bs[i].addr + HDR + req, false)
    else Mark(bs, i, true)
  }

  lemma CarveMembers(bs: seq<Block>, hi: int, i: nat, req: nat)
    requires Layout(bs, hi) && i + 1 < |bs| && !bs[i].used
    ensures Tiled(Carved(bs, i, req), 0, hi, HDR)
    ensures var m := Members(bs) - {bs[i]} + {Block(bs[i].addr, true)};
            var rest := Block(bs[i].addr + HDR + req, false);
            if Payload(bs, i, HDR) >= req + HDR + MINIALLOC
            then Members(Carved(bs, i, req)) == m + {rest} && rest !in m
            else Members(Carved(bs, i, req)) == m
  {
    hide Spaced, NoAdjacentFree, Members;
    MarkKeeps(bs, 0, hi, HDR, i, true);
    if Payload(bs, i, HDR) >= req + HDR + MINIALLOC {
      SplitKeeps(Mark(bs, i, true), 0, hi, HDR, i, bs[i].addr + HDR + req, false);
      FreshAddress(Mark(bs, i, true), HDR, i, bs[i].addr + HDR + req);
    }
  }

  lemma CarveLayout(bs: seq<Block>, hi: int, i: nat, req: nat)
    requires Layout(bs, hi) && i + 1 < |bs| && !bs[i].used && req % ALIGN == 0
    ensures Layout(Carved(bs, i, req), hi)
  {
    hide Tiled, NoAdjacentFree, Members, Split;
    IsMember(bs, i);
    NextUsed(bs, i);
    CarveMembers(bs, hi, i, req);
    MarkSeparates(bs, i);
    if Payload(bs, i, HDR) >= req + HDR + MINIALLOC {
      SplitSeparates(Mark(bs, i, true), i, bs[i].addr + HDR + req);
    }
  }

  lemma CarveBytes(bs: seq<Block>, i: nat, req: nat)
    requires i + 1 < |bs| && !bs[i].used
    ensures FreeBytes(Carved(bs, i, req), HDR) == FreeBytes(bs, HDR)
              - (if Payload(bs, i, HDR) >= req + HDR + MINIALLOC then req + HDR else Payload(bs, i, HDR))
  {
    hide FreeBytes, UsedExtent, Split;
    MarkSums(bs, i, true, HDR);
    if Payload(bs, i, HDR) >= req + HDR + MINIALLOC {
      SplitSums(Mark(bs, i, true), i, bs[i].addr + HDR + req, false, HDR);
    }
  }

  lemma CarveFree(bs: seq<Block>, hi: int, free: seq<int>, k: nat, i: nat, req: nat)
    requires Layout(bs, hi) && FreeExact(Members(bs), free) && k < |free|
    requires i + 1 < |bs| && bs[i] == Block(free[k], false)
    ensures FreeExact(Members(Carved(bs, i, req)),
                      if Payload(bs, i, HDR) >= req + HDR + MINIALLOC
                      then [free[k] + HDR + req] + RemoveAt(free, k) else RemoveAt(free, k))
  {
    hide Tiled, AlignedTo, NoAdjacentFree, Carved, Members, FreeExact;
    var m := Members(bs) - {bs[i]};
    TakeExact(Members(bs), free, k);
    UsedExact(m, RemoveAt(free, k), Block(bs[i].addr, true));
    CarveMembers(bs, hi, i, req);
    if Payload(bs, i, HDR) >= req + HDR + MINIALLOC {
      PushExact(m + {Block(bs[i].addr, true)}, RemoveAt(free, k), free[k] + HDR + req);
    }
  }

  lemma CarveWF(h: Heap, k: nat, req: nat)
    requires WF(h) && k < |h.free| && req % ALIGN == 0
    requires SizeAt(h.blocks, h.free[k]) >= req
    ensures At(h.blocks, h.free[k]) + 1 < |h.blocks|
    ensures WF(Carve(h, k, req))
    ensures Carve(h, k, req).blocks == Carved(h.blocks, At(h.blocks, h.free[k]), req)
  {
    hide Layout, FreeExact, Mark, Split, RemoveAt, Payload, At, FreeBytes;
    FreeIsBlock(h, k);
    var i := At(h.blocks, h.free[k]);
    CarveLayout(h.blocks, h.pool - HDR, i, req);
    CarveBytes(h.blocks, i, req);
    CarveFree(h.blocks, h.pool - HDR, h.free, k, i, req);
  }

  /** Allocation keeps every invariant of the heap. */
  lemma AllocWF(h: Heap, size: nat)
    requires WF(h)
    ensures WF(Alloc(h, size).0)
  {
    var k := Choice(h, size);
    if k < |h.free| { CarveWF(h, k, Request(size)); }
  }

  /** rt_memheap_alloc succeeds exactly when the request is strictly below the free byte count and some
      free block holds it; a failing call changes nothing. */
  lemma AllocSucceedsIff(h: Heap, size: nat)
    requires WF(h)
    ensures Alloc(h, size).1 != NULL <==>
              && Request(size) < h.available
              && exists i :: 0 <= i < |h.blocks| - 1 && !h.blocks[i].used && Payload(h.blocks, i, HDR) >= Request(size)
    ensures Alloc(h, size).1 == NULL ==> Alloc(h, size).0 == h
  {
    var k := Choice(h, size);
    if k < |h.free| {
      FreeIsBlock(h, k);
      BlockInPool(h, At(h.blocks, h.free[k]));
    }
    forall i | 0 <= i < |h.blocks| - 1 && !h.blocks[i].used
      ensures exists j :: 0 <= j < |h.free| && SizeAt(h.blocks, h.free[j]) == Payload(h.blocks, i, HDR)
    {
      var a := h.blocks[i].addr;
      assert h.blocks[i] == Block(a, false);
      assert a in h.free;
      var j :| 0 <= j < |h.free| && h.free[j] == a;
      AtUnique(h.blocks, 0, h.pool - HDR, HDR, i);
      assert SizeAt(h.blocks, h.free[j]) == Payload(h.blocks, i, HDR);
    }
  }

  lemma BlockInPool(h: Heap, i: nat)
    requires WF(h) && i < |h.blocks|
    ensures 0 <= h.blocks[i].addr <= h.pool - HDR
  {
  }

  lemma LiveIndex(h: Heap, i: nat)
    requires WF(h) && i + 1 < |h.blocks| && h.blocks[i].used
    ensures Live(h, h.blocks[i].addr + HDR) == i
  {
    hide AlignedTo, NoAdjacentFree, FreeExact, FreeBytes;
    AtUnique(h.blocks, 0, h.pool - HDR, HDR, i);
  }

  lemma CarvedAt(bs: seq<Block>, i: nat, req: nat)
    requires i + 1 < |bs| && Payload(bs, i, HDR) >= req
    ensures var c := Carved(bs, i, req);
            && i + 1 < |c| && c[i] == Block(bs[i].addr, true)
            && req <= Payload(c, i, HDR) < req + HDR + MINIALLOC
  {
  }

  lemma CarvedExtents(bs: seq<Block>, i: nat, req: nat)
    requires Spaced(bs, HDR) && i + 1 < |bs| && !bs[i].used && i + 1 < |Carved(bs, i, req)|
    ensures Extents(Carved(bs, i, req)) == Extents(bs) + {Extent(Carved(bs, i, req), i)}
  {
    hide Extents;
    MarkExtents(bs, HDR, i);
    var m := Mark(bs, i, true);
    assert Spaced(m, HDR);
    hide Spaced;
    if Payload(bs, i, HDR) >= req + HDR + MINIALLOC {
      CutExtents(m, HDR, i, bs[i].addr + HDR + req);
      FreeHasNone(bs, HDR, i);
    }
  }

  lemma AllocCarves(h: Heap, size: nat) returns (i: nat)
    requires WF(h) && Alloc(h, size).1 != NULL
    ensures i + 1 < |h.blocks| && h.blocks[i] == Block(Alloc(h, size).1 - HDR, false)
    ensures Payload(h.blocks, i, HDR) >= Request(size) && Alloc(h, size).1 % ALIGN == 0
    ensures WF(Alloc(h, size).0) && Alloc(h, size).0.blocks == Carved(h.blocks, i, Request(size))
  {
    hide Layout, FreeExact, FreeBytes, Carved, At, Members, Payload;
    var k, req := Choice(h, size), Request(size);
    i := At(h.blocks, h.free[k]);
    FreeIsBlock(h, k);
    LayoutFacts(h.blocks, h.pool - HDR, i);
    CarveWF(h, k, req);
    AtPayload(h, k, req);
  }

  /** What a caller gets: an aligned, previously free block that is used now and holds the rounded request with less
      than a header and a smallest block to spare; no other stretch of the pool changes hands. */
  lemma AllocGives(h: Heap, size: nat) returns (i: nat)
    requires WF(h) && Alloc(h, size).1 != NULL
    ensures var (h', p) := Alloc(h, size);
            && i == Live(h', p) && i + 1 < |h'.blocks| && p % ALIGN == 0
            && Request(size) <= Payload(h'.blocks, i, HDR) < Request(size) + HDR + MINIALLOC
            && Extents(h'.blocks) == Extents(h.blocks) + {Extent(h'.blocks, i)}
            && i < |h.blocks| && h.blocks[i] == Block(p - HDR, false)
  {
    hide WF, Carved, Live, Payload, Alloc, Extents;
    i := AllocCarves(h, size);
    CarvedAt(h.blocks, i, Request(size));
    LiveIndex(Alloc(h, size).0, i);
    SpacedOut(h);
    CarvedExtents(h.blocks, i, Request(size));
  }

  lemma SpacedOut(h: Heap)
    requires WF(h)
    ensures Spaced(h.blocks, HDR) && |h.blocks| > 0 && h.blocks[|h.blocks| - 1].used
  {
  }

  /** Which block that is: the first one of the free list that is large enough. */
  lemma AllocFirstFit(h: Heap, size: nat) returns (k: nat)
    requires WF(h) && Alloc(h, size).1 != NULL
    ensures k < |h.free| && Alloc(h, size).1 == h.free[k] + HDR
    ensures forall i, j :: 0 <= i < k && 0 <= j < |h.blocks| - 1 && h.blocks[j].addr == h.free[i] ==> Payload(h.blocks, j, HDR) < Request(size)
  {
    k := Choice(h, size);
    forall i, j | 0 <= i < k && 0 <= j < |h.blocks| - 1 && h.blocks[j].addr == h.free[i]
      ensures Payload(h.blocks, j, HDR) < Request(size)
    {
      AtUnique(h.blocks, 0, h.pool - HDR, HDR, j);
      assert SizeAt(h.blocks, h.free[i]) < Request(size);
    }
  }

  lemma AtPayload(h: Heap, k: nat, req: nat)
    requires WF(h) && k < |h.free| && SizeAt(h.blocks, h.free[k]) >= req
    ensures At(h.blocks, h.free[k]) + 1 < |h.blocks|
    ensures Payload(h.blocks, At(h.blocks, h.free[k]), HDR) >= req
  {
    hide Layout, FreeExact, FreeBytes;
    FreeIsBlock(h, k);
  }

  /** The rounded request covers the size asked for except for the three sizes whose rounding wraps. */
  lemma RequestCovers(n: nat)
    requires n < WORD
    ensures Request(n) >= n <==> n <= 0xFFFF_FFFC
  {
  }

  /** Freeing the block just allocated gives back the heap of before: same blocks, same free set and
      same byte count. */
  lemma AllocFreeRoundTrip(h: Heap, size: nat)
    requires WF(h) && Alloc(h, size).1 != NULL
    ensures var (h1, p) := Alloc(h, size);
            var i := Live(h1, p);
            && i + 1 < |h1.blocks|
            && Free(h1, i).blocks == h.blocks
            && Free(h1, i).available == h.available
            && forall a :: a in Free(h1, i).free <==> a in h.free
  {
    hide Layout, FreeBytes, Live, Carved, Members, Release, Alloc, Payload;
    var (h1, p) := Alloc(h, size);
    var i := AllocGives(h, size);
    var j := AllocCarves(h, size);
    CarvedAt(h.blocks, j, Request(size));
    LiveIndex(h1, j);
    Separate(h);
    FreeWF(h1, i);
    CarveUndone(h.blocks, i, Request(size));
  }

  lemma Separate(h: Heap)
    requires WF(h)
    ensures NoAdjacentFree(h.blocks)
  {
  }

  lemma CarveUndone(bs: seq<Block>, i: nat, req: nat)
    requires NoAdjacentFree(bs) && i + 1 < |bs| && !bs[i].used
    ensures Release(Carved(bs, i, req), i) == bs
  {
    NextUsed(bs, i);
    hide NoAdjacentFree;
    var c := Carved(bs, i, req);
    assert MergeRight(Mark(c, i, false), i) == bs;
  }

  // ----- freeing

  lemma ReleaseLayout(bs: seq<Block>, hi: int, i: nat)
    requires Layout(bs, hi) && i + 1 < |bs| && bs[i].used
    ensures Layout(Release(bs, i), hi)
  {
    IsMember(bs, i);
    hide Spaced, NoAdjacentFree, Members, Release, Mark, Coalesce;
    ReleaseKeeps(bs, 0, hi, HDR, i);
    ReleaseIsCoalesce(bs, i);
    CoalesceSeparates(Mark(bs, i, false));
  }

  lemma ReleaseFree(bs: seq<Block>, hi: int, free: seq<int>, i: nat)
    requires Layout(bs, hi) && FreeExact(Members(bs), free) && i + 1 < |bs| && bs[i].used
    ensures var others := if !bs[i + 1].used then Without(free, bs[i + 1].addr) else free;
            FreeExact(Members(Release(bs, i)),
                      if i > 0 && !bs[i - 1].used then others else [bs[i].addr] + others)
  {
    hide NoAdjacentFree, AlignedTo, Spaced, Release, Members, FreeExact, Without;
    LayoutFacts(bs, hi, i);
    ReleaseKeeps(bs, 0, hi, HDR, i);
    var m := Members(bs) - {bs[i]};
    UsedExact(Members(bs), free, bs[i]);
    var others := if !bs[i + 1].used then Without(free, bs[i + 1].addr) else free;
    var m' := if !bs[i + 1].used then m - {bs[i + 1]} else m;
    if !bs[i + 1].used { DropExact(m, free, bs[i + 1].addr); }
    if i > 0 && !bs[i - 1].used {
      assert Members(Release(bs, i)) == m';
    } else {
      PushExact(m', others, bs[i].addr);
      assert Members(Release(bs, i)) == m' + {Block(bs[i].addr, false)};
    }
  }

  /** Freeing a used block keeps every invariant of the heap. */
  lemma FreeWF(h: Heap, i: nat)
    requires WF(h) && i + 1 < |h.blocks| && h.blocks[i].used
    ensures WF(Free(h, i))
  {
    hide Layout, Spaced, Release, Members, FreeExact, Without, FreeBytes;
    LayoutFacts(h.blocks, h.pool - HDR, i);
    ReleaseLayout(h.blocks, h.pool - HDR, i);
    ReleaseFree(h.blocks, h.pool - HDR, h.free, i);
    ReleaseSums(h.blocks, i, HDR);
  }

  /** Freeing leaves the heap exactly as full merging of the freed block sequence would. */
  lemma FreeMergesFully(h: Heap, i: nat)
    requires WF(h) && i + 1 < |h.blocks| && h.blocks[i].used
    ensures Free(h, i).blocks == Coalesce(Mark(h.blocks, i, false))
  {
    ReleaseIsCoalesce(h.blocks, i);
  }

  /** Exactly the stretch of the block stops being handed out. */
  lemma FreeGivesUp(h: Heap, i: nat)
    requires WF(h) && i + 1 < |h.blocks| && h.blocks[i].used
    ensures Extents(Free(h, i).blocks) == Extents(h.blocks) - {Extent(h.blocks, i)}
  {
    hide WF, Extents, Release;
    SpacedOut(h);
    ReleaseExtents(h.blocks, HDR, i);
  }

  /** The heap is determined by the stretches handed out: what a history of calls has left allocated says where every
      header is. */
  lemma HeapDetermined(h: Heap, h': Heap)
    requires WF(h) && WF(h') && h.pool == h'.pool && Extents(h.blocks) == Extents(h'.blocks)
    ensures h.blocks == h'.blocks && h.available == h'.available && (forall a :: a in h.free <==> a in h'.free)
  {
    hide Extents;
    ExtentsDetermine(h.blocks, h'.blocks, HDR);
  }

  /** A block that was freed and merged with nothing in front of it is the first one to be handed out again. */
  lemma FreedIsReused(h: Heap, i: nat, size: nat)
    requires WF(h) && i + 1 < |h.blocks| && h.blocks[i].used && (i > 0 ==> h.blocks[i - 1].used)
    requires Request(size) <= Payload(h.blocks, i, HDR) && Request(size) < Free(h, i).available
    ensures Alloc(Free(h, i), size).1 == h.blocks[i].addr + HDR
  {
    hide WF, FreeBytes, Release, Extents, Alloc;
    var h1 := Free(h, i);
    FreeWF(h, i);
    FreedInFront(h, i);
    FrontChosen(h1, size);
  }

  lemma FreedInFront(h: Heap, i: nat)
    requires WF(h) && i + 1 < |h.blocks| && h.blocks[i].used && (i > 0 ==> h.blocks[i - 1].used)
    ensures var h1 := Free(h, i);
            h1.free != [] && h1.free[0] == h.blocks[i].addr && SizeAt(h1.blocks, h1.free[0]) >= Payload(h.blocks, i, HDR)
  {
    hide WF, Release, FreeBytes, Without, At;
    FreeWF(h, i);
    FreedWhere(h, i);
    AtStart(Free(h, i), i);
  }

  lemma AtStart(h: Heap, i: nat)
    requires WF(h) && i < |h.blocks|
    ensures At(h.blocks, h.blocks[i].addr) == i
  {
    AtUnique(h.blocks, 0, h.pool - HDR, HDR, i);
  }

  lemma FreedWhere(h: Heap, i: nat)
    requires WF(h) && i + 1 < |h.blocks| && h.blocks[i].used && (i > 0 ==> h.blocks[i - 1].used)
    ensures var r := Release(h.blocks, i);
            i + 1 < |r| && r[i].addr == h.blocks[i].addr && r[i + 1].addr >= h.blocks[i + 1].addr
  {
    ReleaseShape(h.blocks, i);
    hide Release;
  }

  lemma FrontChosen(h: Heap, size: nat)
    requires WF(h) && h.free != [] && SizeAt(h.blocks, h.free[0]) >= Request(size) && Request(size) < h.available
    ensures Alloc(h, size).1 == h.free[0] + HDR
  {
    FreeIsBlock(h, 0);
  }

  // ----- resizing

  lemma GrowLayout(bs: seq<Block>, hi: int, i: nat, next: int)
    requires Layout(bs, hi) && i + 2 < |bs| && bs[i].used && !bs[i + 1].used
    requires bs[i].addr + HDR <= next && next + HDR <= bs[i + 2].addr && next % ALIGN == 0
    ensures Layout(Split(Absorb(bs, i), i, next, false), hi)
    ensures Block(next, false) !in Members(bs) - {bs[i + 1]}
    ensures Members(Split(Absorb(bs, i), i, next, false)) == Members(bs) - {bs[i + 1]} + {Block(next, false)}
  {
    hide Spaced, NoAdjacentFree, Members;
    var s := Absorb(bs, i);
    AbsorbKeeps(bs, 0, hi, HDR, i);
    NextUsed(bs, i + 1);
    AbsorbSeparates(bs, i);
    SplitKeeps(s, 0, hi, HDR, i, next, false);
    SplitSeparates(s, i, next);
    FreshAddress(s, HDR, i, next);
  }

  lemma AbsorbSeparates(bs: seq<Block>, i: nat)
    requires NoAdjacentFree(bs) && i + 2 < |bs| && bs[i].used && !bs[i + 1].used
    ensures NoAdjacentFree(Absorb(bs, i))
  {
    var s := Absorb(bs, i);
    forall p, q | 0 <= p < |s| - 1 && q == p + 1 ensures s[p].used || s[q].used {
      if p < i { assert s[p] == bs[p] && s[q] == bs[q]; }
      else if p > i { assert s[p] == bs[p + 1] && s[q] == bs[q + 1]; }
    }
  }

  lemma GrowRoom(h: Heap, i: nat, req: nat)
    requires WF(h) && i + 1 < |h.blocks| && h.blocks[i].used && req % ALIGN == 0
    requires req > Payload(h.blocks, i, HDR) && CanGrow(h, i, req) && req + MINIALLOC < WORD
    ensures var next := h.blocks[i].addr + HDR + req;
            && Wrap(next) == next && next % ALIGN == 0 && i + 2 < |h.blocks| && !h.blocks[i + 1].used
            && h.blocks[i + 1].addr < next && next + HDR <= h.blocks[i + 2].addr < h.pool
  {
    hide Spaced, Members, FreeExact, FreeBytes;
    LayoutFacts(h.blocks, h.pool - HDR, i);
    LayoutFacts(h.blocks, h.pool - HDR, i + 1);
  }

  lemma GrowWF(h: Heap, i: nat, req: nat)
    requires WF(h) && i + 1 < |h.blocks| && h.blocks[i].used && req % ALIGN == 0
    requires req > Payload(h.blocks, i, HDR) && CanGrow(h, i, req) && req + MINIALLOC < WORD
    ensures WF(Grow(h, i, req))
    ensures h.blocks[i].addr + HDR + req < WORD
  {
    hide Layout, Spaced, Split, Absorb, Members, FreeExact, Without, FreeBytes, Wrap, CanGrow;
    var bs, next := h.blocks, h.blocks[i].addr + HDR + req;
    GrowRoom(h, i, req);
    LayoutFacts(bs, h.pool - HDR, i + 1);
    GrowLayout(bs, h.pool - HDR, i, next);
    DropExact(Members(bs), h.free, bs[i + 1].addr);
    PushExact(Members(bs) - {bs[i + 1]}, Without(h.free, bs[i + 1].addr), next);
    GrowBytes(bs, i, next);
  }

  lemma GrowBytes(bs: seq<Block>, i: nat, next: int)
    requires i + 2 < |bs| && bs[i].used && !bs[i + 1].used
    ensures FreeBytes(Split(Absorb(bs, i), i, next, false), HDR)
         == FreeBytes(bs, HDR) - (next - bs[i + 1].addr)
  {
    hide FreeBytes, UsedExtent;
    AbsorbSums(bs, i, HDR);
    SplitSums(Absorb(bs, i), i, next, false, HDR);
  }

  /** The block sequence in which the tail of used block i counts as a used block of its own. */
  lemma CutLayout(bs: seq<Block>, hi: int, i: nat, cut: int)
    requires Layout(bs, hi) && i + 1 < |bs| && bs[i].used
    requires bs[i].addr + HDR <= cut && cut + HDR <= bs[i + 1].addr && cut % ALIGN == 0
    ensures Layout(Split(bs, i, cut, true), hi)
    ensures Members(Split(bs, i, cut, true)) == Members(bs) + {Block(cut, true)}
  {
    hide Spaced, NoAdjacentFree, Members;
    SplitKeeps(bs, 0, hi, HDR, i, cut, true);
    SplitUsedSeparates(bs, i, cut);
  }

  lemma ShrinkWF(h: Heap, i: nat, req: nat)
    requires WF(h) && i + 1 < |h.blocks| && h.blocks[i].used && req % ALIGN == 0
    requires req + HDR + MINIALLOC < Payload(h.blocks, i, HDR)
    ensures WF(Shrink(h, i, req))
    ensures Shrink(h, i, req).blocks == Coalesce(Split(h.blocks, i, h.blocks[i].addr + HDR + req, false))
  {
    hide Layout, Spaced, Release, Members, FreeExact, Without, FreeBytes, UsedExtent, Coalesce;
    var bs, hi, cut := h.blocks, h.pool - HDR, h.blocks[i].addr + HDR + req;
    var s := Split(bs, i, cut, true);
    LayoutFacts(bs, hi, i);
    CutLayout(bs, hi, i, cut);
    UsedExact(Members(bs), h.free, Block(cut, true));
    ReleaseLayout(s, hi, i + 1);
    ReleaseFree(s, hi, h.free, i + 1);
    SplitSums(bs, i, cut, true, HDR);
    LayoutFacts(s, hi, i + 1);
    ReleaseSums(s, i + 1, HDR);
    CutMerges(bs, hi, i, cut);
  }

  lemma CutMerges(bs: seq<Block>, hi: int, i: nat, cut: int)
    requires Layout(bs, hi) && i + 1 < |bs| && bs[i].used
    requires Layout(Split(bs, i, cut, true), hi)
    ensures Release(Split(bs, i, cut, true), i + 1) == Coalesce(Split(bs, i, cut, false))
  {
    hide Spaced, NoAdjacentFree, Coalesce, Release;
    ReleaseIsCoalesce(Split(bs, i, cut, true), i + 1);
    assert Mark(Split(bs, i, cut, true), i + 1, false) == Split(bs, i, cut, false);
  }

  /** Allocation leaves every used block in place. */
  lemma AllocKeepsUsed(h: Heap, size: nat, b: Block)
    requires WF(h) && b in Members(h.blocks) && b.used
    ensures b in Members(Alloc(h, size).0.blocks)
  {
    var k := Choice(h, size);
    if k < |h.free| {
      hide Layout, FreeExact, Members, FreeBytes;
      CarveWF(h, k, Request(size));
      FreeIsBlock(h, k);
      CarveMembers(h.blocks, h.pool - HDR, At(h.blocks, h.free[k]), Request(size));
    }
  }

  lemma FindMember(h: Heap, b: Block)
    requires WF(h) && b in Members(h.blocks) && b.addr < h.pool - HDR
    ensures At(h.blocks, b.addr) + 1 < |h.blocks| && h.blocks[At(h.blocks, b.addr)] == b
  {
    var k :| 0 <= k < |h.blocks| && h.blocks[k] == b;
    AtUnique(h.blocks, 0, h.pool - HDR, HDR, k);
  }

  /** A moving realloc allocates first; when that succeeds the old block is found again and freed. */
  lemma MoveWF(h: Heap, i: nat, req: nat)
    requires WF(h) && i + 1 < |h.blocks| && h.blocks[i].used
    ensures WF(Move(h, i, req).0)
    ensures Move(h, i, req).1 == Alloc(h, req).1
    ensures Move(h, i, req).1 == NULL ==> Move(h, i, req).0 == h
    ensures Move(h, i, req).1 != NULL ==>
              (var h1 := Alloc(h, req).0;
               var j := At(h1.blocks, h.blocks[i].addr);
               && WF(h1) && j + 1 < |h1.blocks| && h1.blocks[j] == h.blocks[i]
               && Move(h, i, req).0 == Free(h1, j))
  {
    hide Layout, FreeExact, FreeBytes, Members, Payload;
    AllocWF(h, req);
    AllocSucceedsIff(h, req);
    if Alloc(h, req).1 != NULL {
      var h1 := Alloc(h, req).0;
      LayoutFacts(h.blocks, h.pool - HDR, i);
      AllocKeepsUsed(h, req, h.blocks[i]);
      FindMember(h1, h.blocks[i]);
      FreeWF(h1, At(h1.blocks, h.blocks[i].addr));
    }
  }

  /** A realloc, in whichever of its ways, keeps every invariant of the heap, unless the guard of the in-place growth
      holds only because its addition wraps: then the heap is never consistent afterwards. */
  lemma ReallocWFIff(h: Heap, i: nat, newsize: nat)
    requires WF(h) && i + 1 < |h.blocks| && h.blocks[i].used
    ensures WF(Realloc(h, i, newsize).0) <==> !Overruns(h, i, newsize)
    ensures Realloc(h, i, newsize).1 == NULL ==> Realloc(h, i, newsize).0 == h
  {
    hide WF, Grow, Shrink, Move, Payload;
    var req := Request(newsize);
    PayloadBound(h, i);
    if req > Payload(h.blocks, i, HDR) {
      if Overruns(h, i, newsize) { OverrunBreaks(h, i, newsize); }
      else if CanGrow(h, i, req) { GrowWF(h, i, req); }
      else { MoveWF(h, i, req); }
    } else if req + HDR + MINIALLOC < Payload(h.blocks, i, HDR) {
      ShrinkWF(h, i, req);
    }
    PointerNotNull(h, i);
  }

  /** A stretch that is handed out belongs to the block its pointer names. */
  lemma LiveExtent(h: Heap, p: int, e: int)
    requires WF(h) && (p - HDR, e) in Extents(h.blocks)
    ensures Live(h, p) + 1 < |h.blocks| && Extent(h.blocks, Live(h, p)) == (p - HDR, e)
    ensures Payload(h.blocks, Live(h, p), HDR) == e - p
  {
    hide WF, At, Extents;
    var i := IndexOfExtent(h.blocks, (p - HDR, e));
    AtStart(h, i);
  }

  lemma GrowGives(h: Heap, i: nat, req: nat)
    requires WF(h) && i + 1 < |h.blocks| && h.blocks[i].used && req % ALIGN == 0
    requires req > Payload(h.blocks, i, HDR) && CanGrow(h, i, req) && req + MINIALLOC < WORD
    ensures Extents(Grow(h, i, req).blocks)
         == Extents(h.blocks) - {Extent(h.blocks, i)} + {(h.blocks[i].addr, h.blocks[i].addr + HDR + req)}
  {
    hide WF, Extents, Spaced, Split, CanGrow, Wrap;
    GrowRoom(h, i, req);
    SpacedOut(h);
    var bs, next := h.blocks, h.blocks[i].addr + HDR + req;
    AbsorbExtents(bs, HDR, i);
    AbsorbSpaced(bs, i);
    CutExtents(Absorb(bs, i), HDR, i, next);
    OneStart(bs, HDR, i);
    assert (bs[i].addr, bs[i + 2].addr) !in Extents(bs) - {Extent(bs, i)};
  }

  lemma AbsorbSpaced(bs: seq<Block>, i: nat)
    requires Spaced(bs, HDR) && i + 2 < |bs|
    ensures var s := Absorb(bs, i); Spaced(s, HDR) && i + 1 < |s| && s[i] == bs[i] && s[i + 1] == bs[i + 2]
  {
  }

  lemma ShrinkGives(h: Heap, i: nat, req: nat)
    requires WF(h) && i + 1 < |h.blocks| && h.blocks[i].used && req % ALIGN == 0
    requires req + HDR + MINIALLOC < Payload(h.blocks, i, HDR)
    ensures Extents(Shrink(h, i, req).blocks)
         == Extents(h.blocks) - {Extent(h.blocks, i)} + {(h.blocks[i].addr, h.blocks[i].addr + HDR + req)}
  {
    hide WF, Extents, Spaced, Release;
    SpacedOut(h);
    var bs, cut := h.blocks, h.blocks[i].addr + HDR + req;
    var s := Split(bs, i, cut, true);
    CutUsedExtents(bs, HDR, i, cut);
    SplitSpaced(bs, HDR, i, cut, true);
    ReleaseExtents(s, HDR, i + 1);
    OneStart(bs, HDR, i);
    assert (cut, bs[i + 1].addr) !in Extents(bs);
  }

  lemma MoveGives(h: Heap, i: nat, req: nat) returns (e: int)
    requires WF(h) && i + 1 < |h.blocks| && h.blocks[i].used && Move(h, i, req).1 != NULL
    ensures var (h', p) := Move(h, i, req);
            && Extents(h'.blocks) == Extents(h.blocks) - {Extent(h.blocks, i)} + {(p - HDR, e)}
            && Request(req) <= e - p < Request(req) + HDR + MINIALLOC && p != h.blocks[i].addr + HDR
  {
    hide WF, Extents, Alloc, Free, Live, At, Payload, Move;
    MoveWF(h, i, req);
    var h1, a := Alloc(h, req).0, h.blocks[i].addr;
    var k := AllocGives(h, req);
    e := h1.blocks[k + 1].addr;
    var j := At(h1.blocks, a);
    SpacedOut(h);
    SpacedOut(h1);
    OneStart(h.blocks, HDR, i);
    OneStart(h1.blocks, HDR, j);
    FreeStart(h, k, i);
    FreeGivesUp(h1, j);
    PayloadIs(h1, k);
    Ahead(h, i);
    LiveStart(h1, Alloc(h, req).1);
    assert Extent(h1.blocks, j) == Extent(h.blocks, i);
  }

  lemma PayloadIs(h: Heap, k: nat)
    requires k + 1 < |h.blocks|
    ensures Payload(h.blocks, k, HDR) == h.blocks[k + 1].addr - h.blocks[k].addr - HDR
  {
  }

  lemma Ahead(h: Heap, i: nat)
    requires WF(h) && i + 1 < |h.blocks|
    ensures h.blocks[i].addr < h.blocks[i + 1].addr
  {
  }

  lemma LiveStart(h: Heap, p: int)
    ensures Live(h, p) + 1 < |h.blocks| ==> h.blocks[Live(h, p)] == Block(p - HDR, true)
  {
  }

  lemma FreeStart(h: Heap, k: nat, i: nat)
    requires WF(h) && k < |h.blocks| && !h.blocks[k].used && i < |h.blocks| && h.blocks[i].used
    ensures h.blocks[k].addr != h.blocks[i].addr
  {
    assert k < i || i < k;
  }

  /** What a resize answers, for every heap and used block: at the pointer returned there is a block that holds the
      rounded size with at most a header and a smallest block to spare; it takes the place of the old one, and no other
      stretch of the pool changes hands. */
  lemma ReallocGives(h: Heap, i: nat, newsize: nat) returns (j: nat)
    requires WF(h) && i + 1 < |h.blocks| && h.blocks[i].used && !Overruns(h, i, newsize)
    requires Realloc(h, i, newsize).1 != NULL
    ensures var (h', p) := Realloc(h, i, newsize);
            && j == Live(h', p) && j + 1 < |h'.blocks|
            && Request(newsize) <= Payload(h'.blocks, j, HDR) <= Request(newsize) + HDR + MINIALLOC
            && Extents(h'.blocks) == Extents(h.blocks) - {Extent(h.blocks, i)} + {Extent(h'.blocks, j)}
  {
    hide WF, Extents, Grow, Shrink, Move, Live, CanGrow;
    ReallocWFIff(h, i, newsize);
    var (h', p) := Realloc(h, i, newsize);
    var req, size, e := Request(newsize), Payload(h.blocks, i, HDR), h.blocks[i + 1].addr;
    SpacedOut(h);
    OneStart(h.blocks, HDR, i);
    Ahead(h, i);
    if req > size {
      if CanGrow(h, i, req) { GrowGives(h, i, req); e := p + req; } else { RequestTwice(newsize); e := MoveGives(h, i, req); }
    } else if req + HDR + MINIALLOC < size {
      ShrinkGives(h, i, req);
      e := p + req;
    }
    assert Extents(h'.blocks) == Extents(h.blocks) - {Extent(h.blocks, i)} + {(p - HDR, e)};
    LiveExtent(h', p, e);
    j := Live(h', p);
  }

  lemma RequestTwice(n: nat)
    ensures Request(Request(n)) == Request(n)
  {
  }

  /** Block i can hold `req` bytes in place by taking room from the free block behind it. */
  predicate NextSupplies(h: Heap, i: nat, req: nat) {
    i + 2 < |h.blocks| && !h.blocks[i + 1].used && h.blocks[i + 2].addr - h.blocks[i].addr > req + HDR + HDR + MINIALLOC
  }

  /** When a resize fails, and when its block stays where it is. */
  lemma ReallocAnswerIff(h: Heap, i: nat, newsize: nat)
    requires WF(h) && i + 1 < |h.blocks| && h.blocks[i].used && !Overruns(h, i, newsize)
    ensures var (req, p) := (Request(newsize), Realloc(h, i, newsize).1);
            var fits := req <= Payload(h.blocks, i, HDR) || NextSupplies(h, i, req);
            && (p == h.blocks[i].addr + HDR <==> fits)
            && (p == NULL <==>
                  && !fits
                  && !(req < h.available
                       && exists k :: 0 <= k < |h.blocks| - 1 && !h.blocks[k].used && Payload(h.blocks, k, HDR) >= req))
  {
    hide WF, Grow, Shrink, Move;
    var req := Request(newsize);
    PointerNotNull(h, i);
    RequestTwice(newsize);
    SuppliesIff(h, i, newsize);
    if req > Payload(h.blocks, i, HDR) && !CanGrow(h, i, req) {
      hide CanGrow, Alloc;
      MoveWF(h, i, req);
      AllocSucceedsIff(h, req);
      if Move(h, i, req).1 != NULL { var e := MoveGives(h, i, req); }
    }
  }

  lemma SuppliesIff(h: Heap, i: nat, newsize: nat)
    requires WF(h) && i + 1 < |h.blocks| && !Overruns(h, i, newsize)
    ensures CanGrow(h, i, Request(newsize)) <==> NextSupplies(h, i, Request(newsize))
  {
    hide Layout, FreeExact, FreeBytes;
    LayoutFacts(h.blocks, h.pool - HDR, i);
    if i + 2 < |h.blocks| { LayoutFacts(h.blocks, h.pool - HDR, i + 1); }
  }

  lemma PayloadBound(h: Heap, i: nat)
    requires WF(h) && i + 1 < |h.blocks|
    ensures Payload(h.blocks, i, HDR) + HDR + HDR <= h.pool < WORD
  {
    LayoutFacts(h.blocks, h.pool - HDR, i);
  }

  /** The new header lands inside the header of the block that was to grow. */
  lemma OverrunBreaks(h: Heap, i: nat, newsize: nat)
    requires WF(h) && i + 1 < |h.blocks| && Overruns(h, i, newsize)
    ensures h.blocks[i].addr < Wrap(h.blocks[i].addr + HDR + Request(newsize)) < h.blocks[i].addr + HDR
    ensures !WF(Grow(h, i, Request(newsize)))
  {
    LayoutFacts(h.blocks, h.pool - HDR, i);
    var g := Grow(h, i, Request(newsize)).blocks;
    assert g[i] == h.blocks[i] && g[i + 1].addr == Wrap(h.blocks[i].addr + HDR + Request(newsize));
  }

  /** Sizes for which the guard can wrap, and when it holds then. */
  lemma OverrunsIff(h: Heap, i: nat, newsize: nat)
    requires WF(h) && i + 1 < |h.blocks| && newsize < WORD && Payload(h.blocks, i, HDR) >= MINIALLOC
    ensures Overruns(h, i, newsize) <==> 0xFFFF_FFF0 < newsize <= 0xFFFF_FFFC && !h.blocks[i + 1].used
  {
    LayoutFacts(h.blocks, h.pool - HDR, i);
    if !h.blocks[i + 1].used { NotLast(h, i + 1); }
  }

  lemma NotLast(h: Heap, i: nat)
    requires WF(h) && i < |h.blocks| && !h.blocks[i].used
    ensures i + 1 < |h.blocks| && Payload(h.blocks, i, HDR) >= 0
  {
    LayoutFacts(h.blocks, h.pool - HDR, i);
  }

  lemma PointerNotNull(h: Heap, i: nat)
    requires WF(h) && i + 1 < |h.blocks|
    ensures h.blocks[i].addr + HDR != NULL
  {
  }

  /** A call keeps the heap consistent exactly when Safe holds of it. */
  lemma StepWFIff(h: Heap, op: Op)
    requires WF(h)
    ensures WF(Step(h, op)) <==> Safe(h, op)
    ensures Step(h, op).pool == h.pool
  {
    hide WF, Alloc, Free, Realloc, Live, Overruns;
    match op
    case OpAlloc(size) => AllocWF(h, size);
    case OpFree(p) => if Live(h, p) + 1 < |h.blocks| { FreeWF(h, Live(h, p)); }
    case OpRealloc(p, size) =>
      if p == NULL { AllocWF(h, size); }
      else if Live(h, p) + 1 < |h.blocks| {
        if size == 0 { FreeWF(h, Live(h, p)); } else { ReallocWFIff(h, Live(h, p), size); }
      }
  }

  /** Over every history of safe calls the blocks tile the pool, no two free blocks touch, the free list holds
      exactly the free blocks and the byte count is exact. */
  lemma {:induction false} RunWF(h: Heap, ops: seq<Op>)
    requires WF(h) && AllSafe(h, ops)
    ensures WF(Run(h, ops))
    decreases |ops|
  {
    if ops != [] {
      hide WF, Step, Safe;
      StepWFIff(h, ops[0]);
      RunWF(Step(h, ops[0]), ops[1..]);
    }
  }

  /** A concrete history: one block is allocated and resized to a size near 2 to the 32. */
  lemma HugeResizeBreaks()
    ensures var h := Run(Init(1024), [OpAlloc(100)]);
            WF(h) && !WF(Step(h, OpRealloc(24, 0xFFFF_FFF4)))
  {
    hide WF, Alloc, Realloc, Overruns, Init;
    var h0 := Init(1024);
    InitWF(1024);
    AllocWF(h0, 100);
    FirstBlock();
    var h := Alloc(h0, 100).0;
    assert [OpAlloc(100)][1..] == [];
    OverrunsIff(h, 0, 0xFFFF_FFF4);
    StepWFIff(h, OpRealloc(24, 0xFFFF_FFF4));
  }

  lemma FirstBlock()
    ensures var h := Alloc(Init(1024), 100).0;
            h.blocks == [Block(0, true), Block(124, false), Block(1000, true)] && Live(h, 24) == 0
  {
    hide WF;
    var h0 := Init(1024);
    assert At(h0.blocks, 0) == 0;
    assert Carve(h0, 0, 100).blocks == [Block(0, true), Block(124, false), Block(1000, true)];
  }

  // ----- the high-water mark

  function Usage(h: Heap): int {
    h.pool - h.available
  }

  function Max(a: int, b: int): int {
    if a < b then b else a
  }

  /** Highest usage reached during one call; a moving realloc passes through the state in which both
      blocks are allocated. */
  function Reached(h: Heap, op: Op): int {
    if op.OpRealloc? && op.p != NULL && op.size > 0 && Live(h, op.p) + 1 < |h.blocks|
       && Request(op.size) > Payload(h.blocks, Live(h, op.p), HDR)
       && !CanGrow(h, Live(h, op.p), Request(op.size))
    then Max(Usage(Alloc(h, Request(op.size)).0), Usage(Step(h, op)))
    else Usage(Step(h, op))
  }

  function Peak(h: Heap, ops: seq<Op>): int
    decreases |ops|
  {
    if ops == [] then Usage(h)
    else Max(Usage(h), Max(Reached(h, ops[0]), Peak(Step(h, ops[0]), ops[1..])))
  }

  lemma FreeLowers(h: Heap, i: nat)
    requires WF(h) && i + 1 < |h.blocks|
    ensures Usage(Free(h, i)) <= Usage(h) && Free(h, i).maxUsed == h.maxUsed
  {
    hide Layout, FreeExact, FreeBytes, Release, Without;
    LayoutFacts(h.blocks, h.pool - HDR, i);
  }

  lemma StepMark(h: Heap, op: Op)
    requires WF(h)
    ensures Step(h, op).maxUsed == Max(h.maxUsed, Reached(h, op))
  {
    hide WF, Free, Alloc, Realloc, Usage, Live, CanGrow, Payload;
    UsageMarked(h);
    AllocMark(h, match op case OpAlloc(n) => n case OpFree(_) => 0 case OpRealloc(_, n) => n);
    match op
    case OpAlloc(size) =>
    case OpFree(p) => if Live(h, p) + 1 < |h.blocks| { FreeLowers(h, Live(h, p)); }
    case OpRealloc(p, size) =>
      var i := Live(h, p);
      if p != NULL && i + 1 < |h.blocks| {
        FreeLowers(h, i);
        if Request(size) > Payload(h.blocks, i, HDR) && !CanGrow(h, i, Request(size)) {
          MoveMark(h, i, size);
        } else {
          InPlaceMark(h, i, size);
        }
      }
  }

  lemma AllocMark(h: Heap, size: nat)
    requires WF(h)
    ensures Alloc(h, size).0.maxUsed == Max(h.maxUsed, Usage(Alloc(h, size).0))
  {
    hide Layout, FreeExact, FreeBytes, Split, Mark, RemoveAt, Choice, At;
  }

  lemma MoveMark(h: Heap, i: nat, size: nat)
    requires WF(h) && i + 1 < |h.blocks| && h.blocks[i].used
    requires Request(size) > Payload(h.blocks, i, HDR) && !CanGrow(h, i, Request(size))
    ensures Realloc(h, i, size).0.maxUsed
         == Max(h.maxUsed, Max(Usage(Alloc(h, Request(size)).0), Usage(Realloc(h, i, size).0)))
  {
    hide WF, Free, Alloc, Usage, CanGrow, Payload, Move;
    var req := Request(size);
    MoveWF(h, i, req);
    AllocMark(h, req);
    AllocSucceedsIff(h, req);
    if Alloc(h, req).1 != NULL {
      var h1 := Alloc(h, req).0;
      FreeLowers(h1, At(h1.blocks, h.blocks[i].addr));
    }
  }

  lemma InPlaceMark(h: Heap, i: nat, size: nat)
    requires WF(h) && i + 1 < |h.blocks|
    requires Request(size) > Payload(h.blocks, i, HDR) ==> CanGrow(h, i, Request(size))
    ensures Realloc(h, i, size).0.maxUsed == Max(h.maxUsed, Usage(Realloc(h, i, size).0))
  {
    LayoutFacts(h.blocks, h.pool - HDR, i);
    hide Layout, FreeExact, FreeBytes, Release, Without, Split, Absorb, CanGrow;
  }

  lemma UsageMarked(h: Heap)
    requires WF(h)
    ensures Usage(h) <= h.maxUsed
  {
    hide Layout, FreeExact, FreeBytes;
  }

  /** max_used_size is the highest usage the history has reached. */
  lemma {:induction false} HighWater(h: Heap, ops: seq<Op>)
    requires WF(h) && AllSafe(h, ops)
    ensures Run(h, ops).maxUsed == Max(h.maxUsed, Peak(h, ops))
    decreases |ops|
  {
    hide WF, Step, Reached, Usage, Safe;
    UsageMarked(h);
    if ops != [] {
      StepWFIff(h, ops[0]);
      StepMark(h, ops[0]);
      HighWater(Step(h, ops[0]), ops[1..]);
    }
  }
}
