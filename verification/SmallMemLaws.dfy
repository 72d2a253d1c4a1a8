/** What the small-memory heap promises, for every heap, request and history. */
module SmallMemLaws {
  import opened Rings
  import opened Blocks
  import opened Stretches
  import opened SmallMemSpec

  lemma InitWF(begin: nat, end: nat)
    requires InitOk(begin, end) && Init(begin, end).size >= MIN_SIZE
    ensures WF(Init(begin, end)) && Lowest(Init(begin, end)) && Extents(Init(begin, end).blocks) == {}
    ensures exists b :: begin <= b < begin + ALIGN && b % ALIGN == 0 && b + Init(begin, end).size + 2 * HDR <= end < b + Init(begin, end).size + 2 * HDR + ALIGN
  {
    var bs := Init(begin, end).blocks;
    var b := (begin + 3) / 4 * 4;
    assert begin <= b < begin + ALIGN && b % ALIGN == 0;
    assert bs[0] in Members(bs);
    assert UsedExtent(bs[1..]) == 0;
  }

  /** Where the search of rt_malloc stands after k rounds that found nothing; heap_end links to itself. */
  function Walk(bs: seq<Block>, i: nat, k: nat): (j: nat)
    requires i < |bs|
    ensures j < |bs|
    decreases k
  {
    if k == 0 || i + 1 == |bs| then i else Walk(bs, i + 1, k - 1)
  }

  /** The search goes on behind block i; its bound is a 32-bit difference. */
  predicate GoesOn(m: Mem, i: nat, req: nat)
    requires i < |m.blocks|
  {
    m.blocks[i].addr < (m.size - req) % WORD && !(i + 1 < |m.blocks| && Fits(m.blocks, i, req))
  }

  /** On a heap just made, a request that passes the size check is searched for without end exactly when the heap is
      smaller than the smallest block. */
  lemma SearchHangsIff(begin: nat, end: nat, n: nat)
    requires begin < WORD && end < WORD && InitOk(begin, end) && n > 0 && Align(n) <= Init(begin, end).size
    ensures var m := Init(begin, end);
            (forall k: nat :: GoesOn(m, Walk(m.blocks, 0, k), Request(n))) <==> m.size < MIN_SIZE
  {
    var m := Init(begin, end);
    if m.size >= MIN_SIZE {
      assert Walk(m.blocks, 0, 1) == 1;
      assert !GoesOn(m, Walk(m.blocks, 0, 1), Request(n));
    } else {
      forall k: nat ensures GoesOn(m, Walk(m.blocks, 0, k), Request(n)) {
        if k > 0 { assert Walk(m.blocks, 0, k) == Walk(m.blocks, 1, k - 1) == 1; }
      }
    }
  }

  lemma LayoutFacts(bs: seq<Block>, hi: int, i: nat)
    requires Layout(bs, hi) && i + 1 < |bs|
    ensures bs[|bs| - 1] == Block(hi, true) && Spaced(bs, HDR)
    ensures 0 <= bs[i].addr && bs[i].addr + HDR <= bs[i + 1].addr <= hi
    ensures bs[i].addr % ALIGN == 0 && bs[i + 1].addr % ALIGN == 0
    ensures bs[i] in Members(bs) && bs[i + 1] in Members(bs)
    ensures Block(bs[i].addr, !bs[i].used) !in Members(bs)
    ensures !bs[i].used ==> bs[i + 1].used && (i > 0 ==> bs[i - 1].used)
  {
    IsMember(bs, i);
    IsMember(bs, i + 1);
    OneFlag(bs, HDR, i);
  }

  // ----- malloc

  lemma TakenLayout(bs: seq<Block>, hi: int, i: nat, req: nat)
    requires Layout(bs, hi) && i + 1 < |bs| && !bs[i].used && req % ALIGN == 0
    ensures Layout(Taken(bs, i, req), hi)
    ensures Members(Taken(bs, i, req)) == Members(bs) - {bs[i]} + {Block(bs[i].addr, true)}
              + (if Payload(bs, i, HDR) >= req + HDR + MIN_SIZE
                 then {Block(bs[i].addr + HDR + req, false)} else {})
  {
    hide Spaced, NoAdjacentFree, Members, Split, AlignedTo;
    LayoutFacts(bs, hi, i);
    MarkKeeps(bs, 0, hi, HDR, i, true);
    MarkSeparates(bs, i);
    var rest := bs[i].addr + HDR + req;
    if Payload(bs, i, HDR) >= req + HDR + MIN_SIZE {
      SplitKeeps(Mark(bs, i, true), 0, hi, HDR, i, rest, false);
      SplitSeparates(Mark(bs, i, true), i, rest);
      Rounded(bs[i].addr, req);
    }
    AlignedMore(bs, Taken(bs, i, req), bs[i], rest);
  }

  lemma Rounded(a: int, req: nat)
    requires a % ALIGN == 0 && req % ALIGN == 0
    ensures (a + HDR + req) % ALIGN == 0
  {
  }

  lemma AlignedMore(bs: seq<Block>, t: seq<Block>, b: Block, rest: int)
    requires AlignedTo(bs, ALIGN) && b.addr % ALIGN == 0
    requires forall x :: x in Members(t) ==> x in Members(bs) || x.addr == b.addr || (x.addr == rest && rest % ALIGN == 0)
    ensures AlignedTo(t, ALIGN)
  {
    hide Members;
  }

  lemma TakenAt(bs: seq<Block>, i: nat, req: nat)
    requires i + 1 < |bs|
    ensures var t := Taken(bs, i, req);
            && i + 1 < |t| && t[i] == Block(bs[i].addr, true)
            && forall k :: 0 <= k < i ==> t[k] == bs[k]
  {
  }

  lemma TakenBytes(bs: seq<Block>, i: nat, req: nat)
    requires i + 1 < |bs| && !bs[i].used
    ensures UsedExtent(Taken(bs, i, req)) == UsedExtent(bs)
              + (if Payload(bs, i, HDR) >= req + HDR + MIN_SIZE then req + HDR else bs[i + 1].addr - bs[i].addr)
  {
    hide FreeBytes, UsedExtent, Split;
    MarkSums(bs, i, true, HDR);
    if Payload(bs, i, HDR) >= req + HDR + MIN_SIZE {
      SplitSums(Mark(bs, i, true), i, bs[i].addr + HDR + req, false, HDR);
    }
  }

  /** The advanced hint is a free block, or the end; everything it skipped is used. */
  lemma {:induction false} NextFreeIs(bs: seq<Block>, hi: int, i: nat) returns (k: nat)
    requires Layout(bs, hi) && i < |bs|
    ensures i <= k < |bs| && NextFree(bs, i) == bs[k].addr && (bs[k].used ==> k == |bs| - 1)
    ensures forall j :: i <= j < k ==> bs[j].used
    ensures HintOnBlock(bs, hi, NextFree(bs, i))
    decreases |bs| - i
  {
    if !bs[i].used || i + 1 == |bs| {
      k := i;
      IsMember(bs, i);
    } else {
      hide Layout, HintOnBlock;
      k := NextFreeIs(bs, hi, i + 1);
    }
  }

  lemma TakeWF(m: Mem, i: nat, req: nat)
    requires WF(m) && i + 1 < |m.blocks| && !m.blocks[i].used && req % ALIGN == 0
    ensures WF(Take(m, i, req))
  {
    hide Layout, Members, UsedExtent, Taken, NextFree;
    var hi, t := m.size + HDR, Taken(m.blocks, i, req);
    TakenLayout(m.blocks, hi, i, req);
    TakenAt(m.blocks, i, req);
    TakenBytes(m.blocks, i, req);
    if m.blocks[i].addr == m.lfree {
      var k := NextFreeIs(t, hi, i);
    }
  }

  lemma MallocWF(m: Mem, n: nat)
    requires WF(m)
    ensures WF(Malloc(m, n).0)
  {
    var i := Choice(m, n);
    if i + 1 < |m.blocks| {
      hide WF, Take;
      TakeWF(m, i, Request(n));
    }
  }

  /** The hint is the index of a block. */
  lemma HintIndex(m: Mem)
    requires WF(m)
    ensures At(m.blocks, m.lfree) < |m.blocks|
    ensures m.blocks[At(m.blocks, m.lfree)].addr == m.lfree
  {
    if m.lfree != m.size + HDR {
      assert Block(m.lfree, false) in m.blocks;
      var k :| 0 <= k < |m.blocks| && m.blocks[k] == Block(m.lfree, false);
      AtUnique(m.blocks, 0, m.size + HDR, HDR, k);
    } else {
      AtUnique(m.blocks, 0, m.size + HDR, HDR, |m.blocks| - 1);
    }
  }

  lemma {:induction false} SearchMisses(bs: seq<Block>, i: nat, limit: int, req: int, k: nat)
    requires Spaced(bs, HDR) && i <= k && k + 1 < |bs| && bs[k].addr < limit
    requires Search(bs, i, limit, req) == |bs|
    ensures !Fits(bs, k, req)
    decreases |bs| - i
  {
    if i < k {
      SearchMisses(bs, i + 1, limit, req, k);
    }
  }

  /** The search bound excludes a fitting block only when it is the last one and fits exactly. */
  lemma BoundExcludes(m: Mem, k: nat, req: nat)
    requires WF(m) && k + 1 < |m.blocks| && Fits(m.blocks, k, req)
    ensures m.blocks[k].addr >= m.size - req <==> k + 2 == |m.blocks| && Payload(m.blocks, k, HDR) == req
  {
    LayoutFacts(m.blocks, m.size + HDR, k);
    if k + 2 < |m.blocks| { LayoutFacts(m.blocks, m.size + HDR, k + 1); }
  }

  lemma BelowHint(m: Mem)
    requires WF(m) && Lowest(m)
    ensures At(m.blocks, m.lfree) < |m.blocks| && Spaced(m.blocks, HDR)
    ensures forall k :: 0 <= k < At(m.blocks, m.lfree) ==> m.blocks[k].used
  {
    HintIndex(m);
    var h := At(m.blocks, m.lfree);
    forall k | 0 <= k < h ensures m.blocks[k].used {
      IsMember(m.blocks, k);
      assert m.blocks[k].addr < m.blocks[h].addr;
    }
  }

  /** Skipping the blocks below lfree does not change which block is chosen. */
  lemma FirstFitFromStart(m: Mem, n: nat)
    requires WF(m) && Lowest(m) && n > 0 && Align(n) <= m.size
    ensures Choice(m, n) == Search(m.blocks, 0, m.size - Request(n), Request(n))
  {
    hide WF, Lowest, Spaced, Search;
    BelowHint(m);
    SkipUsed(m.blocks, 0, m.size - Request(n), Request(n), At(m.blocks, m.lfree));
  }

  lemma {:induction false} SkipUsed(bs: seq<Block>, i: nat, limit: int, req: int, j: nat)
    requires i <= j < |bs| && Spaced(bs, HDR)
    requires forall k :: i <= k < j ==> bs[k].used
    ensures Search(bs, i, limit, req) == Search(bs, j, limit, req)
    decreases j - i
  {
    if i < j {
      SkipUsed(bs, i + 1, limit, req, j);
      assert bs[i].addr <= bs[j].addr;
    }
  }

  /** rt_malloc fails only for a request of zero or beyond the heap size, or when no free block from lfree on fits,
      leaving out an exact fit that ends at heap_end. */
  lemma MallocFailsFromHintIff(m: Mem, n: nat)
    requires WF(m)
    ensures Malloc(m, n).1 == NULL <==>
              || n == 0 || Align(n) > m.size
              || (forall k :: 0 <= k < |m.blocks| - 1 && m.lfree <= m.blocks[k].addr && Fits(m.blocks, k, Request(n)) ==>
                    k + 2 == |m.blocks| && Payload(m.blocks, k, HDR) == Request(n))
    ensures Malloc(m, n).1 == NULL ==> Malloc(m, n).0 == m
  {
    hide WF, Search, Payload, Fits, Request, Align;
    var bs, req, limit := m.blocks, Request(n), m.size - Request(n);
    var i := Choice(m, n);
    HintIndex(m);
    if n > 0 && Align(n) <= m.size {
      if i + 1 < |bs| {
        HintBefore(m, i);
        BoundExcludes(m, i, req);
        BlockStart(m, i);
      } else {
        forall k | 0 <= k < |bs| - 1 && m.lfree <= bs[k].addr && Fits(bs, k, req)
          ensures k + 2 == |bs| && Payload(bs, k, HDR) == req
        {
          BoundExcludes(m, k, req);
          HintNotAfter(m, k);
          if bs[k].addr < limit { SearchMisses(bs, At(bs, m.lfree), limit, req, k); }
        }
      }
    }
  }

  lemma HintNotAfter(m: Mem, k: nat)
    requires WF(m) && k < |m.blocks| && m.lfree <= m.blocks[k].addr
    ensures At(m.blocks, m.lfree) <= k && Spaced(m.blocks, HDR)
  {
    HintIndex(m);
  }

  /** With an exact hint no fitting block is missed. */
  lemma MallocFailsIff(m: Mem, n: nat)
    requires WF(m) && Lowest(m)
    ensures Malloc(m, n).1 == NULL <==>
              || n == 0 || Align(n) > m.size
              || (forall k :: 0 <= k < |m.blocks| - 1 && Fits(m.blocks, k, Request(n)) ==>
                    k + 2 == |m.blocks| && Payload(m.blocks, k, HDR) == Request(n))
  {
    hide WF, Lowest, Payload, Request, Align, Malloc;
    MallocFailsFromHintIff(m, n);
    forall k | 0 <= k < |m.blocks| - 1 && Fits(m.blocks, k, Request(n)) ensures m.lfree <= m.blocks[k].addr {
      FreeNotBelow(m, k);
    }
  }

  lemma FreeNotBelow(m: Mem, k: nat)
    requires WF(m) && Lowest(m) && k < |m.blocks| && !m.blocks[k].used
    ensures m.lfree <= m.blocks[k].addr
  {
    IsMember(m.blocks, k);
  }

  /** What a caller gets: an aligned block that was free and is used now, and holds the rounded request with less than a
      header and a smallest block to spare; no other stretch of the heap changes hands. */
  lemma MallocGives(m: Mem, n: nat) returns (i: nat)
    requires WF(m) && Malloc(m, n).1 != NULL
    ensures var (m1, p) := Malloc(m, n);
            && i == Live(m1, p) && i + 1 < |m1.blocks| && p % ALIGN == 0
            && Request(n) <= Payload(m1.blocks, i, HDR) < Request(n) + HDR + MIN_SIZE
            && Extents(m1.blocks) == Extents(m.blocks) + {Extent(m1.blocks, i)}
            && i + 1 < |m.blocks| && m.blocks[i] == Block(p - HDR, false) && m1.blocks == Taken(m.blocks, i, Request(n))
  {
    hide WF, At, Search, Live, Take, Payload, Extents, Taken;
    i := Choice(m, n);
    var m1 := Malloc(m, n).0;
    TakeWF(m, i, Request(n));
    TakeGives(m, i, Request(n));
    LiveIndex(m1, i);
    SpacedOut(m);
    TakenExtents(m.blocks, i, Request(n));
  }

  lemma TakeGives(m: Mem, i: nat, req: nat)
    requires WF(m) && i + 1 < |m.blocks| && !m.blocks[i].used && req % ALIGN == 0 && Payload(m.blocks, i, HDR) >= req
    ensures var m1 := Take(m, i, req);
            && m1.blocks == Taken(m.blocks, i, req) && i + 1 < |m1.blocks| && m1.blocks[i] == Block(m.blocks[i].addr, true)
            && req <= Payload(m1.blocks, i, HDR) < req + HDR + MIN_SIZE
    ensures m.blocks[i].addr % ALIGN == 0
  {
    hide Layout, HintOnBlock, UsedExtent, NextFree, Taken;
    LayoutFacts(m.blocks, m.size + HDR, i);
    TakenAt(m.blocks, i, req);
    TakenExtent(m.blocks, i, req);
  }

  lemma TakenExtents(bs: seq<Block>, i: nat, req: nat)
    requires Spaced(bs, HDR) && i + 1 < |bs| && !bs[i].used && i + 1 < |Taken(bs, i, req)|
    ensures Extents(Taken(bs, i, req)) == Extents(bs) + {Extent(Taken(bs, i, req), i)}
  {
    hide Extents;
    MarkExtents(bs, HDR, i);
    var m := Mark(bs, i, true);
    assert Spaced(m, HDR);
    hide Spaced;
    if Payload(bs, i, HDR) >= req + HDR + MIN_SIZE {
      CutExtents(m, HDR, i, bs[i].addr + HDR + req);
      FreeHasNone(bs, HDR, i);
    }
  }

  lemma SpacedOut(m: Mem)
    requires WF(m)
    ensures Spaced(m.blocks, HDR) && |m.blocks| > 0 && m.blocks[|m.blocks| - 1].used && m.size >= MIN_SIZE
  {
  }

  /** Which block that is: no free block between the hint and it holds the request. */
  lemma MallocFirstFit(m: Mem, n: nat, k: nat)
    requires WF(m) && Malloc(m, n).1 != NULL && k + 1 < |m.blocks|
    requires m.lfree <= m.blocks[k].addr < Malloc(m, n).1 - HDR
    ensures !Fits(m.blocks, k, Request(n))
  {
    hide WF, Search, Fits, Take;
    HintNotAfter(m, k);
    BlockStart(m, Choice(m, n));
    Before(m, k, Choice(m, n));
    SearchSkips(m.blocks, At(m.blocks, m.lfree), m.size - Request(n), Request(n), k);
  }

  lemma Before(m: Mem, k: nat, i: nat)
    requires WF(m) && k < |m.blocks| && i < |m.blocks| && m.blocks[k].addr < m.blocks[i].addr
    ensures k < i
  {
    Rising(m.blocks, HDR);
  }

  lemma {:induction false} SearchSkips(bs: seq<Block>, i: nat, limit: int, req: int, k: nat)
    requires i <= k < Search(bs, i, limit, req) < |bs|
    ensures !Fits(bs, k, req)
    decreases |bs| - i
  {
    if i < k { SearchSkips(bs, i + 1, limit, req, k); }
  }

  /** The rounded request covers the size asked for except for the three sizes whose rounding wraps. */
  lemma RequestCovers(n: nat)
    requires n < WORD
    ensures Request(n) >= n <==> n <= 0xFFFF_FFFC
  {
  }

  lemma BlockStart(m: Mem, i: nat)
    requires WF(m) && i < |m.blocks|
    ensures 0 <= m.blocks[i].addr <= m.size + HDR
  {
  }

  // ----- free

  lemma ReleaseLayout(bs: seq<Block>, hi: int, i: nat)
    requires Layout(bs, hi) && i + 1 < |bs| && bs[i].used
    ensures Layout(Release(bs, i), hi)
    ensures Release(bs, i) == Coalesce(Mark(bs, i, false))
  {
    hide Spaced, NoAdjacentFree, Members, Release, Mark, Coalesce;
    LayoutFacts(bs, hi, i);
    ReleaseKeeps(bs, 0, hi, HDR, i);
    ReleaseIsCoalesce(bs, i);
    CoalesceSeparates(Mark(bs, i, false));
  }

  /** plug_holes moves lfree off every header it removes. */
  lemma PlugHint(bs: seq<Block>, hi: int, i: nat, l: int)
    requires Layout(bs, hi) && i + 1 < |bs| && bs[i].used
    requires l == bs[i].addr || HintOnBlock(bs, hi, l)
    ensures HintOnBlock(Release(bs, i), hi, HintAfterPlug(bs, i, l))
  {
    hide Spaced, NoAdjacentFree, Release, Members, AlignedTo;
    LayoutFacts(bs, hi, i);
    if i > 0 { LayoutFacts(bs, hi, i - 1); }
    ReleaseKeeps(bs, 0, hi, HDR, i);
    if !bs[i + 1].used { SentinelUsed(bs, hi, i + 1); }
  }

  lemma SentinelUsed(bs: seq<Block>, hi: int, k: nat)
    requires Layout(bs, hi) && k < |bs| && !bs[k].used
    ensures k + 1 < |bs| && bs[k].addr < hi
  {
    LayoutFacts(bs, hi, k);
  }

  lemma FreeWF(m: Mem, i: nat)
    requires WF(m) && i + 1 < |m.blocks| && m.blocks[i].used
    ensures WF(Free(m, i))
    ensures Free(m, i).blocks == Coalesce(Mark(m.blocks, i, false))
  {
    hide Layout, HintOnBlock, UsedExtent, Release, Coalesce, HintAfterPlug;
    var hi := m.size + HDR;
    LayoutFacts(m.blocks, hi, i);
    ReleaseLayout(m.blocks, hi, i);
    PlugHint(m.blocks, hi, i, if m.blocks[i].addr < m.lfree then m.blocks[i].addr else m.lfree);
    ReleaseSums(m.blocks, i, HDR);
  }

  /** Exactly the stretch of the block stops being handed out. */
  lemma FreeGivesUp(m: Mem, i: nat)
    requires WF(m) && i + 1 < |m.blocks| && m.blocks[i].used
    ensures Extents(Free(m, i).blocks) == Extents(m.blocks) - {Extent(m.blocks, i)}
  {
    hide WF, Extents, Release, HintAfterPlug;
    SpacedOut(m);
    ReleaseExtents(m.blocks, HDR, i);
  }

  /** The heap is determined by the stretches handed out. */
  lemma HeapDetermined(m: Mem, m': Mem)
    requires WF(m) && WF(m') && m.size == m'.size && Extents(m.blocks) == Extents(m'.blocks)
    ensures m.blocks == m'.blocks && m.usedMem == m'.usedMem
  {
    hide Extents;
    ExtentsDetermine(m.blocks, m'.blocks, HDR);
  }

  // ----- realloc

  lemma CutLayout(bs: seq<Block>, hi: int, i: nat, cut: int)
    requires Layout(bs, hi) && i + 1 < |bs| && bs[i].used
    requires bs[i].addr + HDR <= cut && cut + HDR <= bs[i + 1].addr && cut % ALIGN == 0
    ensures Layout(Split(bs, i, cut, true), hi)
    ensures Members(Split(bs, i, cut, true)) == Members(bs) + {Block(cut, true)}
  {
    hide Spaced, NoAdjacentFree, Members;
    SplitKeeps(bs, 0, hi, HDR, i, cut, true);
    SplitUsedSeparates(bs, i, cut);
  }

  lemma ShrinkWF(m: Mem, i: nat, n: nat)
    requires WF(m) && i + 1 < |m.blocks| && m.blocks[i].used && n % ALIGN == 0 && Shrinks(m, i, n)
    ensures WF(Shrink(m, i, n))
  {
    hide Layout, UsedExtent, Release, HintAfterPlug, Members, Coalesce;
    var bs, hi, cut := m.blocks, m.size + HDR, m.blocks[i].addr + HDR + n;
    var s := Split(bs, i, cut, true);
    LayoutFacts(bs, hi, i);
    CutLayout(bs, hi, i, cut);
    ReleaseLayout(s, hi, i + 1);
    PlugHint(s, hi, i + 1, m.lfree);
    SplitSums(bs, i, cut, true, HDR);
    LayoutFacts(s, hi, i + 1);
    ReleaseSums(s, i + 1, HDR);
  }

  lemma FindMember(m: Mem, b: Block)
    requires WF(m) && b in Members(m.blocks) && b.addr < m.size + HDR
    ensures At(m.blocks, b.addr) + 1 < |m.blocks| && m.blocks[At(m.blocks, b.addr)] == b
  {
    var k :| 0 <= k < |m.blocks| && m.blocks[k] == b;
    AtUnique(m.blocks, 0, m.size + HDR, HDR, k);
  }

  lemma MallocKeepsUsed(m: Mem, n: nat, b: Block)
    requires WF(m) && b in Members(m.blocks) && b.used
    ensures b in Members(Malloc(m, n).0.blocks)
  {
    var i := Choice(m, n);
    if i + 1 < |m.blocks| {
      hide Layout, Members, Taken, Search;
      TakenLayout(m.blocks, m.size + HDR, i, Request(n));
    }
  }

  /** A moving realloc allocates first; when that succeeds the old block is found again and freed. */
  lemma MoveWF(m: Mem, i: nat, n: nat)
    requires WF(m) && i + 1 < |m.blocks| && m.blocks[i].used
    ensures WF(Move(m, i, n).0) && Move(m, i, n).1 == Malloc(m, n).1
    ensures Move(m, i, n).1 == NULL ==> Move(m, i, n).0 == m
    ensures Move(m, i, n).1 != NULL ==>
              (var m1 := Malloc(m, n).0;
               var j := At(m1.blocks, m.blocks[i].addr);
               && WF(m1) && j + 1 < |m1.blocks| && m1.blocks[j] == m.blocks[i]
               && Move(m, i, n).0 == Free(m1, j))
  {
    hide WF, Malloc, Members, Free;
    MallocWF(m, n);
    MallocNull(m, n);
    if Malloc(m, n).1 != NULL {
      var m1 := Malloc(m, n).0;
      UsedBlock(m, i);
      MallocKeepsUsed(m, n, m.blocks[i]);
      FindMember(m1, m.blocks[i]);
      FreeWF(m1, At(m1.blocks, m.blocks[i].addr));
    }
  }

  lemma UsedBlock(m: Mem, i: nat)
    requires WF(m) && i + 1 < |m.blocks|
    ensures m.blocks[i] in Members(m.blocks) && 0 <= m.blocks[i].addr < m.size + HDR
  {
    LayoutFacts(m.blocks, m.size + HDR, i);
  }

  lemma MallocNull(m: Mem, n: nat)
    requires WF(m)
    ensures Malloc(m, n).1 == NULL ==> Malloc(m, n).0 == m
  {
    var i := Choice(m, n);
    if i + 1 < |m.blocks| { BlockStart(m, i); }
  }

  lemma ShrinkGives(m: Mem, i: nat, n: nat)
    requires WF(m) && i + 1 < |m.blocks| && m.blocks[i].used && Shrinks(m, i, n)
    ensures Extents(Shrink(m, i, n).blocks)
         == Extents(m.blocks) - {Extent(m.blocks, i)} + {(m.blocks[i].addr, m.blocks[i].addr + HDR + n)}
  {
    hide WF, Extents, Spaced, Release, HintAfterPlug;
    SpacedOut(m);
    var bs, cut := m.blocks, m.blocks[i].addr + HDR + n;
    var s := Split(bs, i, cut, true);
    CutUsedExtents(bs, HDR, i, cut);
    SplitSpaced(bs, HDR, i, cut, true);
    ReleaseExtents(s, HDR, i + 1);
    OneStart(bs, HDR, i);
    assert (cut, bs[i + 1].addr) !in Extents(bs);
  }

  lemma MoveGives(m: Mem, i: nat, n: nat) returns (e: int)
    requires WF(m) && i + 1 < |m.blocks| && m.blocks[i].used && Move(m, i, n).1 != NULL
    ensures var (m', p) := Move(m, i, n);
            && Extents(m'.blocks) == Extents(m.blocks) - {Extent(m.blocks, i)} + {(p - HDR, e)}
            && Request(n) <= e - p < Request(n) + HDR + MIN_SIZE && p != m.blocks[i].addr + HDR && 0 <= p && p <= e
  {
    hide WF, Extents, Malloc, Free, Live, At, Payload, Move, Taken;
    MoveWF(m, i, n);
    var m1, a := Malloc(m, n).0, m.blocks[i].addr;
    var k := MallocGives(m, n);
    e := m1.blocks[k + 1].addr;
    var j := At(m1.blocks, a);
    SpacedOut(m);
    SpacedOut(m1);
    OneStart(m.blocks, HDR, i);
    OneStart(m1.blocks, HDR, j);
    FreeStart(m, k, i);
    FreeGivesUp(m1, j);
    BlockStart(m, k);
    UsedBlock(m1, k);
    Rising(m.blocks, HDR);
    LiveStart(m1, Malloc(m, n).1);
    PayloadIs(m1, k);
    assert Extent(m1.blocks, j) == Extent(m.blocks, i);
  }

  lemma PayloadIs(m: Mem, k: nat)
    requires k + 1 < |m.blocks|
    ensures Payload(m.blocks, k, HDR) == m.blocks[k + 1].addr - m.blocks[k].addr - HDR
  {
  }

  lemma LiveStart(m: Mem, p: int)
    ensures Live(m, p) + 1 < |m.blocks| ==> m.blocks[Live(m, p)] == Block(p - HDR, true) && 0 <= p < m.size + HDR
  {
  }

  lemma FreeStart(m: Mem, k: nat, i: nat)
    requires WF(m) && k < |m.blocks| && !m.blocks[k].used && i < |m.blocks| && m.blocks[i].used
    ensures m.blocks[k].addr != m.blocks[i].addr
  {
    assert k < i || i < k;
  }

  /** A stretch that is handed out belongs to the block its pointer names. */
  lemma LiveExtent(m: Mem, p: int, e: int)
    requires WF(m) && (p - HDR, e) in Extents(m.blocks) && p < e
    ensures Live(m, p) + 1 < |m.blocks| && Extent(m.blocks, Live(m, p)) == (p - HDR, e)
    ensures Payload(m.blocks, Live(m, p), HDR) == e - p
  {
    var i := IndexOfExtent(m.blocks, (p - HDR, e));
    LayoutFacts(m.blocks, m.size + HDR, i);
    LiveIndex(m, i);
  }

  /** The size asked for is one that can be had, and the block holds it exactly or much more. */
  predicate StaysPut(m: Mem, i: nat, n: nat)
    requires i + 1 < |m.blocks|
  {
    0 < n <= m.size && (Payload(m.blocks, i, HDR) == n || n + HDR + MIN_SIZE < Payload(m.blocks, i, HDR))
  }

  /** What a resize answers, for every heap and live pointer: at the pointer returned there is a block that holds the
      rounded size, exactly when it has not moved and else with less than a header and a smallest block to spare; it
      takes the place of the old one, and no other stretch of the heap changes hands. */
  lemma ReallocGives(m: Mem, p: int, newsize: nat) returns (j: nat)
    requires WF(m) && Live(m, p) + 1 < |m.blocks| && Realloc(m, p, newsize).1 != NULL
    ensures var (m', r) := Realloc(m, p, newsize);
            var n := Align(newsize);
            && j == Live(m', r) && j + 1 < |m'.blocks|
            && (r == p ==> Payload(m'.blocks, j, HDR) == n)
            && (r != p ==> Request(n) <= Payload(m'.blocks, j, HDR) < Request(n) + HDR + MIN_SIZE)
            && Extents(m'.blocks) == Extents(m.blocks) - {Extent(m.blocks, Live(m, p))} + {Extent(m'.blocks, j)}
  {
    hide WF, Extents, Malloc, Shrink, Move, Free, Live, Align;
    LiveStart(m, p);
    AlignMultiple(newsize);
    ReallocWF(m, p, newsize);
    var (m', r) := Realloc(m, p, newsize);
    var n, i := Align(newsize), Live(m, p);
    var e := p + n;
    SpacedOut(m);
    OneStart(m.blocks, HDR, i);
    UsedBlock(m, i);
    Rising(m.blocks, HDR);
    if !StaysPut(m, i, n) {
      e := MoveGives(m, i, n);
    } else if Payload(m.blocks, i, HDR) != n {
      ShrinkGives(m, i, n);
    }
    assert Extents(m'.blocks) == Extents(m.blocks) - {Extent(m.blocks, i)} + {(r - HDR, e)};
    LiveExtent(m', r, e);
    j := Live(m', r);
  }

  /** When a resize fails, when it is a free, and when the block stays where it is. */
  lemma ReallocAnswerIff(m: Mem, p: int, newsize: nat)
    requires WF(m) && Live(m, p) + 1 < |m.blocks|
    ensures var (m', r) := Realloc(m, p, newsize);
            var (n, i) := (Align(newsize), Live(m, p));
            && (r == p <==> StaysPut(m, i, n))
            && (r == NULL <==> !StaysPut(m, i, n) && (n == 0 || Malloc(m, newsize).1 == NULL))
            && (r == NULL && n > 0 ==> m' == m)
            && (n == 0 ==> Extents(m'.blocks) == Extents(m.blocks) - {Extent(m.blocks, i)})
  {
    hide WF, Extents, Malloc, Shrink, Move, Free, Live, Align, Request;
    LiveStart(m, p);
    SpacedOut(m);
    var n, i := Align(newsize), Live(m, p);
    if n == 0 { FreeGivesUp(m, i); }
    SameMalloc(m, newsize);
    if n > m.size { TooLarge(m, newsize); }
    else if n > 0 && !StaysPut(m, i, n) {
      MoveWF(m, i, n);
      if Move(m, i, n).1 != NULL { var e := MoveGives(m, i, n); }
    }
  }

  lemma TooLarge(m: Mem, n: nat)
    requires Align(n) > m.size
    ensures Malloc(m, n) == (m, NULL)
  {
  }

  lemma SameMalloc(m: Mem, n: nat)
    ensures Align(n) > 0 ==> Malloc(m, Align(n)) == Malloc(m, n)
    ensures n == 0 ==> Align(n) == 0
  {
    AlignAgain(n);
    hide Align, Search, Take, At;
  }

  lemma AlignAgain(n: nat)
    ensures Align(Align(n)) == Align(n) && Align(0) == 0
  {
  }

  /** Without a block rt_realloc is rt_malloc, unless the rounding of the size wraps. */
  lemma ReallocNothing(m: Mem, n: nat)
    requires n <= 0xFFFF_FFFC
    ensures Realloc(m, NULL, n) == Malloc(m, n)
  {
    hide Malloc;
    SameMalloc(m, n);
    if n == 0 { NothingAsked(m); }
    if Align(n) > m.size { TooLarge(m, n); }
  }

  lemma NothingAsked(m: Mem)
    ensures Malloc(m, 0) == (m, NULL)
  {
  }

  lemma ReallocWF(m: Mem, p: int, newsize: nat)
    requires WF(m)
    ensures WF(Realloc(m, p, newsize).0)
  {
    hide WF, Malloc, Free, Shrink, Move, Live, Shrinks, Payload;
    var n, i := Align(newsize), Live(m, p);
    MallocWF(m, n);
    if i + 1 < |m.blocks| {
      FreeWF(m, i);
      MoveWF(m, i, n);
      if Shrinks(m, i, n) { ShrinkWF(m, i, n); }
    }
  }

  lemma StepWF(m: Mem, op: Op)
    requires WF(m)
    ensures WF(Step(m, op))
  {
    hide WF, Malloc, Free, Realloc, Live;
    match op
    case OpMalloc(n) => MallocWF(m, n);
    case OpFree(p) => if Live(m, p) + 1 < |m.blocks| { FreeWF(m, Live(m, p)); }
    case OpRealloc(p, n) => ReallocWF(m, p, n);
  }

  /** Over every history the headers tile the heap, no two free blocks touch, lfree sits on a free block
      or on heap_end, and used_mem is the sum of the used extents. */
  lemma {:induction false} RunWF(m: Mem, ops: seq<Op>)
    requires WF(m)
    ensures WF(Run(m, ops))
    decreases |ops|
  {
    if ops != [] {
      hide WF, Step;
      StepWF(m, ops[0]);
      RunWF(Step(m, ops[0]), ops[1..]);
    }
  }

  // ----- the lowest-free hint

  lemma IndexBelow(bs: seq<Block>, l: int)
    requires forall j :: 0 <= j < |bs| && bs[j].addr < l ==> bs[j].used
    ensures UsedBelow(Members(bs), l)
  {
  }

  lemma BelowIndex(bs: seq<Block>, hi: int, k: nat)
    requires Layout(bs, hi) && k < |bs|
    ensures forall j :: 0 <= j < |bs| && bs[j].addr < bs[k].addr ==> j < k
    ensures forall j :: 0 <= j < k ==> bs[j].addr < bs[k].addr && bs[j] in Members(bs)
  {
    forall j | 0 <= j < k ensures bs[j] in Members(bs) { IsMember(bs, j); }
  }

  /** rt_malloc keeps the hint exact. */
  lemma MallocLowest(m: Mem, n: nat)
    requires WF(m) && Lowest(m)
    ensures Lowest(Malloc(m, n).0)
  {
    var i := Choice(m, n);
    if i + 1 < |m.blocks| {
      HintIndex(m);
      hide WF, At, Search, Lowest;
      TakeLowest(m, i, Request(n));
    }
  }

  lemma TakeLowest(m: Mem, i: nat, req: nat)
    requires WF(m) && Lowest(m) && i + 1 < |m.blocks| && !m.blocks[i].used && req % ALIGN == 0
    ensures Lowest(Take(m, i, req))
  {
    hide Layout, HintOnBlock, UsedExtent, Taken, NextFree, Members, UsedBelow;
    if m.blocks[i].addr == m.lfree {
      AdvanceLowest(m.blocks, m.size + HDR, i, req);
    } else {
      StayLowest(m.blocks, m.size + HDR, i, req, m.lfree);
    }
  }

  lemma AdvanceLowest(bs: seq<Block>, hi: int, i: nat, req: nat)
    requires Layout(bs, hi) && i + 1 < |bs| && !bs[i].used && req % ALIGN == 0
    requires UsedBelow(Members(bs), bs[i].addr)
    ensures i < |Taken(bs, i, req)|
    ensures UsedBelow(Members(Taken(bs, i, req)), NextFree(Taken(bs, i, req), i))
  {
    hide Layout, Taken, NextFree, Members;
    var t := Taken(bs, i, req);
    TakenLayout(bs, hi, i, req);
    TakenAt(bs, i, req);
    BelowIndex(bs, hi, i);
    var k := NextFreeIs(t, hi, i);
    BelowIndex(t, hi, k);
    IndexBelow(t, t[k].addr);
  }

  lemma StayLowest(bs: seq<Block>, hi: int, i: nat, req: nat, l: int)
    requires Layout(bs, hi) && i + 1 < |bs| && !bs[i].used && req % ALIGN == 0
    requires UsedBelow(Members(bs), l)
    ensures UsedBelow(Members(Taken(bs, i, req)), l)
  {
    hide Layout, Taken, Members;
    TakenLayout(bs, hi, i, req);
    LayoutFacts(bs, hi, i);
    assert bs[i] in Members(bs);
  }

  /** Freeing block i and plugging keeps whatever lies below the resulting hint used. */
  lemma PlugLowest(bs: seq<Block>, hi: int, i: nat, l: int)
    requires Layout(bs, hi) && i + 1 < |bs| && bs[i].used && UsedBelow(Members(bs), l)
    ensures UsedBelow(Members(Release(bs, i)), HintAfterPlug(bs, i, if bs[i].addr < l then bs[i].addr else l))
  {
    hide Spaced, NoAdjacentFree, AlignedTo, Release, Members;
    LayoutFacts(bs, hi, i);
    if i > 0 { LayoutFacts(bs, hi, i - 1); }
    ReleaseKeeps(bs, 0, hi, HDR, i);
  }

  /** rt_free keeps the hint exact. */
  lemma FreeLowest(m: Mem, i: nat)
    requires WF(m) && Lowest(m) && i + 1 < |m.blocks| && m.blocks[i].used
    ensures Lowest(Free(m, i))
  {
    hide Layout, HintOnBlock, UsedExtent, Release, Members, UsedBelow;
    PlugLowest(m.blocks, m.size + HDR, i, m.lfree);
  }

  /** A shrinking realloc keeps the hint exact exactly when the hint lies below the block, or is the free
      block right behind it that the cut-off tail merges with. */
  lemma ShrinkLowestIff(m: Mem, i: nat, n: nat)
    requires WF(m) && Lowest(m) && i + 1 < |m.blocks| && m.blocks[i].used
    requires n % ALIGN == 0 && Shrinks(m, i, n)
    ensures Lowest(Shrink(m, i, n)) <==>
              || m.lfree < m.blocks[i].addr
              || (!m.blocks[i + 1].used && m.lfree == m.blocks[i + 1].addr)
  {
    hide NoAdjacentFree, AlignedTo, UsedExtent, Release, Members, Spaced, UsedBelow;
    var bs, hi, cut := m.blocks, m.size + HDR, m.blocks[i].addr + HDR + n;
    var s := Split(bs, i, cut, true);
    LayoutFacts(bs, hi, i);
    CutLayout(bs, hi, i, cut);
    LayoutFacts(s, hi, i + 1);
    ReleaseKeeps(s, 0, hi, HDR, i + 1);
    HintApart(bs, hi, i, m.lfree);
    ShrinkMembers(Members(bs), Members(Release(s, i + 1)), s, i, m.lfree, HintAfterPlug(s, i + 1, m.lfree));
  }

  lemma HintApart(bs: seq<Block>, hi: int, i: nat, l: int)
    requires Layout(bs, hi) && i + 1 < |bs| && bs[i].used && HintOnBlock(bs, hi, l)
    ensures l < bs[i].addr || l >= bs[i + 1].addr
  {
    if l == hi {
      LayoutFacts(bs, hi, i);
    } else {
      var k :| 0 <= k < |bs| && bs[k] == Block(l, false);
      assert k < i || k == i + 1 || i + 1 < k;
    }
  }

  lemma ShrinkMembers(before: set<Block>, after: set<Block>, s: seq<Block>, i: nat, l: int, l': int)
    requires i + 2 < |s| && s[i].used && s[i + 1].used
    requires s[i].addr < s[i + 1].addr < s[i + 2].addr
    requires after == before + {s[i + 1]} - {s[i + 1]} - (if s[i + 2].used then {} else {s[i + 2]})
                      + {Block(s[i + 1].addr, false)}
    requires UsedBelow(before, l) && (l < s[i].addr || l >= s[i + 2].addr)
    requires l' == if !s[i + 2].used && l == s[i + 2].addr then s[i + 1].addr else l
    ensures UsedBelow(after, l') <==> l < s[i].addr || (!s[i + 2].used && l == s[i + 2].addr)
  {
    assert Block(s[i + 1].addr, false) in after;
  }

  /** What a caller can check before a call to know that the hint stays exact. */
  predicate KeepsHint(m: Mem, op: Op) {
    op.OpRealloc? && 0 < Align(op.n) <= m.size && 0 <= op.p < m.size + HDR && Live(m, op.p) + 1 < |m.blocks|
    && Payload(m.blocks, Live(m, op.p), HDR) != Align(op.n) && Shrinks(m, Live(m, op.p), Align(op.n)) ==>
      (var i := Live(m, op.p);
       m.lfree < m.blocks[i].addr || (!m.blocks[i + 1].used && m.lfree == m.blocks[i + 1].addr))
  }

  /** A call keeps the hint exact exactly when KeepsHint holds of it. */
  lemma StepLowestIff(m: Mem, op: Op)
    requires WF(m) && Lowest(m)
    ensures Lowest(Step(m, op)) <==> KeepsHint(m, op)
  {
    hide WF, Lowest, Malloc, Free, Shrink, Move, Live, Shrinks, Payload, Align;
    match op
    case OpMalloc(n) => MallocLowest(m, n);
    case OpFree(p) => if Live(m, p) + 1 < |m.blocks| { FreeLowest(m, Live(m, p)); }
    case OpRealloc(p, size) =>
      var n, i := Align(size), Live(m, p);
      MallocLowest(m, n);
      AlignMultiple(size);
      if i + 1 < |m.blocks| {
        FreeLowest(m, i);
        MoveLowest(m, i, n);
        if Shrinks(m, i, n) { ShrinkLowestIff(m, i, n); }
      }
  }

  lemma AlignMultiple(n: nat)
    ensures Align(n) % ALIGN == 0
  {
  }

  lemma MoveLowest(m: Mem, i: nat, n: nat)
    requires WF(m) && Lowest(m) && i + 1 < |m.blocks| && m.blocks[i].used
    ensures Lowest(Move(m, i, n).0)
  {
    hide WF, Lowest, Malloc, Free, Move;
    MoveWF(m, i, n);
    MallocLowest(m, n);
    if Move(m, i, n).1 != NULL {
      var m1 := Malloc(m, n).0;
      FreeLowest(m1, At(m1.blocks, m.blocks[i].addr));
    }
  }

  predicate AllKeepHint(m: Mem, ops: seq<Op>)
    decreases |ops|
  {
    ops == [] || (KeepsHint(m, ops[0]) && AllKeepHint(Step(m, ops[0]), ops[1..]))
  }

  /** In a history whose calls all keep the hint, lfree is exact at the end; malloc, free and growing
      realloc calls always do. */
  lemma {:induction false} RunLowest(m: Mem, ops: seq<Op>)
    requires WF(m) && Lowest(m) && AllKeepHint(m, ops)
    ensures Lowest(Run(m, ops))
    decreases |ops|
  {
    if ops != [] {
      hide WF, Lowest, Step, KeepsHint;
      StepWF(m, ops[0]);
      StepLowestIff(m, ops[0]);
      RunLowest(Step(m, ops[0]), ops[1..]);
    }
  }

  /** A concrete history that loses the hint: one block fills the heap, it is shrunk, and the next
      request finds nothing although the freed tail would hold it. */
  lemma ShrinkLosesMemory()
    ensures InitOk(0x1000, 0x1090)
    ensures var m := Run(Init(0x1000, 0x1090), [OpMalloc(108), OpRealloc(12, 12)]);
            2 < |m.blocks| && Fits(m.blocks, 1, 40) && Malloc(m, 40).1 == NULL
  {
    hide Realloc, Malloc;
    var m := Init(0x1000, 0x1090);
    var m1, m2 := Step(m, OpMalloc(108)), Step(Step(m, OpMalloc(108)), OpRealloc(12, 12));
    var ops := [OpMalloc(108), OpRealloc(12, 12)];
    assert ops[1..] == [OpRealloc(12, 12)] && [OpRealloc(12, 12)][1..] == [];
    FillsHeap();
    ShrinksAway();
    FindsNothing();
  }

  const FULL := Mem(120, [Block(0, true), Block(132, true)], 132, 132, 132)
  const SHRUNK := Mem(120, [Block(0, true), Block(24, false), Block(132, true)], 132, 24, 132)

  lemma FillsHeap()
    ensures Malloc(Init(0x1000, 0x1090), 108).0 == FULL
  {
    var m := Init(0x1000, 0x1090);
    assert At(m.blocks, 0) == 0;
    assert Taken(m.blocks, 0, 108) == FULL.blocks;
  }

  lemma ShrinksAway()
    ensures Realloc(FULL, 12, 12).0 == SHRUNK
  {
    assert Split(FULL.blocks, 0, 24, true) == [Block(0, true), Block(24, true), Block(132, true)];
    assert Release(Split(FULL.blocks, 0, 24, true), 1) == SHRUNK.blocks;
    assert Live(FULL, 12) == 0;
  }

  lemma FindsNothing()
    ensures Malloc(SHRUNK, 40).1 == NULL
  {
    var bs := SHRUNK.blocks;
    assert At(bs, 132) == 2 by { AtUnique(bs, 0, 132, HDR, 2); }
  }

  /** rt_free after rt_malloc gives back the heap of before, hint and usage included. */
  lemma MallocFreeRoundTrip(m: Mem, n: nat)
    requires WF(m) && Malloc(m, n).1 != NULL
    ensures var (m1, p) := Malloc(m, n);
            Live(m1, p) + 1 < |m1.blocks| && Free(m1, Live(m1, p)).(maxMem := m.maxMem) == m
  {
    hide WF, At, Search, Live, Take, Payload, Free;
    var i := Choice(m, n);
    HintIndex(m);
    HintBefore(m, i);
    TakeWF(m, i, Request(n));
    TakeFree(m, i, Request(n));
    LiveIndex(Take(m, i, Request(n)), i);
  }

  lemma TakeFree(m: Mem, i: nat, req: nat)
    requires WF(m) && i + 1 < |m.blocks| && !m.blocks[i].used && m.lfree <= m.blocks[i].addr
    requires req % ALIGN == 0
    ensures var m1 := Take(m, i, req);
            && i + 1 < |m1.blocks| && m1.blocks[i] == Block(m.blocks[i].addr, true)
            && Free(m1, i).(maxMem := m.maxMem) == m
  {
    hide Layout, HintOnBlock, UsedExtent, NextFree, Taken, Release, HintAfterPlug;
    TakenAt(m.blocks, i, req);
    TakenUndone(m.blocks, m.size + HDR, i, req);
    HintRestored(m.blocks, m.size + HDR, i, req, m.lfree);
    TakenExtent(m.blocks, i, req);
  }

  lemma TakenExtent(bs: seq<Block>, i: nat, req: nat)
    requires i + 1 < |bs|
    ensures i + 1 < |Taken(bs, i, req)|
    ensures Taken(bs, i, req)[i + 1].addr - bs[i].addr
         == if Payload(bs, i, HDR) >= req + HDR + MIN_SIZE then req + HDR else bs[i + 1].addr - bs[i].addr
  {
  }

  lemma HintRestored(bs: seq<Block>, hi: int, i: nat, req: nat, l: int)
    requires Layout(bs, hi) && i + 1 < |bs| && !bs[i].used && l <= bs[i].addr && req % ALIGN == 0
    ensures var t := Taken(bs, i, req);
            && i + 1 < |t|
            && (var l1 := if bs[i].addr == l then NextFree(t, i) else l;
                HintAfterPlug(t, i, if t[i].addr < l1 then t[i].addr else l1) == l)
  {
    hide Layout, Taken, NextFree;
    var t := Taken(bs, i, req);
    TakenLayout(bs, hi, i, req);
    TakenAt(bs, i, req);
    LayoutFacts(bs, hi, i);
    LayoutFacts(t, hi, i);
    var k := NextFreeIs(t, hi, i);
    BelowIndex(t, hi, k);
  }

  lemma LiveIndex(m: Mem, i: nat)
    requires WF(m) && i + 1 < |m.blocks| && m.blocks[i].used && m.blocks[i].addr < m.size
    ensures Live(m, m.blocks[i].addr + HDR) == i
  {
    AtUnique(m.blocks, 0, m.size + HDR, HDR, i);
  }

  lemma HintBefore(m: Mem, i: nat)
    requires WF(m) && At(m.blocks, m.lfree) <= i < |m.blocks|
    ensures m.lfree <= m.blocks[i].addr
  {
    HintIndex(m);
  }

  lemma TakenUndone(bs: seq<Block>, hi: int, i: nat, req: nat)
    requires Layout(bs, hi) && i + 1 < |bs| && !bs[i].used
    ensures i + 1 < |Taken(bs, i, req)| && Release(Taken(bs, i, req), i) == bs
  {
    hide Layout, Taken, MergeRight;
    LayoutFacts(bs, hi, i);
    TakenMerges(bs, i, req);
  }

  lemma TakenMerges(bs: seq<Block>, i: nat, req: nat)
    requires i + 1 < |bs| && !bs[i].used && bs[i + 1].used
    ensures i + 1 < |Taken(bs, i, req)| && MergeRight(Mark(Taken(bs, i, req), i, false), i) == bs
  {
    if Payload(bs, i, HDR) >= req + HDR + MIN_SIZE {
      var rest := Block(bs[i].addr + HDR + req, false);
      var m := Mark(Taken(bs, i, req), i, false);
      assert m == bs[..i + 1] + [rest] + bs[i + 1..];
    } else {
      assert Mark(Taken(bs, i, req), i, false) == bs;
    }
  }

  // ----- the high-water mark

  function Max(a: int, b: int): int {
    if a < b then b else a
  }

  /** Highest usage reached during one call; a moving realloc passes through the state in which both
      blocks are allocated. */
  function Reached(m: Mem, op: Op): int {
    if op.OpRealloc? && 0 < Align(op.n) <= m.size && 0 <= op.p < m.size + HDR && Live(m, op.p) + 1 < |m.blocks|
       && Payload(m.blocks, Live(m, op.p), HDR) != Align(op.n) && !Shrinks(m, Live(m, op.p), Align(op.n))
    then Max(Malloc(m, Align(op.n)).0.usedMem, Step(m, op).usedMem)
    else Step(m, op).usedMem
  }

  function Peak(m: Mem, ops: seq<Op>): int
    decreases |ops|
  {
    if ops == [] then m.usedMem
    else Max(m.usedMem, Max(Reached(m, ops[0]), Peak(Step(m, ops[0]), ops[1..])))
  }

  lemma MallocMark(m: Mem, n: nat)
    requires WF(m)
    ensures Malloc(m, n).0.maxMem == Max(m.maxMem, Malloc(m, n).0.usedMem)
  {
    hide Layout, HintOnBlock, UsedExtent, Taken, NextFree, Search, At;
  }

  lemma FreeMark(m: Mem, i: nat)
    requires WF(m) && i + 1 < |m.blocks|
    ensures Free(m, i).maxMem == m.maxMem && Free(m, i).usedMem <= m.usedMem
  {
    hide HintOnBlock, UsedExtent, Release, HintAfterPlug;
    LayoutFacts(m.blocks, m.size + HDR, i);
  }

  lemma MoveMark(m: Mem, i: nat, n: nat)
    requires WF(m) && i + 1 < |m.blocks| && m.blocks[i].used
    ensures Move(m, i, n).0.maxMem == Max(m.maxMem, Max(Malloc(m, n).0.usedMem, Move(m, i, n).0.usedMem))
  {
    hide WF, Malloc, Free, Move;
    MoveWF(m, i, n);
    MallocMark(m, n);
    MallocNull(m, n);
    Marked(m);
    if Move(m, i, n).1 != NULL {
      FreeMark(Malloc(m, n).0, At(Malloc(m, n).0.blocks, m.blocks[i].addr));
    }
  }

  lemma Marked(m: Mem)
    requires WF(m)
    ensures m.usedMem <= m.maxMem
  {
  }

  lemma ShrinkMark(m: Mem, i: nat, n: nat)
    requires i + 1 < |m.blocks| && Shrinks(m, i, n)
    ensures Shrink(m, i, n).maxMem == m.maxMem && Shrink(m, i, n).usedMem <= m.usedMem
  {
    hide Release, HintAfterPlug;
  }

  lemma StepMark(m: Mem, op: Op)
    requires WF(m)
    ensures Step(m, op).maxMem == Max(m.maxMem, Reached(m, op))
  {
    hide WF, Malloc, Free, Shrink, Move, Live, Shrinks, Payload, Align;
    Marked(m);
    match op
    case OpMalloc(n) => MallocMark(m, n);
    case OpFree(p) => if Live(m, p) + 1 < |m.blocks| { FreeMark(m, Live(m, p)); }
    case OpRealloc(p, size) =>
      var n, i := Align(size), Live(m, p);
      MallocMark(m, n);
      if i + 1 < |m.blocks| {
        FreeMark(m, i);
        MoveMark(m, i, n);
        if Shrinks(m, i, n) { ShrinkMark(m, i, n); }
      }
  }

  /** max_mem is the highest usage the history has reached. */
  lemma {:induction false} HighWater(m: Mem, ops: seq<Op>)
    requires WF(m)
    ensures Run(m, ops).maxMem == Max(m.maxMem, Peak(m, ops))
    decreases |ops|
  {
    hide WF, Step, Reached;
    Marked(m);
    if ops != [] {
      StepWF(m, ops[0]);
      StepMark(m, ops[0]);
      HighWater(Step(m, ops[0]), ops[1..]);
    }
  }
}
