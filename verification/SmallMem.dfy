/** The small-memory heap of mem.c: headers linked by offset inside the heap, the lowest-free hint and the
    usage statistics, changed in place. Each header field is one store, a map from offset to value; the heap's bytes
    are an array. */
module SmallMem {
  import opened Rings
  import opened Blocks
  import opened Payloads
  import Spec = SmallMemSpec
  import Laws = SmallMemLaws

  const HDR := Spec.HDR
  const NULL := Spec.NULL

  /** Bytes from heap_ptr to the end of the last header. */
  ghost function Pool(size: int): int {
    size + 2 * HDR
  }

  ghost predicate NextLinks(next: map<int, int>, bs: seq<Block>) {
    && (forall i :: 0 <= i < |bs| ==> bs[i].addr in next)
    && (forall i, j :: 0 <= i < |bs| - 1 && j == i + 1 ==> next[bs[i].addr] == bs[j].addr)
    && (bs != [] ==> next[bs[|bs| - 1].addr] == bs[|bs| - 1].addr)
  }

  ghost predicate PrevLinks(prev: map<int, int>, bs: seq<Block>) {
    && (forall i :: 0 <= i < |bs| ==> bs[i].addr in prev)
    && (forall i, j :: 0 <= i < |bs| - 2 && j == i + 1 ==> prev[bs[j].addr] == bs[i].addr)
    && (|bs| > 1 ==> prev[bs[0].addr] == bs[0].addr)
  }

  /** The headers agree with the block sequence: used bits everywhere, `next` up to heap_end, `prev` for
      every block except heap_end, whose `prev` rt_malloc and rt_realloc do not maintain. */
  ghost predicate Linked(used: map<int, bool>, next: map<int, int>, prev: map<int, int>, bs: seq<Block>) {
    Flagged(used, bs) && NextLinks(next, bs) && PrevLinks(prev, bs)
  }

  lemma LinkedAt(used: map<int, bool>, next: map<int, int>, prev: map<int, int>, bs: seq<Block>, i: nat)
    requires Linked(used, next, prev, bs) && i + 1 < |bs|
    ensures var a := bs[i].addr;
            && a in used && a in next && a in prev && used[a] == bs[i].used
            && next[a] == bs[i + 1].addr && next[a] in used && next[a] in next
            && used[next[a]] == bs[i + 1].used
            && prev[a] == (if i == 0 then a else bs[i - 1].addr)
            && prev[a] in used && prev[a] in next
            && (i > 0 ==> used[prev[a]] == bs[i - 1].used)
    ensures i + 2 < |bs| ==> next[bs[i + 1].addr] == bs[i + 2].addr
  {
    if i > 0 { assert bs[i - 1].addr in next; }
  }

  lemma Apart(bs: seq<Block>, i: nat, j: nat)
    requires Spaced(bs, HDR) && i < |bs| && j < |bs| && i != j
    ensures bs[i].addr != bs[j].addr
  {
    assert i < j || j < i;
  }

  lemma LinkedMark(used: map<int, bool>, next: map<int, int>, prev: map<int, int>, bs: seq<Block>, i: nat, u: bool)
    requires Linked(used, next, prev, bs) && Spaced(bs, HDR) && i < |bs|
    ensures Linked(used[bs[i].addr := u], next, prev, Mark(bs, i, u))
  {
    var m := Mark(bs, i, u);
    forall k | 0 <= k < |m| && k != i ensures m[k] == bs[k] && m[k].addr != bs[i].addr {
      Apart(bs, k, i);
    }
  }

  lemma SplitFresh(bs: seq<Block>, i: nat, c: int, u: bool)
    requires Spaced(bs, HDR) && i + 1 < |bs| && bs[i].addr < c < bs[i + 1].addr
    ensures forall k :: 0 <= k < |bs| ==> bs[k].addr != c
    ensures var s := Split(bs, i, c, u);
            forall k :: 0 <= k < |s| && k != i + 1 ==> s[k] == bs[if k <= i then k else k - 1]
  {
    forall k | 0 <= k < |bs| ensures bs[k].addr != c {
      assert k < i || k == i || k == i + 1 || i + 1 < k;
    }
  }

  lemma SplitNext(next: map<int, int>, bs: seq<Block>, i: nat, c: int, u: bool)
    requires NextLinks(next, bs) && Spaced(bs, HDR) && i + 1 < |bs| && bs[i].addr < c < bs[i + 1].addr
    ensures NextLinks(next[c := bs[i + 1].addr][bs[i].addr := c], Split(bs, i, c, u))
  {
    hide Spaced;
    var s := Split(bs, i, c, u);
    var next' := next[c := bs[i + 1].addr][bs[i].addr := c];
    SplitFresh(bs, i, c, u);
    forall k, j | 0 <= k < |s| - 1 && j == k + 1 ensures next'[s[k].addr] == s[j].addr {
      if k < i { Apart(bs, k, i); } else if k > i + 1 { Apart(bs, k - 1, i); }
    }
    Apart(bs, |bs| - 1, i);
  }

  lemma SplitPrev(prev: map<int, int>, prev': map<int, int>, bs: seq<Block>, i: nat, c: int, u: bool)
    requires PrevLinks(prev, bs) && Spaced(bs, HDR) && i + 1 < |bs| && bs[i].addr < c < bs[i + 1].addr
    requires prev' == if i + 2 == |bs| then prev[c := bs[i].addr]
                      else prev[c := bs[i].addr][bs[i + 1].addr := c]
    ensures PrevLinks(prev', Split(bs, i, c, u))
  {
    hide Spaced;
    var s := Split(bs, i, c, u);
    SplitFresh(bs, i, c, u);
    forall k, j | 0 <= k < |s| - 2 && j == k + 1 ensures prev'[s[j].addr] == s[k].addr {
      if j <= i { Apart(bs, j, i + 1); } else if j > i + 2 { Apart(bs, j - 1, i + 1); }
    }
    Apart(bs, 0, i + 1);
  }

  lemma LinkedSplit(used: map<int, bool>, next: map<int, int>, prev: map<int, int>, prev': map<int, int>,
                    bs: seq<Block>, i: nat, c: int, u: bool)
    requires Linked(used, next, prev, bs) && Spaced(bs, HDR) && i + 1 < |bs|
    requires bs[i].addr < c < bs[i + 1].addr
    requires prev' == if i + 2 == |bs| then prev[c := bs[i].addr]
                      else prev[c := bs[i].addr][bs[i + 1].addr := c]
    ensures Linked(used[c := u], next[c := bs[i + 1].addr][bs[i].addr := c], prev', Split(bs, i, c, u))
  {
    hide Flagged, NextLinks, PrevLinks, Spaced;
    InsideFresh(bs, HDR, i, c);
    FlagSplit(used, bs, i, c, u);
    SplitNext(next, bs, i, c, u);
    SplitPrev(prev, prev', bs, i, c, u);
  }

  lemma AbsorbIndex(bs: seq<Block>, i: nat)
    requires i + 2 < |bs|
    ensures forall k :: 0 <= k < |Absorb(bs, i)| ==> Absorb(bs, i)[k] == bs[if k <= i then k else k + 1]
  {
  }

  lemma AbsorbNext(next: map<int, int>, bs: seq<Block>, i: nat)
    requires NextLinks(next, bs) && Spaced(bs, HDR) && i + 2 < |bs|
    ensures NextLinks(next[bs[i].addr := bs[i + 2].addr], Absorb(bs, i))
  {
    hide Spaced;
    var s, next' := Absorb(bs, i), next[bs[i].addr := bs[i + 2].addr];
    AbsorbIndex(bs, i);
    forall k, j | 0 <= k < |s| - 1 && j == k + 1 ensures next'[s[k].addr] == s[j].addr {
      if k < i { Apart(bs, k, i); } else if k > i { Apart(bs, k + 1, i); }
    }
    Apart(bs, |bs| - 1, i);
  }

  lemma AbsorbPrev(prev: map<int, int>, bs: seq<Block>, i: nat)
    requires PrevLinks(prev, bs) && Spaced(bs, HDR) && i + 2 < |bs|
    ensures PrevLinks(prev[bs[i + 2].addr := bs[i].addr], Absorb(bs, i))
  {
    hide Spaced;
    var s, prev' := Absorb(bs, i), prev[bs[i + 2].addr := bs[i].addr];
    AbsorbIndex(bs, i);
    forall k, j | 0 <= k < |s| - 2 && j == k + 1 ensures prev'[s[j].addr] == s[k].addr {
      if j <= i { Apart(bs, j, i + 2); } else if j > i + 1 { Apart(bs, j + 1, i + 2); }
    }
    Apart(bs, 0, i + 2);
  }

  lemma LinkedAbsorb(used: map<int, bool>, next: map<int, int>, prev: map<int, int>, bs: seq<Block>, i: nat)
    requires Linked(used, next, prev, bs) && Spaced(bs, HDR) && i + 2 < |bs|
    ensures Linked(used, next[bs[i].addr := bs[i + 2].addr], prev[bs[i + 2].addr := bs[i].addr], Absorb(bs, i))
  {
    AbsorbIndex(bs, i);
    hide NextLinks, PrevLinks, Spaced;
    AbsorbNext(next, bs, i);
    AbsorbPrev(prev, bs, i);
  }

  lemma AbsorbSpaced(bs: seq<Block>, i: nat)
    requires Spaced(bs, HDR) && i + 2 < |bs| && bs[|bs| - 1].used
    ensures var s := Absorb(bs, i);
            Spaced(s, HDR) && |s| == |bs| - 1 && s[|s| - 1] == bs[|bs| - 1] && s[i] == bs[i] && s[i + 1] == bs[i + 2]
            && forall k :: 0 <= k <= i ==> s[k] == bs[k]
  {
  }

  lemma Facts(m: Spec.Mem, i: nat)
    requires Spec.WF(m) && i + 1 < |m.blocks|
    ensures Spaced(m.blocks, HDR) && m.blocks[|m.blocks| - 1] == Block(m.size + HDR, true)
    ensures 0 <= m.blocks[i].addr && m.blocks[i].addr + HDR <= m.blocks[i + 1].addr <= m.size + HDR
    ensures m.blocks[i + 1].addr == m.size + HDR <==> i + 2 == |m.blocks|
  {
    Laws.LayoutFacts(m.blocks, m.size + HDR, i);
    if i + 2 < |m.blocks| { Apart(m.blocks, i + 1, |m.blocks| - 1); }
  }

  lemma HeadersKept(m: Spec.Mem)
    requires Spec.WF(m)
    ensures Tiled(m.blocks, 0, m.size + HDR, HDR)
    ensures AllOff(Pool(m.size), m.blocks, HDR, LiveBytes(m.blocks, HDR, Pool(m.size)))
  {
    HeadersOffLive(m.blocks, HDR, Pool(m.size));
  }

  lemma SplitLast(bs: seq<Block>, i: nat, a: int)
    requires i + 1 < |bs|
    ensures var s := Split(bs, i, a, false);
            |s| == |bs| + 1 && s[|s| - 1] == bs[|bs| - 1] && s[i] == bs[i]
  {
  }

  lemma LivePayload(m: Spec.Mem, i: nat, q: int, n: nat)
    requires Spec.WF(m) && i + 1 < |m.blocks| && m.blocks[i] == Block(q - HDR, true) && Payload(m.blocks, i, HDR) >= n
    ensures HDR <= q && q + n <= Pool(m.size)
    ensures forall k :: q <= k < q + n ==> k in LiveBytes(m.blocks, HDR, Pool(m.size))
  {
    PayloadLive(m.blocks, HDR, Pool(m.size), i, q, n);
  }

  lemma MarkIndex(bs: seq<Block>, i: nat, u: bool)
    requires i + 1 < |bs|
    ensures |Mark(bs, i, u)| == |bs| && Mark(bs, i, u)[i] == Block(bs[i].addr, u)
    ensures Mark(bs, i, u)[|bs| - 1] == bs[|bs| - 1]
  {
  }

  lemma MarkSpaced(bs: seq<Block>, i: nat, u: bool)
    requires i < |bs| && Spaced(bs, HDR)
    ensures Spaced(Mark(bs, i, u), HDR)
  {
  }

  lemma HintSame(bs: seq<Block>, i: nat)
    requires i + 1 < |bs|
    ensures i + 1 < |Mark(bs, i, false)|
    ensures forall l :: Spec.HintAfterPlug(Mark(bs, i, false), i, l) == Spec.HintAfterPlug(bs, i, l)
  {
  }

  lemma EndsAfter(m: Spec.Mem, i: nat)
    requires Spec.WF(m) && i < |m.blocks| && m.blocks[i].addr < m.size
    ensures i + 1 < |m.blocks|
  {
    Laws.LayoutFacts(m.blocks, m.size + HDR, 0);
  }

  lemma OnlyEnd(m: Spec.Mem)
    requires Spec.WF(m)
    ensures |m.blocks| > 0
    ensures forall k :: 0 <= k < |m.blocks| ==> (m.blocks[k].addr == m.size + HDR <==> k == |m.blocks| - 1)
  {
    var bs := m.blocks;
    Laws.LayoutFacts(bs, m.size + HDR, 0);
    forall k | 0 <= k < |bs| - 1 ensures bs[k].addr != m.size + HDR { Apart(bs, k, |bs| - 1); }
  }

  lemma TakenParts(bs: seq<Block>, i: nat, req: nat)
    requires Spaced(bs, HDR) && i + 1 < |bs| && Payload(bs, i, HDR) >= req + HDR + Spec.MIN_SIZE
    ensures var s := Split(bs, i, bs[i].addr + HDR + req, false);
            Spaced(s, HDR) && i < |s| && s[i] == bs[i] && Mark(s, i, true) == Spec.Taken(bs, i, req)
  {
    SplitSpaced(bs, HDR, i, bs[i].addr + HDR + req, false);
    hide Spaced;
  }

  lemma CutSteps(bs: seq<Block>, i: nat, cut: int, l: int)
    requires i + 1 < |bs| && bs[i].used
    ensures var (s, t) := (Split(bs, i, cut, false), Split(bs, i, cut, true));
            && |s| == |bs| + 1 && s[i + 1] == Block(cut, false) && s[|s| - 1] == bs[|bs| - 1]
            && Release(t, i + 1) == MergeLeft(MergeRight(s, i + 1), i + 1)
            && Spec.HintAfterPlug(t, i + 1, l) == Spec.HintAfterPlug(s, i + 1, l)
  {
    assert Mark(Split(bs, i, cut, true), i + 1, false) == Split(bs, i, cut, false);
  }

  lemma Relive(m: Spec.Mem, i: nat, n: nat)
    requires Spec.WF(m) && i + 1 < |m.blocks| && m.blocks[i].used && Spec.Move(m, i, n).1 != NULL
    requires m.blocks[i].addr < m.size
    ensures var m1 := Spec.Malloc(m, n).0;
            && Spec.Live(m1, m.blocks[i].addr + HDR) == At(m1.blocks, m.blocks[i].addr)
            && Spec.Live(m1, m.blocks[i].addr + HDR) + 1 < |m1.blocks|
  {
    Laws.MoveWF(m, i, n);
    hide Spec.WF, Spec.Malloc;
  }

  /** Where a moving realloc copies to: space no live block used before. */
  lemma TargetFresh(m: Spec.Mem, n: nat)
    requires Spec.WF(m) && Spec.Malloc(m, n).1 != NULL
    ensures var (m1, q) := Spec.Malloc(m, n);
            && HDR <= q && q + Spec.Request(n) <= Pool(m.size)
            && (forall k :: q <= k < q + Spec.Request(n) ==>
                  k !in LiveBytes(m.blocks, HDR, Pool(m.size)) && k in LiveBytes(m1.blocks, HDR, Pool(m.size)))
  {
    hide Spec.WF, Spec.Malloc, LiveBytes, Payload, Spec.Live, Tiled, Spec.Taken;
    var m1, q, req := Spec.Malloc(m, n).0, Spec.Malloc(m, n).1, Spec.Request(n);
    var i := Laws.MallocGives(m, n);
    Laws.MallocWF(m, n);
    HeadersKept(m);
    HeadersKept(m1);
    Laws.TakenAt(m.blocks, i, req);
    TakenFits(m.blocks, i, req);
    PayloadFresh(m.blocks, HDR, Pool(m.size), i, q, req);
    PayloadLive(m1.blocks, HDR, Pool(m.size), i, q, req);
  }

  /** A block handed out is not larger than it was. */
  lemma TakenFits(bs: seq<Block>, i: nat, req: nat)
    requires i + 1 < |bs| && i + 1 < |Spec.Taken(bs, i, req)| && Payload(Spec.Taken(bs, i, req), i, HDR) >= req
    ensures Payload(bs, i, HDR) >= req
  {
  }

  /** Live bytes stay live across an allocation. */
  lemma MallocKeepsLive(m: Spec.Mem, n: nat)
    requires Spec.WF(m)
    ensures forall k :: k in LiveBytes(m.blocks, HDR, Pool(m.size)) ==>
              k in LiveBytes(Spec.Malloc(m, n).0.blocks, HDR, Pool(m.size))
  {
    hide Spec.WF, Spec.Malloc, LiveBytes;
    if Spec.Malloc(m, n).1 != NULL {
      var i := Laws.MallocGives(m, n);
      TakenKeepsLive(m.blocks, HDR, Pool(m.size), i, Spec.Taken(m.blocks, i, Spec.Request(n)),
                     m.blocks[i].addr + HDR + Spec.Request(n));
    } else {
      Laws.MallocNull(m, n);
    }
  }

  /** A rounded size rounds to itself and is covered. */
  lemma RoundedSize(newsize: nat)
    requires newsize < Spec.WORD
    ensures Spec.Align(Spec.Align(newsize)) == Spec.Align(newsize) < Spec.WORD && Spec.Align(newsize) % Spec.ALIGN == 0
    ensures Spec.Request(Spec.Align(newsize)) >= Spec.Align(newsize)
  {
  }

  lemma SearchFits(bs: seq<Block>, h: nat, limit: int, req: int)
    ensures var k := Spec.Search(bs, h, limit, req);
            k + 1 < |bs| ==> !bs[k].used
  {
  }

  class Heap {
    const size: int
    var used: map<int, bool>
    var next: map<int, int>
    var prev: map<int, int>
    var lfree: int
    var usedMem: int
    var maxMem: int
    const bytes: array<bv8>
    ghost var blocks: seq<Block>

    ghost function View(): Spec.Mem
      reads this
    {
      Spec.Mem(size, blocks, lfree, usedMem, maxMem)
    }

    ghost predicate Valid()
      reads this
    {
      Spec.WF(View()) && Linked(used, next, prev, blocks) && bytes.Length == Pool(size)
    }

    /** rt_system_heap_init on a range it accepts and that leaves room for one block. */
    constructor (begin: nat, end: nat)
      requires Spec.InitOk(begin, end) && Spec.Init(begin, end).size >= Spec.MIN_SIZE
      ensures Valid() && View() == Spec.Init(begin, end) && fresh(bytes)
    {
      var beginAlign, endAlign := (begin + 3) / 4 * 4, end / 4 * 4;
      var s := endAlign - beginAlign - 2 * HDR;
      size := s;
      used := map[0 := false, s + HDR := true];
      next := map[0 := s + HDR, s + HDR := s + HDR];
      prev := map[0 := 0, s + HDR := s + HDR];
      lfree, usedMem, maxMem := 0, 0, 0;
      bytes := new bv8[s + 2 * HDR];
      blocks := [Block(0, false), Block(s + HDR, true)];
      new;
      Laws.InitWF(begin, end);
    }

    // ----- header stores

    method SetNext(a: int, v: int, ghost keep: set<int>)
      requires Writable(bytes.Length, a, HDR, keep)
      modifies this`next, bytes
      ensures next == old(next)[a := v]
      ensures forall k :: k in keep && 0 <= k < bytes.Length ==> bytes[k] == old(bytes[k])
    {
      next := next[a := v];
      Touch(bytes, a, HDR, keep);
    }

    method SetPrev(a: int, v: int, ghost keep: set<int>)
      requires Writable(bytes.Length, a, HDR, keep)
      modifies this`prev, bytes
      ensures prev == old(prev)[a := v]
      ensures forall k :: k in keep && 0 <= k < bytes.Length ==> bytes[k] == old(bytes[k])
    {
      prev := prev[a := v];
      Touch(bytes, a, HDR, keep);
    }

    method SetUsed(a: int, v: bool, ghost keep: set<int>)
      requires Writable(bytes.Length, a, HDR, keep)
      modifies this`used, bytes
      ensures used == old(used)[a := v]
      ensures forall k :: k in keep && 0 <= k < bytes.Length ==> bytes[k] == old(bytes[k])
    {
      used := used[a := v];
      Touch(bytes, a, HDR, keep);
    }

    // ----- merging

    ghost predicate Chained(keep: set<int>)
      reads this
    {
      Linked(used, next, prev, blocks) && Spaced(blocks, HDR) && AllOff(bytes.Length, blocks, HDR, keep)
      && |blocks| > 0 && blocks[|blocks| - 1] == Block(size + HDR, true)
    }

    /** Block i absorbs block i + 1, whose header is `gone`. */
    method DropHeader(mem: int, gone: int, ghost i: nat, ghost keep: set<int>)
      requires Chained(keep) && i + 2 < |blocks| && blocks[i].addr == mem && blocks[i + 1].addr == gone
      modifies this`next, this`prev, this`blocks, bytes
      ensures Chained(keep) && blocks == Absorb(old(blocks), i) && i + 1 < |blocks| && blocks[i] == old(blocks)[i]
      ensures forall k :: k in keep && 0 <= k < bytes.Length ==> bytes[k] == old(bytes[k])
    {
      hide Linked, Spaced, Absorb, AllOff, Writable;
      OffAfter(bytes.Length, blocks, HDR, keep);
      OffAt(bytes.Length, blocks, HDR, keep, i);
      OffAt(bytes.Length, blocks, HDR, keep, i + 2);
      LinkedAt(used, next, prev, blocks, i);
      LinkedAt(used, next, prev, blocks, i + 1);
      Apart(blocks, i, i + 1);
      LinkedAbsorb(used, next, prev, blocks, i);
      AbsorbSpaced(blocks, i);
      SetNext(mem, next[gone], keep);
      SetPrev(next[gone], mem, keep);
      blocks := Absorb(blocks, i);
    }

    /** plug_holes, forward half. */
    method PlugForward(mem: int, ghost i: nat, ghost keep: set<int>)
      requires Chained(keep) && i + 1 < |blocks| && blocks[i] == Block(mem, false)
      modifies this`next, this`prev, this`lfree, this`blocks, bytes
      ensures Chained(keep) && blocks == MergeRight(old(blocks), i)
      ensures lfree == if !old(blocks)[i + 1].used && old(lfree) == old(blocks)[i + 1].addr then mem else old(lfree)
      ensures i + 1 < |blocks|
      ensures forall k :: k in keep && 0 <= k < bytes.Length ==> bytes[k] == old(bytes[k])
    {
      hide Linked, Spaced, Absorb, AllOff;
      LinkedAt(used, next, prev, blocks, i);
      Apart(blocks, i, i + 1);
      if i + 2 < |blocks| { Apart(blocks, i + 1, |blocks| - 1); }
      var nmem := next[mem];
      if mem != nmem && !used[nmem] && nmem != size + HDR {
        if lfree == nmem { lfree := mem; }
        DropHeader(mem, nmem, i, keep);
      }
    }

    /** plug_holes, backward half. */
    method PlugBackward(mem: int, ghost i: nat, ghost keep: set<int>)
      requires Chained(keep) && i + 1 < |blocks| && blocks[i] == Block(mem, false)
      modifies this`next, this`prev, this`lfree, this`blocks, bytes
      ensures Chained(keep) && blocks == MergeLeft(old(blocks), i)
      ensures lfree == if i > 0 && !old(blocks)[i - 1].used && old(lfree) == mem then old(blocks)[i - 1].addr
                       else old(lfree)
      ensures forall k :: k in keep && 0 <= k < bytes.Length ==> bytes[k] == old(bytes[k])
    {
      hide Linked, Spaced, Absorb, AllOff;
      LinkedAt(used, next, prev, blocks, i);
      if i > 0 { Apart(blocks, i - 1, i); }
      var pmem := prev[mem];
      if pmem != mem && !used[pmem] {
        if lfree == mem { lfree := pmem; }
        DropHeader(pmem, mem, i - 1, keep);
      }
    }

    /** plug_holes: merges free block i both ways and keeps lfree off the headers that go. */
    method PlugHoles(mem: int, ghost i: nat, ghost keep: set<int>)
      requires Chained(keep) && i + 1 < |blocks| && blocks[i] == Block(mem, false)
      modifies this`next, this`prev, this`lfree, this`blocks, bytes
      ensures Chained(keep) && blocks == MergeLeft(MergeRight(old(blocks), i), i)
      ensures lfree == Spec.HintAfterPlug(old(blocks), i, old(lfree))
      ensures forall k :: k in keep && 0 <= k < bytes.Length ==> bytes[k] == old(bytes[k])
    {
      hide Linked, Spaced, Absorb, AllOff;
      PlugForward(mem, i, keep);
      PlugBackward(mem, i, keep);
    }

    /** rt_free. */
    method Free(rmem: int)
      requires Valid()
      requires rmem != NULL ==> Spec.Live(View(), rmem) + 1 < |blocks|
      modifies this, bytes
      ensures Valid()
      ensures rmem == NULL ==> View() == old(View())
      ensures rmem != NULL ==> View() == Spec.Free(old(View()), Spec.Live(old(View()), rmem))
      ensures forall k :: k in old(LiveBytes(blocks, HDR, Pool(size))) ==> bytes[k] == old(bytes[k])
    {
      LiveBound(blocks, HDR, Pool(size));
      hide Spec.WF, Linked, Spaced, Mark, Spec.Live, Spec.HintAfterPlug, MergeLeft, MergeRight, LiveBytes, AllOff, Writable;
      if rmem == NULL { return; }
      var mem := rmem - HDR;
      ghost var m, i, keep := View(), Spec.Live(View(), rmem), LiveBytes(blocks, HDR, Pool(size));
      HeadersKept(m);
      Facts(m, i);
      Laws.FreeWF(m, i);
      LinkedAt(used, next, prev, blocks, i);
      MarkIndex(blocks, i, false);
      HintSame(blocks, i);
      Flag(mem, false, i, keep);
      if mem < lfree { lfree := mem; }
      usedMem := usedMem - (next[mem] - mem);
      PlugHoles(mem, i, keep);
    }

    /** Writes the header of a free block at `cut` inside block i and links it. */
    method InsertHeader(mem: int, cut: int, ghost i: nat, ghost keep: set<int>)
      requires Chained(keep) && i + 1 < |blocks| && blocks[i].addr == mem && Writable(bytes.Length, cut, HDR, keep)
      requires mem + HDR <= cut && cut + HDR <= blocks[i + 1].addr
      requires i + 2 < |blocks| <==> blocks[i + 1].addr != size + HDR
      modifies this`used, this`next, this`prev, this`blocks, bytes
      ensures Chained(keep) && blocks == Split(old(blocks), i, cut, false)
      ensures forall k :: k in keep && 0 <= k < bytes.Length ==> bytes[k] == old(bytes[k])
    {
      hide Linked, Spaced, Split, AllOff, Writable;
      LinkedAt(used, next, prev, blocks, i);
      OffAt(bytes.Length, blocks, HDR, keep, i);
      OffAt(bytes.Length, blocks, HDR, keep, i + 1);
      OffSplit(bytes.Length, blocks, HDR, keep, i, cut);
      ghost var links := if i + 2 == |blocks| then prev[cut := mem] else prev[cut := mem][blocks[i + 1].addr := cut];
      LinkedSplit(used, next, prev, links, blocks, i, cut, false);
      SplitSpaced(blocks, HDR, i, cut, false);
      SplitLast(blocks, i, cut);
      SetUsed(cut, false, keep);
      SetNext(cut, next[mem], keep);
      SetPrev(cut, mem, keep);
      SetNext(mem, cut, keep);
      if next[cut] != size + HDR {
        SetPrev(next[cut], cut, keep);
      }
      blocks := Split(blocks, i, cut, false);
    }

    /** Sets the used bit of block i. */
    method Flag(mem: int, u: bool, ghost i: nat, ghost keep: set<int>)
      requires Chained(keep) && i + 1 < |blocks| && blocks[i].addr == mem
      modifies this`used, this`blocks, bytes
      ensures Chained(keep) && blocks == Mark(old(blocks), i, u)
      ensures forall k :: k in keep && 0 <= k < bytes.Length ==> bytes[k] == old(bytes[k])
    {
      hide Linked, Spaced, Mark, AllOff, Writable;
      LinkedMark(used, next, prev, blocks, i, u);
      MarkIndex(blocks, i, u);
      MarkSpaced(blocks, i, u);
      OffAfter(bytes.Length, blocks, HDR, keep);
      OffAt(bytes.Length, blocks, HDR, keep, i);
      SetUsed(mem, u, keep);
      blocks := Mark(blocks, i, u);
    }

    /** Marks free block i used, cutting off and linking a rest when it is large enough. */
    method SplitOrUse(mem: int, req: nat, ghost i: nat, ghost keep: set<int>)
      requires Chained(keep) && i + 1 < |blocks| && blocks[i].addr == mem
      requires i + 2 < |blocks| <==> blocks[i + 1].addr != size + HDR
      requires Payload(blocks, i, HDR) >= req + HDR + Spec.MIN_SIZE ==> Writable(bytes.Length, mem + HDR + req, HDR, keep)
      modifies this`used, this`next, this`prev, this`usedMem, this`maxMem, this`blocks, bytes
      ensures Linked(used, next, prev, blocks) && blocks == Spec.Taken(old(blocks), i, req)
      ensures usedMem == old(usedMem) + (if Payload(old(blocks), i, HDR) >= req + HDR + Spec.MIN_SIZE
                                         then req + HDR else old(blocks)[i + 1].addr - mem)
      ensures maxMem == if old(maxMem) < usedMem then usedMem else old(maxMem)
      ensures forall k :: k in keep && 0 <= k < bytes.Length ==> bytes[k] == old(bytes[k])
    {
      hide Linked, Spaced, AllOff, Writable, Split, Mark;
      LinkedAt(used, next, prev, blocks, i);
      if next[mem] - (mem + HDR) >= req + HDR + Spec.MIN_SIZE {
        TakenParts(blocks, i, req);
        SplitLast(blocks, i, mem + HDR + req);
        InsertHeader(mem, mem + HDR + req, i, keep);
        usedMem := usedMem + req + HDR;
      } else {
        usedMem := usedMem + next[mem] - mem;
      }
      if maxMem < usedMem { maxMem := usedMem; }
      Flag(mem, true, i, keep);
    }

    /** Hands out free block i, then moves lfree past used blocks. */
    method Take(mem: int, req: nat, ghost i: nat)
      requires Valid() && i + 1 < |blocks| && blocks[i] == Block(mem, false) && req % Spec.ALIGN == 0
      modifies this, bytes
      ensures Valid() && View() == Spec.Take(old(View()), i, req)
      ensures forall k :: k in old(LiveBytes(blocks, HDR, Pool(size))) ==> bytes[k] == old(bytes[k])
    {
      LiveBound(blocks, HDR, Pool(size));
      hide Spec.WF, Linked, Spaced, Spec.Taken, Spec.NextFree, LiveBytes, AllOff, Writable, Tiled;
      ghost var m, keep := View(), LiveBytes(blocks, HDR, Pool(size));
      HeadersKept(m);
      if Payload(blocks, i, HDR) >= req + HDR + Spec.MIN_SIZE {
        GapOff(blocks, HDR, Pool(size), i, mem + HDR + req);
      }
      Facts(m, i);
      Laws.TakeWF(m, i, req);
      Laws.TakenAt(blocks, i, req);
      OnlyEnd(Spec.Take(m, i, req));
      SplitOrUse(mem, req, i, keep);
      if mem == lfree {
        Advance(i);
      }
    }

    /** Moves lfree, which is the address of block i, to the next free block or to heap_end. */
    method Advance(ghost i: nat)
      requires Linked(used, next, prev, blocks) && i < |blocks| && lfree == blocks[i].addr
      requires forall k :: 0 <= k < |blocks| ==> (blocks[k].addr == size + HDR <==> k == |blocks| - 1)
      modifies this`lfree
      ensures lfree == Spec.NextFree(blocks, i)
    {
      ghost var k := i;
      while used[lfree] && lfree != size + HDR
        invariant k < |blocks| && lfree == blocks[k].addr
        invariant Spec.NextFree(blocks, k) == Spec.NextFree(blocks, i)
        decreases |blocks| - k
      {
        lfree := next[lfree];
        k := k + 1;
      }
    }

    /** The search loop of rt_malloc. */
    method Find(req: nat) returns (ptr: int, found: bool, ghost i: nat)
      requires Valid()
      ensures i == Spec.Search(blocks, At(blocks, lfree), size - req, req)
      ensures found == (i + 1 < |blocks|) && (found ==> ptr == blocks[i].addr)
    {
      hide Spec.WF, Linked, At;
      ghost var h := At(blocks, lfree);
      Laws.HintIndex(View());
      ptr, found, i := lfree, false, h;
      while ptr < size - req
        invariant i < |blocks| && ptr == blocks[i].addr
        invariant Spec.Search(blocks, h, size - req, req) == Spec.Search(blocks, i, size - req, req)
        decreases |blocks| - i
      {
        EndsAfter(View(), i);
        LinkedAt(used, next, prev, blocks, i);
        if !used[ptr] && next[ptr] - (ptr + HDR) >= req {
          return ptr, true, i;
        }
        ptr, i := next[ptr], i + 1;
      }
      i := |blocks|;
    }

    /** rt_malloc. */
    method Malloc(n: nat) returns (p: int)
      requires Valid() && n < Spec.WORD
      modifies this, bytes
      ensures Valid()
      ensures View() == Spec.Malloc(old(View()), n).0 && p == Spec.Malloc(old(View()), n).1
      ensures forall k :: k in old(LiveBytes(blocks, HDR, Pool(size))) ==> bytes[k] == old(bytes[k])
    {
      LiveBound(blocks, HDR, Pool(size));
      hide LiveBytes, Spec.WF, Linked, Spec.Take, At, Spec.Search, Spec.Align, Spec.Request;
      if n == 0 { return NULL; }
      var aligned := Spec.Align(n);
      if aligned > size { return NULL; }
      var req := Spec.Request(n);
      var ptr, found, i := Find(req);
      if !found { return NULL; }
      SearchFits(blocks, At(blocks, lfree), size - req, req);
      Take(ptr, req, i);
      p := ptr + HDR;
    }

    /** Copies n payload bytes of block j to live bytes elsewhere and frees the block. */
    method CopyAndFree(rmem: int, dst: int, n: nat, ghost j: nat)
      requires Valid() && j + 1 < |blocks| && Spec.Live(View(), rmem) == j
      requires 0 <= rmem && rmem + n <= bytes.Length && 0 <= dst && dst + n <= bytes.Length
      requires dst + n <= rmem || rmem + n <= dst
      requires forall k :: dst <= k < dst + n ==> k in LiveBytes(blocks, HDR, Pool(size))
      modifies this, bytes
      ensures Valid() && View() == Spec.Free(old(View()), j)
      ensures bytes[dst..dst + n] == old(bytes[rmem..rmem + n])
      ensures forall k :: k in old(LiveBytes(blocks, HDR, Pool(size))) && !(dst <= k < dst + n) ==> bytes[k] == old(bytes[k])
    {
      LiveBound(blocks, HDR, Pool(size));
      hide Spec.WF, Linked, LiveBytes, Spec.Free, Spec.Live;
      Copy(bytes, dst, rmem, n);
      ghost var copied := bytes[dst..dst + n];
      Free(rmem);
      assert bytes[dst..dst + n] == copied;
    }

    /** Realloc by allocating anew, copying as much as both blocks hold and freeing the old block. */
    method MoveBlock(rmem: int, cur: nat, n: nat, ghost i: nat) returns (p: int)
      requires Valid() && i + 1 < |blocks| && Spec.Live(View(), rmem) == i && blocks[i] == Block(rmem - HDR, true)
      requires cur == Payload(blocks, i, HDR) && n < Spec.WORD && Spec.Request(n) >= n && HDR <= rmem && rmem - HDR < size
      modifies this, bytes
      ensures Valid()
      ensures View() == Spec.Move(old(View()), i, n).0 && p == Spec.Move(old(View()), i, n).1
      ensures forall k :: k in old(LiveBytes(blocks, HDR, Pool(size))) ==> bytes[k] == old(bytes[k])
      ensures p != NULL ==>
                var kept := if cur < n then cur else n;
                && 0 <= p && p + kept <= bytes.Length && rmem + kept <= bytes.Length
                && bytes[p..p + kept] == old(bytes[rmem..rmem + kept])
    {
      hide Spec.WF, Linked, LiveBytes, Spec.Malloc, Spec.Free, Spec.Move, Spec.Live, At, Payload, Spec.Request;
      ghost var m, keep := View(), LiveBytes(blocks, HDR, Pool(size));
      Laws.MoveWF(m, i, n);
      Laws.MallocNull(m, n);
      LivePayload(m, i, rmem, cur);
      MallocKeepsLive(m, n);
      LiveBound(blocks, HDR, Pool(size));
      p := Malloc(n);
      if p != NULL {
        var kept := if cur < n then cur else n;
        Relive(m, i, n);
        TargetFresh(m, n);
        CopyApart(rmem, p, kept, n, keep);
        CopyAndFree(rmem, p, kept, Spec.Live(View(), rmem));
      }
    }

    /** The part of rt_realloc for an allocated block and a size that is neither zero nor too large. */
    method Resize(rmem: int, n: nat, ghost i: nat, ghost room: nat) returns (p: int)
      requires Valid() && i + 1 < |blocks| && Spec.Live(View(), rmem) == i && blocks[i] == Block(rmem - HDR, true)
      requires 0 <= rmem < size + HDR && n < Spec.WORD && n % Spec.ALIGN == 0 && Spec.Request(n) >= n
      requires room == Payload(blocks, i, HDR)
      modifies this, bytes
      ensures Valid()
      ensures View() == Spec.Resize(old(View()), i, n).0 && p == Spec.Resize(old(View()), i, n).1
      ensures forall k :: k in old(LiveBytes(blocks, HDR, Pool(size))) && !(rmem <= k < rmem + room) ==> bytes[k] == old(bytes[k])
      ensures p == NULL ==> forall k :: k in old(LiveBytes(blocks, HDR, Pool(size))) ==> bytes[k] == old(bytes[k])
      ensures p != NULL ==>
                var kept := if n < room then n else room;
                && 0 <= p && p + kept <= bytes.Length && rmem + kept <= bytes.Length
                && bytes[p..p + kept] == old(bytes[rmem..rmem + kept])
    {
      LiveBound(blocks, HDR, Pool(size));
      hide Spec.WF, Linked, Spec.Malloc, Spec.Free, Spec.Shrink, Spec.Move, Spec.Live, LiveBytes,
           Spaced, Spec.Request;
      ghost var m := View();
      var mem := rmem - HDR;
      Facts(m, i);
      LinkedAt(used, next, prev, blocks, i);
      var cur := next[mem] - mem - HDR;
      LivePayload(m, i, rmem, cur);
      if cur == n { return rmem; }
      if n + HDR + Spec.MIN_SIZE < cur {
        Shrink(mem, n, i);
        return rmem;
      }
      p := MoveBlock(rmem, cur, n, i);
    }

    /** rt_realloc. */
    method Realloc(rmem: int, newsize: nat) returns (p: int)
      requires Valid() && newsize < Spec.WORD
      requires rmem != NULL && 0 <= rmem < size + HDR ==> Spec.Live(View(), rmem) + 1 < |blocks|
      modifies this, bytes
      ensures Valid()
      ensures View() == Spec.Realloc(old(View()), rmem, newsize).0
      ensures p == Spec.Realloc(old(View()), rmem, newsize).1
      ensures 0 <= rmem < size + HDR && p != NULL ==>
                var i := old(Spec.Live(View(), rmem));
                var (n, end) := (Spec.Align(newsize), EndOf(old(blocks), i));
                PayloadKept(old(bytes[..]), bytes[..], old(LiveBytes(blocks, HDR, Pool(size))), rmem, end,
                            if n < end - rmem then n else end - rmem, p)
      ensures p == NULL || !(0 <= rmem < size + HDR) ==>
                SameBytes(old(bytes[..]), bytes[..], old(LiveBytes(blocks, HDR, Pool(size))))
    {
      LiveBound(blocks, HDR, Pool(size));
      hide Spec.WF, Linked, Spec.Malloc, Spec.Free, Spec.Resize, Spec.Live, LiveBytes, Spec.Align, Spec.Request, Pool;
      var n := Spec.Align(newsize);
      RoundedSize(newsize);
      if n > size { return NULL; }
      if n == 0 {
        if 0 <= rmem < size + HDR { Free(rmem); }
        return NULL;
      }
      if rmem == NULL {
        p := Malloc(n);
        return;
      }
      if rmem < 0 || rmem >= size + HDR { return rmem; }
      ghost var i := Spec.Live(View(), rmem);
      Facts(View(), i);
      p := Resize(rmem, n, i, Payload(blocks, i, HDR));
    }

    /** The splitting branch of rt_realloc. */
    method Shrink(mem: int, n: nat, ghost i: nat)
      requires Valid() && i + 1 < |blocks| && blocks[i] == Block(mem, true)
      requires n % Spec.ALIGN == 0 && Spec.Shrinks(View(), i, n)
      modifies this, bytes
      ensures Valid() && View() == Spec.Shrink(old(View()), i, n)
      ensures forall k :: (k in old(LiveBytes(blocks, HDR, Pool(size)))
                           && !(mem + HDR + n <= k < old(blocks)[i + 1].addr)) ==> bytes[k] == old(bytes[k])
      ensures 0 <= mem && mem + HDR + n <= bytes.Length && bytes[mem + HDR..mem + HDR + n] == old(bytes[mem + HDR..mem + HDR + n])
    {
      LiveBound(blocks, HDR, Pool(size));
      hide Spec.WF, Linked, Spaced, Spec.HintAfterPlug, Split, MergeLeft, MergeRight, LiveBytes, AllOff, Writable, Tiled;
      ghost var m, keep := View(), KeptBytes(blocks, HDR, Pool(size), mem + HDR + n, blocks[i + 1].addr);
      LivePayload(m, i, mem + HDR, n);
      HeadersKept(m);
      Facts(m, i);
      TailOff(blocks, HDR, Pool(size), i, mem + HDR + n);
      Laws.ShrinkWF(m, i, n);
      LinkedAt(used, next, prev, blocks, i);
      usedMem := usedMem - (next[mem] - mem - HDR - n);
      var mem2 := mem + HDR + n;
      CutSteps(blocks, i, mem2, lfree);
      InsertHeader(mem, mem2, i, keep);
      PlugHoles(mem2, i + 1, keep);
    }
  }
}
