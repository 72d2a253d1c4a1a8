/** Address-ordered block sequences, the view both heaps keep of their pool.
    A block runs from its header address to the next header; the last entry is the sentinel that ends
    the pool. */
module Blocks {
  import opened Rings

  datatype Block = Block(addr: int, used: bool)

  /** The blocks cover [lo, hi) without gap or overlap, each leaving room for its header; the sentinel
      at hi is never free. */
  predicate Tiled(bs: seq<Block>, lo: int, hi: int, hdr: nat) {
    && |bs| >= 2
    && bs[0].addr == lo
    && bs[|bs| - 1] == Block(hi, true)
    && Spaced(bs, hdr)
  }

  predicate Spaced(bs: seq<Block>, hdr: nat) {
    forall i, j :: 0 <= i < j < |bs| ==> bs[i].addr + hdr <= bs[j].addr
  }

  predicate NoAdjacentFree(bs: seq<Block>) {
    forall i, j :: 0 <= i < |bs| - 1 && j == i + 1 ==> bs[i].used || bs[j].used
  }

  function Members(bs: seq<Block>): set<Block> {
    set b | b in bs
  }

  predicate AlignedTo(bs: seq<Block>, n: int)
    requires n > 0
  {
    forall b :: b in Members(bs) ==> b.addr % n == 0
  }

  /** Payload bytes of block i. */
  function Payload(bs: seq<Block>, i: nat, hdr: nat): int
    requires i + 1 < |bs|
  {
    bs[i + 1].addr - bs[i].addr - hdr
  }

  function Addrs(bs: seq<Block>): (r: seq<int>)
    ensures |r| == |bs|
    ensures forall i :: 0 <= i < |bs| ==> r[i] == bs[i].addr
  {
    seq(|bs|, i requires 0 <= i < |bs| => bs[i].addr)
  }

  /** Index of the block that starts at `a`, or |bs|. */
  function At(bs: seq<Block>, a: int): (k: nat)
    ensures k <= |bs|
    ensures k < |bs| ==> bs[k].addr == a
    ensures forall i :: 0 <= i < k ==> bs[i].addr != a
  {
    if bs == [] then 0
    else if bs[0].addr == a then 0
    else 1 + At(bs[1..], a)
  }

  lemma AtUnique(bs: seq<Block>, lo: int, hi: int, hdr: nat, i: nat)
    requires Tiled(bs, lo, hi, hdr) && hdr > 0 && i < |bs|
    ensures At(bs, bs[i].addr) == i
  {
  }

  function Mark(bs: seq<Block>, i: nat, used: bool): seq<Block>
    requires i < |bs|
  {
    bs[i := bs[i].(used := used)]
  }

  /** Cuts block i in two at address `a`. */
  function Split(bs: seq<Block>, i: nat, a: int, used: bool): seq<Block>
    requires i < |bs|
  {
    InsertAt(bs, i + 1, Block(a, used))
  }

  /** Block i takes over block i + 1. */
  function Absorb(bs: seq<Block>, i: nat): seq<Block>
    requires i + 1 < |bs|
  {
    RemoveAt(bs, i + 1)
  }

  function MergeRight(bs: seq<Block>, i: nat): (r: seq<Block>)
    requires i + 1 < |bs|
    ensures |r| > i && r[i] == bs[i]
    ensures forall k :: 0 <= k < i ==> r[k] == bs[k]
  {
    if !bs[i + 1].used then Absorb(bs, i) else bs
  }

  function MergeLeft(bs: seq<Block>, i: nat): seq<Block>
    requires i < |bs|
  {
    if i > 0 && !bs[i - 1].used then Absorb(bs, i - 1) else bs
  }

  /** Frees block i and merges it with whichever neighbours are free. */
  function Release(bs: seq<Block>, i: nat): seq<Block>
    requires i + 1 < |bs|
  {
    MergeLeft(MergeRight(Mark(bs, i, false), i), i)
  }

  /** Reference definition of merging: every run of neighbouring free blocks becomes one block. */
  function Coalesce(bs: seq<Block>): (r: seq<Block>)
    ensures bs != [] ==> r != [] && r[0] == bs[0]
  {
    if bs == [] then [] else Push(bs[0], Coalesce(bs[1..]))
  }

  function Push(b: Block, rest: seq<Block>): seq<Block> {
    if rest != [] && !b.used && !rest[0].used then [b] + rest[1..] else [b] + rest
  }

  /** Full merging leaves no two neighbouring free blocks. */
  lemma {:induction false} CoalesceSeparates(bs: seq<Block>)
    ensures NoAdjacentFree(Coalesce(bs))
  {
    if bs != [] {
      CoalesceSeparates(bs[1..]);
      var c, r := Coalesce(bs[1..]), Coalesce(bs);
      forall i, j | 0 <= i < |r| - 1 && j == i + 1 ensures r[i].used || r[j].used {
        var d := |r| - |c|;
        if i > 0 { assert r[i] == c[i - d] && r[j] == c[j - d]; }
        else if d == 0 { assert c[0].used || c[1].used; assert r[1] == c[1]; }
      }
    }
  }

  lemma SeparateSlice(bs: seq<Block>, d: nat, e: nat)
    requires NoAdjacentFree(bs) && d <= e <= |bs|
    ensures NoAdjacentFree(bs[d..e])
  {
    var r := bs[d..e];
    forall i, j | 0 <= i < |r| - 1 && j == i + 1 ensures r[i].used || r[j].used {
      assert r[i] == bs[d + i] && r[j] == bs[d + j];
    }
  }

  lemma {:induction false} CoalesceFixed(bs: seq<Block>)
    requires NoAdjacentFree(bs)
    ensures Coalesce(bs) == bs
  {
    if bs != [] {
      SeparateSlice(bs, 1, |bs|);
      CoalesceFixed(bs[1..]);
    }
  }

  /** Merging works on either side of a used block separately. */
  lemma {:induction false} CoalesceConcat(x: seq<Block>, y: seq<Block>)
    requires |x| > 0 && |y| > 0 ==> x[|x| - 1].used || y[0].used
    ensures Coalesce(x + y) == Coalesce(x) + Coalesce(y)
  {
    if x == [] {
      assert x + y == y;
    } else {
      var t := x[1..];
      assert (x + y)[1..] == t + y;
      CoalesceConcat(t, y);
      PushConcat(x[0], Coalesce(t), Coalesce(y));
    }
  }

  lemma PushConcat(b: Block, c: seq<Block>, d: seq<Block>)
    requires c == [] && d != [] ==> b.used || d[0].used
    ensures Push(b, c + d) == Push(b, c) + d
  {
  }

  lemma {:induction false} CoalesceRun(bs: seq<Block>)
    requires bs != [] && forall i :: 0 <= i < |bs| ==> !bs[i].used
    ensures Coalesce(bs) == [bs[0]]
  {
    if |bs| > 1 {
      CoalesceRun(bs[1..]);
    }
  }

  /** The range of blocks that become one when block i is freed. */
  function RunStart(bs: seq<Block>, i: nat): (lo: nat)
    requires i < |bs|
    ensures lo <= i
  {
    if i > 0 && !bs[i - 1].used then i - 1 else i
  }

  function RunEnd(bs: seq<Block>, i: nat): (hi: nat)
    requires i + 1 < |bs|
    ensures i < hi <= |bs|
  {
    if !bs[i + 1].used then i + 2 else i + 1
  }

  lemma RemoveMiddle(x: seq<Block>, b: Block, z: seq<Block>)
    ensures RemoveAt(x + ([b] + z), |x|) == x + z
  {
  }

  lemma ReleaseShape(bs: seq<Block>, i: nat)
    requires i + 1 < |bs|
    ensures Release(bs, i)
         == bs[..RunStart(bs, i)] + ([Block(bs[RunStart(bs, i)].addr, false)] + bs[RunEnd(bs, i)..])
  {
    var m, z := Mark(bs, i, false), bs[RunEnd(bs, i)..];
    var right := MergeRight(m, i);
    assert right == bs[..i] + ([m[i]] + z);
    if i > 0 && !bs[i - 1].used {
      RemoveMiddle(bs[..i], m[i], z);
      assert bs[..i] + z == bs[..i - 1] + ([bs[i - 1]] + z);
    }
  }

  lemma CoalesceFront(y: seq<Block>, z: seq<Block>)
    requires NoAdjacentFree(z) && y != []
    requires forall i :: 0 <= i < |y| ==> !y[i].used
    requires z != [] ==> z[0].used
    ensures Coalesce(y + z) == [y[0]] + z
  {
    CoalesceConcat(y, z);
    CoalesceFixed(z);
    CoalesceRun(y);
  }

  /** A run of free blocks between used ones merges into its first block; the rest stays as it is. */
  lemma CoalesceMiddle(x: seq<Block>, y: seq<Block>, z: seq<Block>, m: seq<Block>)
    requires NoAdjacentFree(x) && NoAdjacentFree(z) && y != []
    requires forall i :: 0 <= i < |y| ==> !y[i].used
    requires x != [] ==> x[|x| - 1].used
    requires z != [] ==> z[0].used
    requires m == x + (y + z)
    ensures Coalesce(m) == x + ([y[0]] + z)
  {
    CoalesceFront(y, z);
    CoalesceFixed(x);
    CoalesceConcat(x, y + z);
  }

  lemma MarkShape(bs: seq<Block>, i: nat) returns (y: seq<Block>)
    requires i + 1 < |bs|
    ensures y != [] && y[0] == Block(bs[RunStart(bs, i)].addr, false)
    ensures forall k :: 0 <= k < |y| ==> !y[k].used
    ensures Mark(bs, i, false) == bs[..RunStart(bs, i)] + (y + bs[RunEnd(bs, i)..])
  {
    y := Mark(bs, i, false)[RunStart(bs, i)..RunEnd(bs, i)];
  }

  /** The two local merges of a free operation do everything full merging would do. */
  lemma ReleaseIsCoalesce(bs: seq<Block>, i: nat)
    requires NoAdjacentFree(bs) && i + 1 < |bs| && bs[|bs| - 1].used
    ensures Release(bs, i) == Coalesce(Mark(bs, i, false))
  {
    var lo, hi := RunStart(bs, i), RunEnd(bs, i);
    SeparateSlice(bs, 0, lo);
    SeparateSlice(bs, hi, |bs|);
    var y := MarkShape(bs, i);
    ReleaseShape(bs, i);
    assert lo > 0 ==> bs[lo - 1].used;
    assert hi < |bs| ==> bs[hi].used;
    CoalesceMiddle(bs[..lo], y, bs[hi..], Mark(bs, i, false));
  }

  // ----- what the three edits keep

  lemma MarkKeeps(bs: seq<Block>, lo: int, hi: int, hdr: nat, i: nat, used: bool)
    requires Tiled(bs, lo, hi, hdr) && hdr > 0 && i + 1 < |bs|
    ensures Tiled(Mark(bs, i, used), lo, hi, hdr)
    ensures Members(Mark(bs, i, used)) == Members(bs) - {bs[i]} + {Block(bs[i].addr, used)}
  {
    var m := Mark(bs, i, used);
    forall x | x in bs && x != bs[i] ensures x in m {
      var k :| 0 <= k < |bs| && bs[k] == x;
      assert m[k] == x;
    }
    forall x | x in m ensures (x in bs && x != bs[i]) || x == Block(bs[i].addr, used) {
      var k :| 0 <= k < |m| && m[k] == x;
      if k != i { assert bs[k] == x; }
    }
    assert m[i] == Block(bs[i].addr, used);
  }

  lemma SplitSpaced(bs: seq<Block>, hdr: nat, i: nat, a: int, used: bool)
    requires Spaced(bs, hdr) && i + 1 < |bs|
    requires bs[i].addr + hdr <= a && a + hdr <= bs[i + 1].addr
    ensures Spaced(Split(bs, i, a, used), hdr)
  {
    var s := Split(bs, i, a, used);
    forall p, q | 0 <= p < q < |s| ensures s[p].addr + hdr <= s[q].addr {
      var p', q' := if p <= i then p else p - 1, if q <= i then q else q - 1;
      if p == i + 1 {
        assert s[q] == bs[q'];
        assert q' == i + 1 || bs[i + 1].addr + hdr <= bs[q'].addr;
      } else if q == i + 1 {
        assert s[p] == bs[p'];
        assert p' == i || bs[p'].addr + hdr <= bs[i].addr;
      } else {
        assert s[p] == bs[p'] && s[q] == bs[q'];
      }
    }
  }

  lemma SplitKeeps(bs: seq<Block>, lo: int, hi: int, hdr: nat, i: nat, a: int, used: bool)
    requires Tiled(bs, lo, hi, hdr) && i + 1 < |bs|
    requires bs[i].addr + hdr <= a && a + hdr <= bs[i + 1].addr
    ensures Tiled(Split(bs, i, a, used), lo, hi, hdr)
    ensures Members(Split(bs, i, a, used)) == Members(bs) + {Block(a, used)}
  {
    SplitSpaced(bs, hdr, i, a, used);
    InsertMembers(bs, i + 1, Block(a, used));
  }

  lemma AbsorbKeeps(bs: seq<Block>, lo: int, hi: int, hdr: nat, i: nat)
    requires Tiled(bs, lo, hi, hdr) && hdr > 0 && i + 2 < |bs|
    ensures Tiled(Absorb(bs, i), lo, hi, hdr)
    ensures Members(Absorb(bs, i)) == Members(bs) - {bs[i + 1]}
  {
    RemoveMembers(bs, i + 1);
  }

  lemma OneFlag(bs: seq<Block>, hdr: nat, i: nat)
    requires Spaced(bs, hdr) && hdr > 0 && i < |bs|
    ensures Block(bs[i].addr, !bs[i].used) !in Members(bs)
  {
    forall k | 0 <= k < |bs| ensures bs[k] != Block(bs[i].addr, !bs[i].used) {
      assert k < i || k == i || i < k;
    }
  }

  lemma FreshAddress(bs: seq<Block>, hdr: nat, i: nat, a: int)
    requires Spaced(bs, hdr) && i + 1 < |bs|
    requires bs[i].addr < a < bs[i + 1].addr
    ensures Block(a, false) !in Members(bs) && Block(a, true) !in Members(bs)
  {
    forall k | 0 <= k < |bs| ensures bs[k].addr != a {
      assert k < i || k == i || k == i + 1 || i + 1 < k;
    }
  }

  lemma FreedRight(bs: seq<Block>, lo: int, hi: int, hdr: nat, i: nat, r: seq<Block>)
    requires Tiled(bs, lo, hi, hdr) && hdr > 0 && i + 1 < |bs| && bs[i].used
    requires r == MergeRight(Mark(bs, i, false), i)
    ensures Tiled(r, lo, hi, hdr) && i + 1 < |r|
    ensures Members(r) == Members(bs) - {bs[i]} - (if bs[i + 1].used then {} else {bs[i + 1]})
                          + {Block(bs[i].addr, false)}
  {
    var m := Mark(bs, i, false);
    MarkKeeps(bs, lo, hi, hdr, i, false);
    if !m[i + 1].used { AbsorbKeeps(m, lo, hi, hdr, i); }
    assert bs[i + 1] != Block(bs[i].addr, false);
  }

  lemma FreedLeft(bs: seq<Block>, lo: int, hi: int, hdr: nat, i: nat)
    requires Tiled(bs, lo, hi, hdr) && hdr > 0 && i + 1 < |bs|
    ensures Tiled(MergeLeft(bs, i), lo, hi, hdr)
    ensures Members(MergeLeft(bs, i))
         == Members(bs) - (if i > 0 && !bs[i - 1].used then {bs[i]} else {})
  {
    if i > 0 && !bs[i - 1].used { AbsorbKeeps(bs, lo, hi, hdr, i - 1); }
  }

  /** Freeing keeps the tiling; the entries that go are the block itself and the merged neighbours. */
  lemma ReleaseKeeps(bs: seq<Block>, lo: int, hi: int, hdr: nat, i: nat)
    requires Tiled(bs, lo, hi, hdr) && hdr > 0 && i + 1 < |bs| && bs[i].used
    ensures Tiled(Release(bs, i), lo, hi, hdr)
    ensures Members(Release(bs, i)) == Members(bs) - {bs[i]} - (if bs[i + 1].used then {} else {bs[i + 1]})
                                       + (if i == 0 || bs[i - 1].used then {Block(bs[i].addr, false)} else {})
  {
    var r := MergeRight(Mark(bs, i, false), i);
    FreedRight(bs, lo, hi, hdr, i, r);
    FreedLeft(r, lo, hi, hdr, i);
    OneFlag(bs, hdr, i);
  }

  lemma NextUsed(bs: seq<Block>, i: nat)
    requires NoAdjacentFree(bs) && i + 1 < |bs| && !bs[i].used
    ensures bs[i + 1].used
    ensures i > 0 ==> bs[i - 1].used
  {
  }

  lemma IsMember(bs: seq<Block>, i: nat)
    requires i < |bs|
    ensures bs[i] in Members(bs)
  {
  }

  lemma MarkSeparates(bs: seq<Block>, i: nat)
    requires NoAdjacentFree(bs) && i + 1 < |bs|
    ensures NoAdjacentFree(Mark(bs, i, true))
  {
    var m := Mark(bs, i, true);
    forall p, q | 0 <= p < |m| - 1 && q == p + 1 ensures m[p].used || m[q].used {
      assert bs[p].used || bs[q].used;
    }
  }

  lemma SplitSeparates(bs: seq<Block>, i: nat, a: int)
    requires NoAdjacentFree(bs) && i + 1 < |bs| && bs[i].used && bs[i + 1].used
    ensures NoAdjacentFree(Split(bs, i, a, false))
  {
    var s := Split(bs, i, a, false);
    forall p, q | 0 <= p < |s| - 1 && q == p + 1 ensures s[p].used || s[q].used {
      if p < i { assert s[p] == bs[p] && s[q] == bs[q]; }
      else if p > i + 1 { assert s[p] == bs[p - 1] && s[q] == bs[q - 1]; }
      else if p == i + 1 { assert s[q] == bs[i + 1]; }
    }
  }

  lemma AddrsOf(bs: seq<Block>)
    ensures forall i, used :: 0 <= i < |bs| ==> Addrs(Mark(bs, i, used)) == Addrs(bs)
    ensures forall i, a, used :: 0 <= i < |bs| ==> Addrs(Split(bs, i, a, used)) == InsertAt(Addrs(bs), i + 1, a)
    ensures forall i :: 0 <= i < |bs| - 1 ==> Addrs(Absorb(bs, i)) == RemoveAt(Addrs(bs), i + 1)
  {
  }

  /** Merging with the left neighbour first and the right one second gives the same sequence. */
  lemma ReleaseLeftFirst(bs: seq<Block>, i: nat)
    requires i + 1 < |bs| && bs[i].used
    ensures var l := MergeLeft(Mark(bs, i, false), i);
            var j := if i > 0 && !bs[i - 1].used then i - 1 else i;
            j + 1 < |l| && l[j + 1] == bs[i + 1] && MergeRight(l, j) == Release(bs, i)
            && l[j].addr == (if j == i then bs[i].addr else bs[i - 1].addr)
  {
  }

  lemma SplitUsedSeparates(bs: seq<Block>, i: nat, a: int)
    requires NoAdjacentFree(bs) && i + 1 < |bs| && bs[i].used
    ensures NoAdjacentFree(Split(bs, i, a, true))
  {
    var s := Split(bs, i, a, true);
    forall p, q | 0 <= p < |s| - 1 && q == p + 1 ensures s[p].used || s[q].used {
      if p < i { assert s[p] == bs[p] && s[q] == bs[q]; }
      else if p > i + 1 { assert s[p] == bs[p - 1] && s[q] == bs[q - 1]; }
    }
  }

  // ----- byte accounting

  /** Payload bytes of the free blocks. */
  function FreeBytes(bs: seq<Block>, hdr: nat): int {
    if |bs| <= 1 then 0
    else (if bs[0].used then 0 else Payload(bs, 0, hdr)) + FreeBytes(bs[1..], hdr)
  }

  /** Bytes, headers included, of the used blocks before the sentinel. */
  function UsedExtent(bs: seq<Block>): int {
    if |bs| <= 1 then 0
    else (if bs[0].used then bs[1].addr - bs[0].addr else 0) + UsedExtent(bs[1..])
  }

  lemma {:induction false} MarkSums(bs: seq<Block>, i: nat, used: bool, hdr: nat)
    requires i + 1 < |bs|
    ensures FreeBytes(Mark(bs, i, used), hdr) == FreeBytes(bs, hdr)
              + (if used then 0 else Payload(bs, i, hdr)) - (if bs[i].used then 0 else Payload(bs, i, hdr))
    ensures UsedExtent(Mark(bs, i, used)) == UsedExtent(bs)
              + (if used then bs[i + 1].addr - bs[i].addr else 0)
              - (if bs[i].used then bs[i + 1].addr - bs[i].addr else 0)
  {
    var m := Mark(bs, i, used);
    if i == 0 {
      assert m[1..] == bs[1..];
    } else {
      MarkSums(bs[1..], i - 1, used, hdr);
      assert m[1..] == Mark(bs[1..], i - 1, used);
    }
  }

  lemma {:induction false} SplitSums(bs: seq<Block>, i: nat, a: int, used: bool, hdr: nat)
    requires i + 1 < |bs|
    ensures FreeBytes(Split(bs, i, a, used), hdr) == FreeBytes(bs, hdr)
              + (if used then 0 else bs[i + 1].addr - a - hdr)
              - (if bs[i].used then 0 else bs[i + 1].addr - a)
    ensures UsedExtent(Split(bs, i, a, used)) == UsedExtent(bs)
              + (if used then bs[i + 1].addr - a else 0)
              - (if bs[i].used then bs[i + 1].addr - a else 0)
  {
    var s := Split(bs, i, a, used);
    if i == 0 {
      assert s[1..] == [Block(a, used)] + bs[1..];
      assert s[1..][1..] == bs[1..];
    } else {
      SplitSums(bs[1..], i - 1, a, used, hdr);
      assert s[1..] == Split(bs[1..], i - 1, a, used);
    }
  }

  lemma {:induction false} AbsorbSums(bs: seq<Block>, i: nat, hdr: nat)
    requires i + 2 < |bs|
    ensures FreeBytes(Absorb(bs, i), hdr) == FreeBytes(bs, hdr)
              + (if bs[i].used then 0 else bs[i + 2].addr - bs[i + 1].addr)
              - (if bs[i + 1].used then 0 else Payload(bs, i + 1, hdr))
    ensures UsedExtent(Absorb(bs, i)) == UsedExtent(bs)
              + (if bs[i].used then bs[i + 2].addr - bs[i + 1].addr else 0)
              - (if bs[i + 1].used then bs[i + 2].addr - bs[i + 1].addr else 0)
  {
    var s := Absorb(bs, i);
    if i == 0 {
      assert s[1..] == bs[2..];
      assert bs[1..][1..] == bs[2..];
    } else {
      AbsorbSums(bs[1..], i - 1, hdr);
      assert s[1..] == Absorb(bs[1..], i - 1);
    }
  }

  /** Freeing block i adds its payload, and one header for each neighbour merged, to the free bytes;
      the used bytes drop by the extent of the block. */
  lemma ReleaseSums(bs: seq<Block>, i: nat, hdr: nat)
    requires i + 1 < |bs| && bs[i].used && bs[|bs| - 1].used
    ensures FreeBytes(Release(bs, i), hdr) == FreeBytes(bs, hdr) + Payload(bs, i, hdr)
              + (if i > 0 && !bs[i - 1].used then hdr else 0) + (if !bs[i + 1].used then hdr else 0)
    ensures UsedExtent(Release(bs, i)) == UsedExtent(bs) - (bs[i + 1].addr - bs[i].addr)
  {
    var m := Mark(bs, i, false);
    MarkSums(bs, i, false, hdr);
    var right := MergeRight(m, i);
    if !m[i + 1].used { AbsorbSums(m, i, hdr); }
    if i > 0 && !right[i - 1].used { AbsorbSums(right, i - 1, hdr); }
  }

  /** Every address of the pool lies in exactly one block. */
  lemma {:induction false} Covers(bs: seq<Block>, lo: int, hi: int, hdr: nat, x: int) returns (i: nat)
    requires Tiled(bs, lo, hi, hdr) && lo <= x < hi
    ensures i + 1 < |bs| && bs[i].addr <= x < bs[i + 1].addr
    ensures forall j :: 0 <= j < |bs| - 1 && bs[j].addr <= x && x < bs[j + 1].addr ==> j == i
  {
    i := 0;
    while bs[i + 1].addr <= x
      invariant i + 1 < |bs| && bs[i].addr <= x
      decreases |bs| - i
    {
      i := i + 1;
    }
    forall j | 0 <= j < |bs| - 1 && bs[j].addr <= x && x < bs[j + 1].addr ensures j == i {
      assert j + 1 <= i || i + 1 <= j || i == j;
      assert forall p, q :: 0 <= p <= q < |bs| ==> bs[p].addr <= bs[q].addr;
    }
  }
}
