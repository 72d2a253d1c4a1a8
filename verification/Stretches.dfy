/** The stretches of a pool that are handed out, each from its header to the next header: what a caller of a heap can
    know of it. */
module Stretches {
  import opened Rings
  import opened Blocks

  function Extent(bs: seq<Block>, i: nat): (int, int)
    requires i + 1 < |bs|
  {
    (bs[i].addr, bs[i + 1].addr)
  }

  ghost function Extents(bs: seq<Block>): set<(int, int)> {
    set i | 0 <= i < |bs| - 1 && bs[i].used :: Extent(bs, i)
  }

  ghost predicate IsExtent(bs: seq<Block>, i: int, x: (int, int)) {
    0 <= i < |bs| - 1 && bs[i].used && x == (bs[i].addr, bs[i + 1].addr)
  }

  lemma IndexOfExtent(bs: seq<Block>, x: (int, int)) returns (i: int)
    requires x in Extents(bs)
    ensures IsExtent(bs, i, x)
  {
    i :| 0 <= i < |bs| - 1 && bs[i].used && x == Extent(bs, i);
  }

  lemma IsIn(bs: seq<Block>, i: int, x: (int, int))
    requires IsExtent(bs, i, x)
    ensures x in Extents(bs)
  {
    assert x == Extent(bs, i);
  }

  // ----- one stretch of blocks is replaced

  ghost predicate Inside(bs: seq<Block>, lo: int, hi: int, x: (int, int)) {
    exists j :: lo <= j < hi && IsExtent(bs, j, x)
  }

  ghost predicate Outside(bs: seq<Block>, lo: int, hi: int, x: (int, int)) {
    exists j :: (j < lo || j >= hi) && IsExtent(bs, j, x)
  }

  /** r is bs with n blocks in place of those from lo to hi. */
  ghost predicate Patched(bs: seq<Block>, lo: int, hi: int, n: int, r: seq<Block>) {
    && 0 <= lo < hi < |bs| && n > 0 && |r| == |bs| - (hi - lo) + n && r[lo].addr == bs[lo].addr
    && (forall k :: 0 <= k < lo ==> r[k] == bs[k])
    && (forall k :: lo + n <= k < |r| ==> r[k] == bs[k - n + hi - lo])
  }

  lemma Everywhere(bs: seq<Block>, lo: int, hi: int)
    ensures forall x :: x in Extents(bs) <==> Inside(bs, lo, hi, x) || Outside(bs, lo, hi, x)
  {
    forall x ensures x in Extents(bs) <==> Inside(bs, lo, hi, x) || Outside(bs, lo, hi, x) {
      if x in Extents(bs) { var i := IndexOfExtent(bs, x); }
    }
  }

  lemma PatchKeeps(bs: seq<Block>, lo: int, hi: int, n: int, r: seq<Block>, x: (int, int))
    requires Patched(bs, lo, hi, n, r)
    ensures Outside(bs, lo, hi, x) <==> Outside(r, lo, lo + n, x)
  {
    if Outside(bs, lo, hi, x) {
      var j :| (j < lo || j >= hi) && IsExtent(bs, j, x);
      assert IsExtent(r, if j < lo then j else j + n - hi + lo, x);
    }
    if Outside(r, lo, lo + n, x) {
      var j :| (j < lo || j >= lo + n) && IsExtent(r, j, x);
      assert IsExtent(bs, if j < lo then j else j - n + hi - lo, x);
    }
  }

  /** Blocks start at different places. */
  lemma NotOutside(bs: seq<Block>, hdr: nat, lo: int, hi: int, i: nat)
    requires Spaced(bs, hdr) && hdr > 0 && i + 1 < |bs| && lo <= i < hi
    ensures !Outside(bs, lo, hi, Extent(bs, i))
  {
    forall j ensures !((j < lo || j >= hi) && IsExtent(bs, j, Extent(bs, i))) {
      assert 0 <= j < i ==> bs[j].addr + hdr <= bs[i].addr;
      assert i < j < |bs| ==> bs[i].addr + hdr <= bs[j].addr;
    }
  }

  /** The extents after a stretch with one used block i has been replaced by one with at most one. */
  lemma PatchExtents(bs: seq<Block>, hdr: nat, i: nat, lo: int, hi: int, n: int, r: seq<Block>, gone: set<(int, int)>, come: set<(int, int)>)
    requires Spaced(bs, hdr) && hdr > 0 && Patched(bs, lo, hi, n, r) && lo <= i < hi < |bs|
    requires forall x :: Inside(bs, lo, hi, x) <==> x in gone
    requires forall x :: Inside(r, lo, lo + n, x) <==> x in come
    requires gone <= {Extent(bs, i)}
    ensures Extents(r) == Extents(bs) - gone + come
  {
    hide Patched, Inside, Outside, Spaced, Extents;
    Everywhere(bs, lo, hi);
    Everywhere(r, lo, lo + n);
    NotOutside(bs, hdr, lo, hi, i);
    forall x ensures Outside(bs, lo, hi, x) <==> Outside(r, lo, lo + n, x) { PatchKeeps(bs, lo, hi, n, r, x); }
  }

  lemma FreeHasNone(bs: seq<Block>, hdr: nat, i: nat)
    requires Spaced(bs, hdr) && hdr > 0 && i + 1 < |bs| && !bs[i].used
    ensures Extent(bs, i) !in Extents(bs)
  {
    Everywhere(bs, i, i + 1);
    NotOutside(bs, hdr, i, i + 1, i);
    hide Spaced, Outside, Extents;
  }

  // ----- what the edits do

  /** A free block is handed out as a whole. */
  lemma MarkExtents(bs: seq<Block>, hdr: nat, i: nat)
    requires Spaced(bs, hdr) && hdr > 0 && i + 1 < |bs| && !bs[i].used
    ensures Extents(Mark(bs, i, true)) == Extents(bs) + {Extent(bs, i)}
  {
    var m, e := Mark(bs, i, true), Extent(bs, i);
    assert IsExtent(m, i, e);
    hide Spaced, Extents;
    PatchExtents(bs, hdr, i, i, i + 1, 1, m, {}, {e});
  }

  /** A used block is cut short; the rest is free. */
  lemma CutExtents(bs: seq<Block>, hdr: nat, i: nat, cut: int)
    requires Spaced(bs, hdr) && hdr > 0 && i + 1 < |bs| && bs[i].used
    ensures Extents(Split(bs, i, cut, false)) == Extents(bs) - {Extent(bs, i)} + {(bs[i].addr, cut)}
  {
    hide Spaced, Extents;
    var s, e, f := Split(bs, i, cut, false), Extent(bs, i), (bs[i].addr, cut);
    assert IsExtent(bs, i, e) && IsExtent(s, i, f);
    PatchExtents(bs, hdr, i, i, i + 1, 2, s, {e}, {f});
  }

  /** A used block takes over the free block behind it. */
  lemma AbsorbExtents(bs: seq<Block>, hdr: nat, i: nat)
    requires Spaced(bs, hdr) && hdr > 0 && i + 2 < |bs| && bs[i].used && !bs[i + 1].used
    ensures Extents(Absorb(bs, i)) == Extents(bs) - {Extent(bs, i)} + {(bs[i].addr, bs[i + 2].addr)}
  {
    hide Spaced, Extents;
    var s, e, f := Absorb(bs, i), Extent(bs, i), (bs[i].addr, bs[i + 2].addr);
    assert IsExtent(bs, i, e) && IsExtent(s, i, f);
    PatchExtents(bs, hdr, i, i, i + 2, 1, s, {e}, {f});
  }

  /** A block is given back, whatever merges. */
  lemma ReleaseExtents(bs: seq<Block>, hdr: nat, i: nat)
    requires Spaced(bs, hdr) && hdr > 0 && i + 1 < |bs| && bs[i].used && bs[|bs| - 1].used
    ensures Extents(Release(bs, i)) == Extents(bs) - {Extent(bs, i)}
  {
    hide Spaced, Extents, Release;
    ReleasePatches(bs, i);
    var lo, hi, r, e := RunStart(bs, i), RunEnd(bs, i), Release(bs, i), Extent(bs, i);
    assert IsExtent(bs, i, e);
    PatchExtents(bs, hdr, i, lo, hi, 1, r, {e}, {});
  }

  lemma ReleasePatches(bs: seq<Block>, i: nat)
    requires i + 1 < |bs| && bs[i].used && bs[|bs| - 1].used
    ensures var lo, hi := RunStart(bs, i), RunEnd(bs, i);
            Patched(bs, lo, hi, 1, Release(bs, i)) && Release(bs, i)[lo] == Block(bs[lo].addr, false)
  {
    hide Release;
    ReleaseShape(bs, i);
  }

  /** A used block is cut in two used ones. */
  lemma CutUsedExtents(bs: seq<Block>, hdr: nat, i: nat, cut: int)
    requires Spaced(bs, hdr) && hdr > 0 && i + 1 < |bs| && bs[i].used
    ensures Extents(Split(bs, i, cut, true)) == Extents(bs) - {Extent(bs, i)} + {(bs[i].addr, cut), (cut, bs[i + 1].addr)}
  {
    hide Spaced, Extents;
    var s, e, f, g := Split(bs, i, cut, true), Extent(bs, i), (bs[i].addr, cut), (cut, bs[i + 1].addr);
    assert IsExtent(bs, i, e) && IsExtent(s, i, f) && IsExtent(s, i + 1, g);
    PatchExtents(bs, hdr, i, i, i + 1, 2, s, {e}, {f, g});
  }

  /** Only one extent starts where a block starts, and none inside a block. */
  lemma OneStart(bs: seq<Block>, hdr: nat, i: nat)
    requires Spaced(bs, hdr) && hdr > 0 && i + 1 < |bs|
    ensures forall x :: x in Extents(bs) && bs[i].addr <= x.0 < bs[i + 1].addr ==> x == Extent(bs, i) && bs[i].used
    ensures bs[i].used ==> Extent(bs, i) in Extents(bs)
  {
    Rising(bs, hdr);
    forall x | x in Extents(bs) && bs[i].addr <= x.0 < bs[i + 1].addr ensures x == Extent(bs, i) && bs[i].used {
      var j := IndexOfExtent(bs, x);
      hide Spaced;
      assert j == i || j < i || j == i + 1 || i + 1 < j;
    }
    if bs[i].used { IsIn(bs, i, Extent(bs, i)); }
  }

  lemma Rising(bs: seq<Block>, hdr: nat)
    requires Spaced(bs, hdr) && hdr > 0
    ensures forall i, j :: 0 <= i < j < |bs| ==> bs[i].addr < bs[j].addr
  {
  }

  // ----- the extents say everything about a pool

  /** Two pools without neighbouring free blocks that hand out the same stretches are the same block by block. */
  lemma {:induction false} ExtentsDetermine(a: seq<Block>, b: seq<Block>, hdr: nat)
    requires |a| > 0 && |b| > 0 && a[0].addr == b[0].addr && a[|a| - 1] == b[|b| - 1] && a[|a| - 1].used
    requires Spaced(a, hdr) && Spaced(b, hdr) && hdr > 0 && NoAdjacentFree(a) && NoAdjacentFree(b)
    requires Extents(a) == Extents(b)
    ensures a == b
  {
    Rising(a, hdr);
    Rising(b, hdr);
    if |a| > 1 && |b| > 1 {
      hide Spaced, Extents, NoAdjacentFree;
      if a[0].used { SameFirst(a, b, hdr); }
      if b[0].used { SameFirst(b, a, hdr); }
      SameSecond(a, b, hdr);
      RestExtents(a, hdr);
      RestExtents(b, hdr);
      SeparateSlice(a, 1, |a|);
      SeparateSlice(b, 1, |b|);
      ExtentsDetermine(a[1..], b[1..], hdr);
    }
  }

  lemma SameFirst(a: seq<Block>, b: seq<Block>, hdr: nat)
    requires |a| > 1 && |b| > 1 && a[0].addr == b[0].addr && Spaced(a, hdr) && Spaced(b, hdr) && hdr > 0
    requires Extents(a) == Extents(b) && a[0].used
    ensures b[0].used && a[1].addr == b[1].addr
  {
    IsIn(a, 0, Extent(a, 0));
    var j := IndexOfExtent(b, Extent(a, 0));
    Rising(b, hdr);
  }

  /** When the first block is free the second one is used, in both pools, and starts the lowest extent. */
  lemma SameSecond(a: seq<Block>, b: seq<Block>, hdr: nat)
    requires |a| > 1 && |b| > 1 && a[0].addr == b[0].addr && Spaced(a, hdr) && Spaced(b, hdr) && hdr > 0
    requires a[|a| - 1] == b[|b| - 1] && NoAdjacentFree(a) && NoAdjacentFree(b) && Extents(a) == Extents(b)
    requires a[0].used == b[0].used && (a[0].used ==> a[1].addr == b[1].addr)
    ensures a[1].addr == b[1].addr
  {
    if !a[0].used {
      assert a[1].used && b[1].used;
      NotBelow(a, b, hdr);
      NotBelow(b, a, hdr);
    }
  }

  lemma NotBelow(a: seq<Block>, b: seq<Block>, hdr: nat)
    requires |a| > 1 && |b| > 1 && Spaced(a, hdr) && Spaced(b, hdr) && hdr > 0 && !b[0].used
    requires a[|a| - 1] == b[|b| - 1] && a[1].used && Extents(a) == Extents(b)
    ensures b[1].addr <= a[1].addr
  {
    if |a| == 2 {
      assert |b| == 2 || b[1].addr + hdr <= b[|b| - 1].addr;
    } else {
      IsIn(a, 1, Extent(a, 1));
      var j := IndexOfExtent(b, Extent(a, 1));
      assert j == 1 || b[1].addr + hdr <= b[j].addr;
    }
  }

  lemma RestExtents(bs: seq<Block>, hdr: nat)
    requires |bs| > 1 && Spaced(bs, hdr) && hdr > 0
    ensures Spaced(bs[1..], hdr)
    ensures Extents(bs[1..]) == if bs[0].used then Extents(bs) - {Extent(bs, 0)} else Extents(bs)
  {
    var t := bs[1..];
    Everywhere(bs, 0, 1);
    if bs[0].used { NotOutside(bs, hdr, 0, 1, 0); }
    forall x ensures x in Extents(t) <==> Outside(bs, 0, 1, x) {
      if x in Extents(t) {
        var j := IndexOfExtent(t, x);
        assert IsExtent(bs, j + 1, x);
      }
      if Outside(bs, 0, 1, x) {
        var j :| (j < 0 || j >= 1) && IsExtent(bs, j, x);
        assert IsExtent(t, j - 1, x);
      }
    }
    hide Outside, Extents;
    assert forall x :: Inside(bs, 0, 1, x) <==> bs[0].used && x == Extent(bs, 0) by {
      if bs[0].used { assert IsExtent(bs, 0, Extent(bs, 0)); }
    }
  }
}
