/** Used bits and payload bytes of a pool of blocks whose headers take `hdr` bytes.
    Writing any field of a header inside the pool leaves that header's bytes with arbitrary contents, so that nothing
    can be concluded about a payload a header would overlap. */
module Payloads {
  import opened Rings
  import opened Blocks

  // ----- used bits

  /** The used bit of every header agrees with the block sequence. */
  ghost predicate Flagged(used: map<int, bool>, bs: seq<Block>) {
    forall i :: 0 <= i < |bs| ==> bs[i].addr in used && used[bs[i].addr] == bs[i].used
  }

  lemma FlagMark(used: map<int, bool>, bs: seq<Block>, hdr: nat, i: nat, u: bool)
    requires Flagged(used, bs) && Spaced(bs, hdr) && hdr > 0 && i < |bs|
    ensures Flagged(used[bs[i].addr := u], Mark(bs, i, u))
  {
    var m := Mark(bs, i, u);
    forall k | 0 <= k < |m| && k != i ensures m[k].addr != bs[i].addr {
      assert m[k] == bs[k];
      assert k < i || i < k;
    }
  }

  lemma FlagSplit(used: map<int, bool>, bs: seq<Block>, i: nat, a: int, u: bool)
    requires Flagged(used, bs) && i < |bs| && a !in Addrs(bs)
    ensures Flagged(used[a := u], Split(bs, i, a, u))
  {
    var s := Split(bs, i, a, u);
    forall k | 0 <= k < |s| ensures s[k].addr in used[a := u] && used[a := u][s[k].addr] == s[k].used {
      if k != i + 1 {
        var j := if k <= i then k else k - 1;
        assert s[k] == bs[j] && Addrs(bs)[j] == bs[j].addr;
      }
    }
  }

  lemma FlagAbsorb(used: map<int, bool>, bs: seq<Block>, i: nat)
    requires Flagged(used, bs) && i + 1 < |bs|
    ensures Flagged(used, Absorb(bs, i))
  {
  }

  lemma InsideFresh(bs: seq<Block>, hdr: nat, i: nat, a: int)
    requires Spaced(bs, hdr) && hdr > 0 && i + 1 < |bs| && bs[i].addr < a < bs[i + 1].addr
    ensures a !in Addrs(bs)
  {
    forall k | 0 <= k < |bs| ensures bs[k].addr != a {
      assert k < i || k == i || k == i + 1 || i + 1 < k;
    }
  }

  // ----- bytes

  ghost predicate OffHeader(a: int, hdr: nat, keep: set<int>) {
    forall k :: k in keep ==> !(a <= k < a + hdr)
  }

  /** A header at `a` may be written: it lies in the pool of `len` bytes and off the bytes to keep. Negative addresses
      stand for headers outside the pool. */
  ghost predicate Writable(len: int, a: int, hdr: nat, keep: set<int>) {
    a < 0 || (a + hdr <= len && OffHeader(a, hdr, keep))
  }

  ghost predicate AllOff(len: int, bs: seq<Block>, hdr: nat, keep: set<int>) {
    forall i :: 0 <= i < |bs| ==> Writable(len, bs[i].addr, hdr, keep)
  }

  lemma OffAt(len: int, bs: seq<Block>, hdr: nat, keep: set<int>, i: nat)
    requires AllOff(len, bs, hdr, keep) && i < |bs|
    ensures Writable(len, bs[i].addr, hdr, keep) && Writable(len, Succ(Addrs(bs), i), hdr, keep)
  {
  }

  lemma OffSplit(len: int, bs: seq<Block>, hdr: nat, keep: set<int>, i: nat, a: int)
    requires AllOff(len, bs, hdr, keep) && Writable(len, a, hdr, keep) && i < |bs|
    ensures forall u :: AllOff(len, Split(bs, i, a, u), hdr, keep)
  {
  }

  lemma OffAfter(len: int, bs: seq<Block>, hdr: nat, keep: set<int>)
    requires AllOff(len, bs, hdr, keep)
    ensures forall i, u :: 0 <= i < |bs| ==> AllOff(len, Mark(bs, i, u), hdr, keep)
    ensures forall i :: 0 <= i < |bs| - 1 ==> AllOff(len, Absorb(bs, i), hdr, keep)
  {
  }

  /** Byte k belongs to the payload of used block i. */
  ghost predicate Within(bs: seq<Block>, hdr: nat, i: int, k: int) {
    0 <= i < |bs| - 1 && bs[i].used && bs[i].addr + hdr <= k < bs[i + 1].addr
  }

  ghost predicate InPayload(bs: seq<Block>, hdr: nat, k: int) {
    exists i :: Within(bs, hdr, i, k)
  }

  ghost function LiveBytes(bs: seq<Block>, hdr: nat, pool: int): set<int> {
    set k | 0 <= k < pool && InPayload(bs, hdr, k)
  }

  lemma LiveBound(bs: seq<Block>, hdr: nat, pool: int)
    ensures forall k :: k in LiveBytes(bs, hdr, pool) ==> 0 <= k < pool
  {
  }

  /** The bytes a shrinking realloc keeps: everything live except the tail it cuts off. */
  ghost function KeptBytes(bs: seq<Block>, hdr: nat, pool: int, cut: int, end: int): set<int> {
    set k | k in LiveBytes(bs, hdr, pool) && !(cut <= k < end)
  }

  lemma Ordered(bs: seq<Block>, hdr: nat, p: int, q: int)
    requires Spaced(bs, hdr) && 0 <= p <= q < |bs|
    ensures bs[p].addr <= bs[q].addr
    ensures p < q ==> bs[p].addr + hdr <= bs[q].addr
  {
  }

  /** Headers may be written without touching a live payload. */
  lemma HeaderOff(bs: seq<Block>, hdr: nat, pool: int, i: nat)
    requires Tiled(bs, 0, pool - hdr, hdr) && i < |bs|
    ensures Writable(pool, bs[i].addr, hdr, LiveBytes(bs, hdr, pool))
  {
    Ordered(bs, hdr, 0, i);
    Ordered(bs, hdr, i, |bs| - 1);
    forall k | InPayload(bs, hdr, k) ensures !(bs[i].addr <= k < bs[i].addr + hdr) {
      var p :| Within(bs, hdr, p, k);
      hide Spaced;
      if p < i { Ordered(bs, hdr, p + 1, i); } else { Ordered(bs, hdr, i, p); }
    }
  }

  lemma HeadersOffLive(bs: seq<Block>, hdr: nat, pool: int)
    requires Tiled(bs, 0, pool - hdr, hdr)
    ensures AllOff(pool, bs, hdr, LiveBytes(bs, hdr, pool))
  {
    hide Tiled, Writable;
    forall i | 0 <= i < |bs| ensures Writable(pool, bs[i].addr, hdr, LiveBytes(bs, hdr, pool)) {
      HeaderOff(bs, hdr, pool, i);
    }
  }

  /** So may any place inside a free block. */
  lemma GapOff(bs: seq<Block>, hdr: nat, pool: int, i: nat, a: int)
    requires Tiled(bs, 0, pool - hdr, hdr) && i + 1 < |bs| && !bs[i].used
    requires bs[i].addr <= a && a + hdr <= bs[i + 1].addr
    ensures Writable(pool, a, hdr, LiveBytes(bs, hdr, pool))
  {
    Ordered(bs, hdr, 0, i);
    Ordered(bs, hdr, i + 1, |bs| - 1);
    forall k | InPayload(bs, hdr, k) ensures !(a <= k < a + hdr) {
      var p :| Within(bs, hdr, p, k);
      hide Spaced;
      if p < i { Ordered(bs, hdr, p + 1, i); } else if i < p { Ordered(bs, hdr, i + 1, p); }
    }
  }

  /** And, when only the kept bytes matter, any place inside the tail that is cut off. */
  lemma TailOff(bs: seq<Block>, hdr: nat, pool: int, i: nat, cut: int)
    requires Tiled(bs, 0, pool - hdr, hdr) && i + 1 < |bs|
    requires bs[i].addr + hdr <= cut && cut + hdr <= bs[i + 1].addr
    ensures var keep := KeptBytes(bs, hdr, pool, cut, bs[i + 1].addr);
            AllOff(pool, bs, hdr, keep) && Writable(pool, cut, hdr, keep)
  {
    HeadersOffLive(bs, hdr, pool);
    Ordered(bs, hdr, i + 1, |bs| - 1);
    hide LiveBytes, Spaced;
  }

  /** Handing out a free block keeps every live byte live. */
  lemma TakenKeepsLive(bs: seq<Block>, hdr: nat, pool: int, i: nat, c: seq<Block>, a: int)
    requires i + 1 < |bs| && !bs[i].used && (c == Mark(bs, i, true) || c == Split(Mark(bs, i, true), i, a, false))
    ensures forall k :: k in LiveBytes(bs, hdr, pool) ==> k in LiveBytes(c, hdr, pool)
  {
    forall k | InPayload(bs, hdr, k) ensures InPayload(c, hdr, k) {
      var p :| Within(bs, hdr, p, k);
      var q := if p < i then p else p + |c| - |bs|;
      assert c[q] == bs[p] && c[q + 1].addr == bs[p + 1].addr;
      assert Within(c, hdr, q, k);
    }
  }

  lemma PayloadFresh(bs: seq<Block>, hdr: nat, pool: int, i: nat, q: int, n: nat)
    requires Tiled(bs, 0, pool - hdr, hdr) && i + 1 < |bs| && bs[i] == Block(q - hdr, false) && Payload(bs, i, hdr) >= n
    ensures hdr <= q && q + n <= pool
    ensures forall k :: q <= k < q + n ==> k !in LiveBytes(bs, hdr, pool)
  {
    Ordered(bs, hdr, 0, i);
    Ordered(bs, hdr, i + 1, |bs| - 1);
    forall k | q <= k < q + n ensures !InPayload(bs, hdr, k) {
      forall p ensures !Within(bs, hdr, p, k) {
        if 0 <= p < i { Ordered(bs, hdr, p + 1, i); }
        if i < p < |bs| { Ordered(bs, hdr, i + 1, p); }
      }
    }
  }

  lemma PayloadLive(bs: seq<Block>, hdr: nat, pool: int, i: nat, q: int, n: nat)
    requires Tiled(bs, 0, pool - hdr, hdr) && i + 1 < |bs| && bs[i] == Block(q - hdr, true) && Payload(bs, i, hdr) >= n
    ensures hdr <= q && q + n <= pool
    ensures forall k :: q <= k < q + n ==> k in LiveBytes(bs, hdr, pool)
  {
    Ordered(bs, hdr, 0, i);
    Ordered(bs, hdr, i + 1, |bs| - 1);
    forall k | q <= k < q + n ensures InPayload(bs, hdr, k) && 0 <= k < pool {
      assert Within(bs, hdr, i, k);
    }
  }

  /** A live stretch and one that was not live do not overlap. */
  lemma CopyApart(src: int, dst: int, n: nat, m: nat, live: set<int>)
    requires n <= m
    requires forall k :: src <= k < src + n ==> k in live
    requires forall k :: dst <= k < dst + m ==> k !in live
    ensures n > 0 ==> dst + n <= src || src + n <= dst
  {
    if n > 0 {
      assert src in live && dst !in live;
    }
  }

  /** End of the payload of block i. */
  ghost function EndOf(bs: seq<Block>, i: nat): int {
    if i + 1 < |bs| then bs[i + 1].addr else 0
  }

  /** The first `keep` bytes at p are now at r, and the live bytes outside [p, end) are what they were. */
  ghost predicate PayloadKept(was: seq<bv8>, now: seq<bv8>, live: set<int>, p: int, end: int, keep: int, r: int) {
    && 0 <= keep && 0 <= r && r + keep <= |now| && 0 <= p && p + keep <= |was| && |was| == |now|
    && now[r..r + keep] == was[p..p + keep]
    && forall k :: k in live && 0 <= k < |was| && !(p <= k < end) ==> now[k] == was[k]
  }

  ghost predicate SameBytes(was: seq<bv8>, now: seq<bv8>, live: set<int>) {
    |was| == |now| && forall k :: k in live && 0 <= k < |was| ==> now[k] == was[k]
  }

  /** The header at `a` takes new contents. */
  method Touch(bytes: array<bv8>, a: int, hdr: nat, ghost keep: set<int>)
    requires Writable(bytes.Length, a, hdr, keep)
    modifies bytes
    ensures forall k :: k in keep && 0 <= k < bytes.Length ==> bytes[k] == old(bytes[k])
  {
    if a >= 0 {
      var k := a;
      while k < a + hdr
        invariant a <= k <= a + hdr
        invariant forall j :: j in keep && 0 <= j < bytes.Length ==> bytes[j] == old(bytes[j])
      {
        bytes[k] := *;
        k := k + 1;
      }
    }
  }

  /** rt_memcpy between two disjoint stretches of the pool. */
  method Copy(bytes: array<bv8>, dst: int, src: int, n: nat)
    requires 0 <= dst && dst + n <= bytes.Length && 0 <= src && src + n <= bytes.Length
    requires dst + n <= src || src + n <= dst
    modifies bytes
    ensures bytes[dst..dst + n] == old(bytes[src..src + n])
    ensures forall k :: 0 <= k < bytes.Length && !(dst <= k < dst + n) ==> bytes[k] == old(bytes[k])
  {
    var t := 0;
    while t < n
      invariant t <= n
      invariant bytes[dst..dst + t] == old(bytes[src..src + t])
      invariant forall k :: 0 <= k < bytes.Length && !(dst <= k < dst + t) ==> bytes[k] == old(bytes[k])
    {
      bytes[dst + t] := bytes[src + t];
      t := t + 1;
    }
  }
}
