/** Circular doubly linked lists, stored as one map per link field.
    A ring is the cyclic sequence of nodes that following `next` from its first node visits; the first
    node plays the role of the list head. */
module Rings {

  predicate Distinct<N(==)>(s: seq<N>) {
    forall i, j :: 0 <= i < j < |s| ==> s[i] != s[j]
  }

  function Succ<N>(s: seq<N>, i: nat): N
    requires i < |s|
  {
    if i + 1 == |s| then s[0] else s[i + 1]
  }

  function Pred<N>(s: seq<N>, i: nat): N
    requires i < |s|
  {
    if i == 0 then s[|s| - 1] else s[i - 1]
  }

  predicate Forward<N(==)>(next: map<N, N>, s: seq<N>) {
    && (forall i :: 0 <= i < |s| ==> s[i] in next)
    && (forall i {:trigger next[s[i]]} :: 0 <= i < |s| ==> next[s[i]] == Succ(s, i))
  }

  predicate Backward<N(==)>(prev: map<N, N>, s: seq<N>) {
    && (forall i :: 0 <= i < |s| ==> s[i] in prev)
    && (forall i {:trigger prev[s[i]]} :: 0 <= i < |s| ==> prev[s[i]] == Pred(s, i))
  }

  /** `s` is exactly one turn around the links, in both directions. */
  predicate Ring<N(==)>(next: map<N, N>, prev: map<N, N>, s: seq<N>) {
    |s| > 0 && Distinct(s) && Forward(next, s) && Backward(prev, s)
  }

  function InsertAt<N>(s: seq<N>, k: nat, n: N): (r: seq<N>)
    requires k <= |s|
    ensures |r| == |s| + 1 && r[k] == n
    ensures forall i :: 0 <= i < k ==> r[i] == s[i]
    ensures forall i :: k < i < |r| ==> r[i] == s[i - 1]
  {
    s[..k] + [n] + s[k..]
  }

  function RemoveAt<N>(s: seq<N>, k: nat): (r: seq<N>)
    requires k < |s|
    ensures |r| == |s| - 1
    ensures forall i :: 0 <= i < k ==> r[i] == s[i]
    ensures forall i :: k <= i < |r| ==> r[i] == s[i + 1]
  {
    s[..k] + s[k + 1..]
  }

  /** Position of `n` in `s`, or |s| when it does not occur. */
  function IndexOf<N(==)>(s: seq<N>, n: N): (k: nat)
    ensures k <= |s|
    ensures k < |s| ==> s[k] == n
    ensures forall i :: 0 <= i < k ==> s[i] != n
    ensures k < |s| <==> n in s
  {
    if s == [] then 0
    else if s[0] == n then 0
    else 1 + IndexOf(s[1..], n)
  }

  function Without<N(==)>(s: seq<N>, n: N): (r: seq<N>)
    ensures n !in s ==> r == s
  {
    var k := IndexOf(s, n);
    if k < |s| then RemoveAt(s, k) else s
  }

  lemma IndexOfUnique<N>(s: seq<N>, k: nat)
    requires Distinct(s) && k < |s|
    ensures IndexOf(s, s[k]) == k
  {
  }

  lemma InsertMembers<N>(s: seq<N>, k: nat, n: N)
    requires k <= |s|
    ensures forall x :: x in InsertAt(s, k, n) <==> x in s || x == n
  {
    var r := InsertAt(s, k, n);
    forall x | x in s ensures x in r {
      var i :| 0 <= i < |s| && s[i] == x;
      assert r[if i < k then i else i + 1] == x;
    }
    assert r[k] == n;
  }

  lemma RemoveMembers<N>(s: seq<N>, k: nat)
    requires Distinct(s) && k < |s|
    ensures forall x :: x in RemoveAt(s, k) <==> x in s && x != s[k]
  {
    var r := RemoveAt(s, k);
    forall x | x in s && x != s[k] ensures x in r {
      var i :| 0 <= i < |s| && s[i] == x;
      assert r[if i < k then i else i - 1] == x;
    }
  }

  lemma DistinctAfterRemove<N>(s: seq<N>, k: nat)
    requires Distinct(s) && k < |s|
    ensures Distinct(RemoveAt(s, k)) && s[k] !in RemoveAt(s, k)
  {
  }

  lemma DistinctAfterInsert<N>(s: seq<N>, k: nat, n: N)
    requires Distinct(s) && k <= |s| && n !in s
    ensures Distinct(InsertAt(s, k, n))
  {
  }

  lemma RingLinks<N>(next: map<N, N>, prev: map<N, N>, s: seq<N>)
    requires Ring(next, prev, s)
    ensures forall n :: n in s ==> n in next && n in prev
  {
  }

  lemma LinksAt<N>(next: map<N, N>, prev: map<N, N>, s: seq<N>, i: nat)
    requires Ring(next, prev, s) && i < |s|
    ensures s[i] in next && next[s[i]] == Succ(s, i)
    ensures s[i] in prev && prev[s[i]] == Pred(s, i)
    ensures |s| > 1 ==> Succ(s, i) != s[i] && Pred(s, i) != s[i]
  {
  }

  /** Splicing a fresh node behind position k by four link updates: the new links turn around
      the ring with the node inserted. */
  lemma RingInsert<N>(next: map<N, N>, prev: map<N, N>, next': map<N, N>, prev': map<N, N>,
                      s: seq<N>, k: nat, n: N)
    requires Ring(next, prev, s) && k < |s| && n !in s
    requires next' == next[n := Succ(s, k)][s[k] := n]
    requires prev' == prev[Succ(s, k) := n][n := s[k]]
    ensures Ring(next', prev', InsertAt(s, k + 1, n))
  {
    DistinctAfterInsert(s, k + 1, n);
    ForwardInsert(next, next', s, k, n);
    BackwardInsert(prev, prev', s, k, n);
  }

  lemma ForwardInsert<N>(next: map<N, N>, next': map<N, N>, s: seq<N>, k: nat, n: N)
    requires Distinct(s) && Forward(next, s) && k < |s| && n !in s
    requires next' == next[n := Succ(s, k)][s[k] := n]
    ensures Forward(next', InsertAt(s, k + 1, n))
  {
    var r := InsertAt(s, k + 1, n);
    forall i | 0 <= i < |r| ensures r[i] in next' && next'[r[i]] == Succ(r, i) {
      if i != k + 1 {
        var j := if i <= k then i else i - 1;
        assert r[i] == s[j] && next[s[j]] == Succ(s, j);
      }
    }
  }

  lemma BackwardInsert<N>(prev: map<N, N>, prev': map<N, N>, s: seq<N>, k: nat, n: N)
    requires Distinct(s) && Backward(prev, s) && k < |s| && n !in s
    requires prev' == prev[Succ(s, k) := n][n := s[k]]
    ensures Backward(prev', InsertAt(s, k + 1, n))
  {
    var r := InsertAt(s, k + 1, n);
    forall i | 0 <= i < |r| ensures r[i] in prev' && prev'[r[i]] == Pred(r, i) {
      if i != k + 1 {
        var j := if i <= k then i else i - 1;
        assert r[i] == s[j] && prev[s[j]] == Pred(s, j);
      }
    }
  }

  /** Bypassing the node at position k by two link updates removes it and nothing else. */
  lemma RingRemove<N>(next: map<N, N>, prev: map<N, N>, next': map<N, N>, prev': map<N, N>,
                      s: seq<N>, k: nat)
    requires Ring(next, prev, s) && 0 < k < |s|
    requires next' == next[s[k - 1] := Succ(s, k)]
    requires prev' == prev[Succ(s, k) := s[k - 1]]
    ensures Ring(next', prev', RemoveAt(s, k))
  {
    DistinctAfterRemove(s, k);
    ForwardRemove(next, next', s, k);
    BackwardRemove(prev, prev', s, k);
  }

  lemma ForwardRemove<N>(next: map<N, N>, next': map<N, N>, s: seq<N>, k: nat)
    requires Distinct(s) && Forward(next, s) && 0 < k < |s|
    requires next' == next[s[k - 1] := Succ(s, k)]
    ensures Forward(next', RemoveAt(s, k))
  {
    var r := RemoveAt(s, k);
    forall i | 0 <= i < |r| ensures r[i] in next' && next'[r[i]] == Succ(r, i) {
      var j := if i < k then i else i + 1;
      assert r[i] == s[j] && next[s[j]] == Succ(s, j);
    }
  }

  lemma BackwardRemove<N>(prev: map<N, N>, prev': map<N, N>, s: seq<N>, k: nat)
    requires Distinct(s) && Backward(prev, s) && 0 < k < |s|
    requires prev' == prev[Succ(s, k) := s[k - 1]]
    ensures Backward(prev', RemoveAt(s, k))
  {
    var r := RemoveAt(s, k);
    forall i | 0 <= i < |r| ensures r[i] in prev' && prev'[r[i]] == Pred(r, i) {
      var j := if i < k then i else i + 1;
      assert r[i] == s[j] && prev[s[j]] == Pred(s, j);
    }
  }

  /** Links outside a ring may change freely. */
  lemma RingFrame<N>(next: map<N, N>, prev: map<N, N>, next': map<N, N>, prev': map<N, N>, s: seq<N>)
    requires Ring(next, prev, s)
    requires forall n :: n in s ==> n in next' && next'[n] == next[n] && n in prev' && prev'[n] == prev[n]
    ensures Ring(next', prev', s)
  {
  }

  /** The links determine the ring: two rings through the same first node are the same sequence. */
  lemma {:induction false} RingUnique<N>(next: map<N, N>, prev: map<N, N>, s: seq<N>, t: seq<N>)
    requires Ring(next, prev, s) && Ring(next, prev, t) && s[0] == t[0]
    ensures s == t
  {
    if |s| <= |t| {
      PrefixOf(next, prev, s, t);
    } else {
      PrefixOf(next, prev, t, s);
    }
  }

  lemma PrefixOf<N>(next: map<N, N>, prev: map<N, N>, s: seq<N>, t: seq<N>)
    requires Ring(next, prev, s) && Ring(next, prev, t) && s[0] == t[0]
    requires |s| <= |t|
    ensures s == t
  {
    var m := |s| - 1;
    forall k: nat | k <= m ensures s[k] == t[k] {
      SameAt(next, prev, s, t, k);
    }
    assert next[s[m]] == Succ(s, m) == s[0];
    assert next[t[m]] == Succ(t, m);
    assert m + 1 == |t|;
  }

  lemma {:induction false} SameAt<N>(next: map<N, N>, prev: map<N, N>, s: seq<N>, t: seq<N>, k: nat)
    requires Ring(next, prev, s) && Ring(next, prev, t) && s[0] == t[0]
    requires k < |s| <= |t|
    ensures s[k] == t[k]
  {
    if k > 0 {
      SameAt(next, prev, s, t, k - 1);
      assert next[s[k - 1]] == Succ(s, k - 1) && next[t[k - 1]] == Succ(t, k - 1);
    }
  }

  lemma RestDistinct<N>(s: seq<N>)
    requires s != [] && Distinct(s)
    ensures Distinct(s[1..]) && forall x :: x in s[1..] <==> x in s && x != s[0]
  {
    forall x | x in s && x != s[0] ensures x in s[1..] {
      var i :| 0 <= i < |s| && s[i] == x;
      assert s[1..][i - 1] == x;
    }
  }
}
