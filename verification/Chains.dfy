/** Singly linked lists that end in a null link; the links are one store, a map from node to next node. */
module Chains {
  import opened Rings

  const NULL := -1

  function First(s: seq<int>): int {
    if s == [] then NULL else s[0]
  }

  function Last(s: seq<int>): int {
    if s == [] then NULL else s[|s| - 1]
  }

  /** Following the links from `head` visits exactly the nodes of s. */
  ghost predicate Chain(next: map<int, int>, head: int, s: seq<int>) {
    && head == First(s)
    && (forall i {:trigger s[i]} :: 0 <= i < |s| ==> s[i] in next && next[s[i]] == First(s[i + 1..]))
  }

  lemma EmptyChain(next: map<int, int>)
    ensures Chain(next, NULL, [])
  {
  }

  lemma ChainHead(next: map<int, int>, head: int, s: seq<int>)
    requires Chain(next, head, s)
    ensures s == [] ==> head == NULL
    ensures s != [] ==> head == s[0]
  {
  }

  lemma ChainTail(next: map<int, int>, head: int, s: seq<int>)
    requires Chain(next, head, s) && s != []
    ensures head == s[0] && s[0] in next && Chain(next, next[s[0]], s[1..])
  {
    var r := s[1..];
    assert next[s[0]] == First(s[0 + 1..]);
    forall i | 0 <= i < |r| ensures r[i] in next && next[r[i]] == First(r[i + 1..]) {
      assert r[i] == s[i + 1] && r[i + 1..] == s[i + 2..];
    }
  }

  lemma ChainFrame(next: map<int, int>, head: int, s: seq<int>, n: int, v: int)
    requires Chain(next, head, s) && n !in s
    ensures Chain(next[n := v], head, s)
  {
  }

  lemma ChainPush(next: map<int, int>, head: int, s: seq<int>, n: int)
    requires Chain(next, head, s) && n !in s
    ensures Chain(next[n := head], n, [n] + s)
  {
    var r := [n] + s;
    forall i | 0 <= i < |r| ensures r[i] in next[n := head] && next[n := head][r[i]] == First(r[i + 1..]) {
      if i == 0 {
        assert r[1..] == s;
      } else {
        assert r[i] == s[i - 1] && r[i + 1..] == s[i..];
        assert s[i - 1] in s;
        assert s[i - 1 + 1..] == s[i..];
      }
    }
  }

  lemma ChainAppend(next: map<int, int>, head: int, s: seq<int>, n: int)
    requires Chain(next, head, s) && Distinct(s) && n !in s && n in next && next[n] == NULL
    ensures s == [] ==> Chain(next, n, [n])
    ensures s != [] ==> Chain(next[Last(s) := n], head, s + [n])
  {
    if s == [] {
      assert [n][1..] == [];
    } else {
      var m := |s| - 1;
      var next', r := next[s[m] := n], s + [n];
      forall i | 0 <= i < |r| ensures r[i] in next' && next'[r[i]] == First(r[i + 1..]) {
        if i < m {
          assert r[i] == s[i] && r[i + 1..] == s[i + 1..] + [n];
        } else if i == m {
          assert r[i + 1..] == [n];
        } else {
          assert r[i + 1..] == [];
          assert s[m] in s;
        }
      }
    }
  }

  /** Making the link in front of position i skip one node. */
  lemma ChainSkip(next: map<int, int>, head: int, s: seq<int>, i: nat)
    requires Chain(next, head, s) && Distinct(s) && i < |s| && s[i] in next
    ensures i == 0 ==> Chain(next, next[s[0]], RemoveAt(s, 0))
    ensures i > 0 ==> Chain(next[s[i - 1] := next[s[i]]], head, RemoveAt(s, i))
  {
    var r := RemoveAt(s, i);
    if i == 0 {
      assert r == s[1..];
      ChainTail(next, head, s);
    } else {
      var next' := next[s[i - 1] := next[s[i]]];
      forall j | 0 <= j < |r| ensures r[j] in next' && next'[r[j]] == First(r[j + 1..]) {
        if j < i - 1 {
          assert r[j] == s[j] && r[j + 1] == s[j + 1];
        } else if j == i - 1 {
          assert r[j + 1..] == s[i + 1..];
        } else {
          assert r[j] == s[j + 1] && r[j + 1..] == s[j + 2..];
        }
      }
    }
  }
}
