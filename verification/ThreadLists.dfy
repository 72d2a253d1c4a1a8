/** The intrusive lists of rtservice.h that hold threads: every list head and every thread's tlist is a node with
    a next and a previous link, and a node that is on no list is linked to itself. */
module ThreadLists {
  import opened Rings
  import opened Sched
  import opened SchedLaws

  datatype Node = Anchor(id: ListId) | Link(t: Tid)

  function Nodes(id: ListId, q: seq<Tid>): (s: seq<Node>)
    ensures |s| == |q| + 1 && s[0] == Anchor(id)
    ensures forall i :: 0 <= i < |q| ==> s[i + 1] == Link(q[i])
  {
    [Anchor(id)] + seq(|q|, i requires 0 <= i < |q| => Link(q[i]))
  }

  /** The links form one ring for each list, and a ring of its own for each thread on no list. */
  ghost predicate Linking(next: map<Node, Node>, prev: map<Node, Node>, s: State) {
    && (forall id :: id in s.lists ==> Ring(next, prev, Nodes(id, s.lists[id])))
    && (forall t :: Loose(s, t) ==> Ring(next, prev, [Link(t)]))
  }

  lemma NodesInsert(id: ListId, q: seq<Tid>, i: nat, t: Tid)
    requires i <= |q|
    ensures Nodes(id, InsertAt(q, i, t)) == InsertAt(Nodes(id, q), i + 1, Link(t))
  {
  }

  lemma NodesRemove(id: ListId, q: seq<Tid>, i: nat)
    requires i < |q|
    ensures Nodes(id, RemoveAt(q, i)) == RemoveAt(Nodes(id, q), i + 1)
  {
  }

  lemma NodesMembers(id: ListId, q: seq<Tid>, n: Node)
    ensures n in Nodes(id, q) <==> n == Anchor(id) || (n.Link? && n.t in q)
  {
    if n.Link? && n.t in q {
      var i :| 0 <= i < |q| && q[i] == n.t;
      assert Nodes(id, q)[i + 1] == n;
    }
  }

  lemma NodesDistinct(id: ListId, q: seq<Tid>)
    requires Distinct(q)
    ensures Distinct(Nodes(id, q))
  {
    var s := Nodes(id, q);
    forall i, j | 0 <= i < j < |s| ensures s[i] != s[j] {
      if i > 0 { assert q[i - 1] != q[j - 1]; }
    }
  }

  /** The rings of two different lists have no node in common. */
  lemma Apart(s: State, a: ListId, b: ListId, n: Node)
    requires Linked(s) && a != b && a in s.lists && b in s.lists && n in Nodes(a, s.lists[a])
    ensures n !in Nodes(b, s.lists[b])
  {
    NodesMembers(a, s.lists[a], n);
    NodesMembers(b, s.lists[b], n);
    assert n.Link? ==> n.t in At(s, a);
    assert n.Link? ==> n.t !in At(s, b);
  }

  /** Splicing thread t, on no list, in at position i of list id. */
  lemma LinkLinks(next: map<Node, Node>, prev: map<Node, Node>, s: State, id: ListId, i: nat, t: Tid,
                  next': map<Node, Node>, prev': map<Node, Node>)
    requires Linking(next, prev, s) && Linked(s) && Loose(s, t) && id in s.lists && i <= |s.lists[id]|
    requires var r := Nodes(id, s.lists[id]);
             && next' == next[Link(t) := Succ(r, i)][r[i] := Link(t)]
             && prev' == prev[Succ(r, i) := Link(t)][Link(t) := r[i]]
    ensures Linking(next', prev', Sched.Link(s, id, i, t))
  {
    hide Ring;
    var s' := Sched.Link(s, id, i, t);
    var r := Nodes(id, s.lists[id]);
    assert Link(t) !in r by { NodesMembers(id, s.lists[id], Link(t)); assert t !in At(s, id); }
    LinkLinked(s, id, i, t);
    forall j | j in s'.lists ensures Ring(next', prev', Nodes(j, s'.lists[j])) {
      assert s'.lists[j] == At(s', j) && s.lists[j] == At(s, j);
      if j == id {
        NodesInsert(id, s.lists[id], i, t);
        RingInsert(next, prev, next', prev', r, i, Link(t));
      } else {
        OtherRing(next, prev, next', prev', s, id, j, t, r, i);
      }
    }
    forall u | Loose(s', u) ensures Ring(next', prev', [Link(u)]) {
      assert u !in At(s', id);
      assert t in At(s', id);
      assert Loose(s, u);
      NodesMembers(id, s.lists[id], Link(u));
      assert u !in At(s, id);
      RingHas(next, prev, [Link(u)], Link(u));
      RingFrame(next, prev, next', prev', [Link(u)]);
    }
  }

  lemma RingHas(next: map<Node, Node>, prev: map<Node, Node>, s: seq<Node>, n: Node)
    requires Ring(next, prev, s) && n in s
    ensures n in next && n in prev
  {
    RingLinks(next, prev, s);
  }

  lemma OtherRing(next: map<Node, Node>, prev: map<Node, Node>, next': map<Node, Node>, prev': map<Node, Node>,
                  s: State, id: ListId, j: ListId, t: Tid, r: seq<Node>, i: nat)
    requires Linking(next, prev, s) && Linked(s) && j != id && j in s.lists && id in s.lists && Loose(s, t)
    requires r == Nodes(id, s.lists[id]) && i < |r|
    requires next' == next[Link(t) := Succ(r, i)][r[i] := Link(t)]
    requires prev' == prev[Succ(r, i) := Link(t)][Link(t) := r[i]]
    ensures Ring(next', prev', Nodes(j, s.lists[j]))
  {
    hide Ring;
    var o := Nodes(j, s.lists[j]);
    assert r[i] in r && Succ(r, i) in r;
    Apart(s, id, j, r[i]);
    Apart(s, id, j, Succ(r, i));
    assert Link(t) !in o by { NodesMembers(j, s.lists[j], Link(t)); assert t !in At(s, j); }
    forall n | n in o ensures n in next && n in prev { RingHas(next, prev, o, n); }
    RingFrame(next, prev, next', prev', o);
  }

  /** Taking thread t off list id at position i, leaving its node linked to itself. */
  lemma UnlinkLinks(next: map<Node, Node>, prev: map<Node, Node>, s: State, id: ListId, i: nat, t: Tid,
                    next': map<Node, Node>, prev': map<Node, Node>)
    requires Linking(next, prev, s) && Linked(s) && id in s.lists && i < |s.lists[id]| && s.lists[id][i] == t
    requires Bypassed(next, prev, s, id, i, t, next', prev')
    ensures Linking(next', prev', Unlink(s, t))
  {
    hide Ring, Without, Distinct, Linked, Bypassed, Loose;
    var s' := Unlink(s, t);
    forall j | j in s'.lists ensures Ring(next', prev', Nodes(j, s'.lists[j])) {
      if j == id {
        ThisRing(next, prev, next', prev', s, id, i, t);
      } else {
        UntouchedRing(next, prev, next', prev', s, id, i, t, j);
      }
    }
    forall u | Loose(s', u) ensures Ring(next', prev', [Link(u)]) {
      LooseRing(next, prev, next', prev', s, id, i, t, u);
    }
  }

  /** The link updates of rt_list_remove. */
  ghost predicate Bypassed(next: map<Node, Node>, prev: map<Node, Node>, s: State, id: ListId, i: nat, t: Tid,
                           next': map<Node, Node>, prev': map<Node, Node>)
    requires id in s.lists && i < |s.lists[id]|
  {
    var r := Nodes(id, s.lists[id]);
    && next' == next[r[i] := Succ(r, i + 1)][Link(t) := Link(t)]
    && prev' == prev[Succ(r, i + 1) := r[i]][Link(t) := Link(t)]
  }

  lemma UntouchedRing(next: map<Node, Node>, prev: map<Node, Node>, next': map<Node, Node>, prev': map<Node, Node>,
                      s: State, id: ListId, i: nat, t: Tid, j: ListId)
    requires Linking(next, prev, s) && Linked(s) && id in s.lists && i < |s.lists[id]| && s.lists[id][i] == t
    requires Bypassed(next, prev, s, id, i, t, next', prev') && j in s.lists && j != id
    ensures j in Unlink(s, t).lists && Ring(next', prev', Nodes(j, Unlink(s, t).lists[j]))
  {
    hide Ring, Without, Linked;
    var r := Nodes(id, s.lists[id]);
    assert r[i] in r && Succ(r, i + 1) in r && Link(t) == r[i + 1] && Link(t) in r;
    Apart(s, id, j, r[i]);
    Apart(s, id, j, Succ(r, i + 1));
    Apart(s, id, j, Link(t));
    NodesMembers(j, s.lists[j], Link(t));
    WithoutOther(s.lists[j], t);
    var o := Nodes(j, s.lists[j]);
    forall n | n in o ensures n in next && n in prev { RingHas(next, prev, o, n); }
    RingFrame(next, prev, next', prev', o);
  }

  lemma WithoutOther(q: seq<Tid>, t: Tid)
    requires t !in q
    ensures Without(q, t) == q
  {
  }

  lemma LooseRing(next: map<Node, Node>, prev: map<Node, Node>, next': map<Node, Node>, prev': map<Node, Node>,
                  s: State, id: ListId, i: nat, t: Tid, u: Tid)
    requires Linking(next, prev, s) && Linked(s) && id in s.lists && i < |s.lists[id]| && s.lists[id][i] == t
    requires Bypassed(next, prev, s, id, i, t, next', prev') && Loose(Unlink(s, t), u)
    ensures Ring(next', prev', [Link(u)])
  {
    hide Ring, Without, Distinct;
    UnlinkLinked(s, t);
    if u == t {
      SelfRing(next', prev', Link(t));
    } else {
      forall j ensures u !in At(s, j) { assert u !in At(Unlink(s, t), j); }
      var r := Nodes(id, s.lists[id]);
      assert r[i] in r && Succ(r, i + 1) in r;
      assert u !in At(s, id);
      NodesMembers(id, s.lists[id], Link(u));
      RingHas(next, prev, [Link(u)], Link(u));
      RingFrame(next, prev, next', prev', [Link(u)]);
    }
  }

  lemma SelfRing(next: map<Node, Node>, prev: map<Node, Node>, n: Node)
    requires n in next && next[n] == n && n in prev && prev[n] == n
    ensures Ring(next, prev, [n])
  {
  }

  lemma ThisRing(next: map<Node, Node>, prev: map<Node, Node>, next': map<Node, Node>, prev': map<Node, Node>,
                 s: State, id: ListId, i: nat, t: Tid)
    requires Linking(next, prev, s) && Linked(s) && id in s.lists && i < |s.lists[id]| && s.lists[id][i] == t
    requires Bypassed(next, prev, s, id, i, t, next', prev')
    ensures Ring(next', prev', Nodes(id, Without(s.lists[id], t)))
  {
    hide Ring;
    var q := s.lists[id];
    var r := Nodes(id, q);
    assert At(s, id) == q;
    assert Distinct(q);
    IndexOfUnique(q, i);
    NodesRemove(id, q, i);
    var next1, prev1 := next[r[i] := Succ(r, i + 1)], prev[Succ(r, i + 1) := r[i]];
    RingRemove(next, prev, next1, prev1, r, i + 1);
    var r' := RemoveAt(r, i + 1);
    NodesDistinct(id, q);
    DistinctAfterRemove(r, i + 1);
    forall n | n in r' ensures n in next1 && n in prev1 { RingHas(next1, prev1, r', n); }
    RingFrame(next1, prev1, next', prev', r');
  }

  /** What a list head and the nodes of a list are linked to. */
  lemma LinksOf(next: map<Node, Node>, prev: map<Node, Node>, s: State, id: ListId, i: nat)
    requires Linking(next, prev, s) && id in s.lists && i <= |s.lists[id]|
    ensures var r := Nodes(id, s.lists[id]);
            && r[i] in next && r[i] in prev && next[r[i]] == Succ(r, i) && prev[r[i]] == Pred(r, i)
            && (i > 0 ==> r[i - 1] in next && next[r[i - 1]] == r[i])
            && Pred(r, i) in next && Succ(r, i) in prev
            && (|r| > 1 ==> Succ(r, i) != r[i] && Pred(r, i) != r[i])
  {
    hide Forward, Backward, Distinct;
    var r := Nodes(id, s.lists[id]);
    assert Ring(next, prev, r);
    LinksAt(next, prev, r, i);
    if i > 0 { LinksAt(next, prev, r, i - 1); }
    RingLinks(next, prev, r);
    assert Pred(r, i) in r && Succ(r, i) in r;
  }

  lemma LooseLinks(next: map<Node, Node>, prev: map<Node, Node>, s: State, t: Tid)
    requires Linking(next, prev, s) && Loose(s, t)
    ensures Link(t) in next && next[Link(t)] == Link(t) && Link(t) in prev && prev[Link(t)] == Link(t)
  {
    assert Ring(next, prev, [Link(t)]);
    LinksAt(next, prev, [Link(t)], 0);
  }
}
