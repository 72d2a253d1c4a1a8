/** The page allocator of slab.c: a singly linked list whose nodes are the first pages of the free runs,
    changed in place through a pointer to the link that leads to the current node. */
module PageAllocator {
  import opened Rings
  import opened PageRuns

  /** First page of run i, or NULL behind the last one. */
  function First(rs: seq<Run>, i: nat): int
    requires i <= |rs|
  {
    if i == |rs| then NULL else rs[i].start
  }

  ghost predicate Chain(head: int, next: map<int, int>, count: map<int, int>, rs: seq<Run>) {
    && head == First(rs, 0)
    && (forall i :: 0 <= i < |rs| ==> rs[i].start in next && rs[i].start in count && count[rs[i].start] == rs[i].len)
    && (forall i {:trigger next[rs[i].start]} :: 0 <= i < |rs| ==> next[rs[i].start] == First(rs, i + 1))
  }

  function Splice(rs: seq<Run>, i: nat, j: nat, mid: seq<Run>): seq<Run>
    requires i <= j <= |rs|
  {
    rs[..i] + mid + rs[j..]
  }

  lemma Starts(rs: seq<Run>, i: nat, j: nat)
    requires Canonical(rs) && i < |rs| && j < |rs| && i != j
    ensures rs[i].start != rs[j].start && rs[i].start >= 0
  {
    assert i < j || j < i;
  }

  lemma SpliceIndex(rs: seq<Run>, i: nat, j: nat, mid: seq<Run>, k: nat)
    requires i <= j <= |rs| && |mid| <= 1 && k < |Splice(rs, i, j, mid)|
    ensures var t := Splice(rs, i, j, mid);
            && |t| == i + |mid| + |rs| - j
            && (k < i ==> t[k] == rs[k])
            && (k >= i + |mid| ==> t[k] == rs[k - i - |mid| + j])
            && (i <= k < i + |mid| ==> t[k] == mid[0])
            && First(t, k + 1) == if k + 1 < i then rs[k + 1].start
                                  else if k + 1 == i then (if mid == [] then First(rs, j) else mid[0].start)
                                  else First(rs, k + 1 - i - |mid| + j)
  {
  }

  /** Rewriting the list between positions i and j by the link updates the allocator makes. */
  lemma SpliceChain(head: int, next: map<int, int>, count: map<int, int>, rs: seq<Run>, i: nat, j: nat, mid: seq<Run>,
                    head': int, next': map<int, int>, count': map<int, int>)
    requires Chain(head, next, count, rs) && Canonical(rs) && i <= j <= |rs| && |mid| <= 1
    requires Canonical(Splice(rs, i, j, mid))
    requires count' == if mid == [] then count else count[mid[0].start := mid[0].len]
    requires var target := if mid == [] then First(rs, j) else mid[0].start;
             var inner := if mid == [] then next else next[mid[0].start := First(rs, j)];
             && head' == (if i == 0 then target else head)
             && next' == (if i == 0 then inner else inner[rs[i - 1].start := target])
    ensures Chain(head', next', count', Splice(rs, i, j, mid))
  {
    hide Canonical;
    var t := Splice(rs, i, j, mid);
    if |t| > 0 { SpliceIndex(rs, i, j, mid, 0); }
    forall k | 0 <= k < |t|
      ensures t[k].start in next' && t[k].start in count' && count'[t[k].start] == t[k].len
      ensures next'[t[k].start] == First(t, k + 1)
    {
      SpliceIndex(rs, i, j, mid, k);
      if mid != [] && k != i {
        SpliceIndex(rs, i, j, mid, i);
        Starts(t, k, i);
      }
      if i > 0 && k != i - 1 {
        SpliceIndex(rs, i, j, mid, i - 1);
        Starts(t, k, i - 1);
      }
      if k < i {
        assert next[rs[k].start] == First(rs, k + 1);
      } else if k >= i + |mid| {
        var m := k - i - |mid| + j;
        assert next[rs[m].start] == First(rs, m + 1);
      }
    }
  }

  lemma ChainAt(head: int, next: map<int, int>, count: map<int, int>, rs: seq<Run>, k: nat)
    requires Chain(head, next, count, rs) && Canonical(rs) && k < |rs|
    ensures var b := rs[k].start;
            b >= 0 && b in next && b in count && count[b] == rs[k].len && next[b] == First(rs, k + 1)
    ensures k > 0 ==> rs[k - 1].start in next && next[rs[k - 1].start] == rs[k].start
    ensures k == 0 ==> head == rs[k].start
  {
    if k > 0 { assert next[rs[k - 1].start] == First(rs, k); }
  }

  lemma AllocSplice(rs: seq<Run>, n: nat, k: nat)
    requires Canonical(rs) && n > 0 && k < |rs| && rs[k].len >= n && forall i :: 0 <= i < k ==> rs[i].len < n
    ensures Alloc(rs, n).1 == rs[k].start && Canonical(Alloc(rs, n).0)
    ensures Alloc(rs, n).0 == Splice(rs, k, k + 1, if rs[k].len > n then [Run(rs[k].start + n, rs[k].len - n)] else [])
  {
    AllocCanonical(rs, n);
    FitAtIs(rs, n, k);
  }

  lemma FitAtIs(rs: seq<Run>, n: nat, k: nat)
    requires k <= |rs| && (k < |rs| ==> rs[k].len >= n) && forall i :: 0 <= i < k ==> rs[i].len < n
    ensures FitAt(rs, n) == k
  {
  }

  lemma SpliceForms(rs: seq<Run>, k: nat, b: Run)
    requires k <= |rs|
    ensures InsertAt(rs, k, b) == Splice(rs, k, k, [b])
    ensures k == |rs| ==> rs + [b] == Splice(rs, k, k, [b])
    ensures k < |rs| ==> rs[k := b] == Splice(rs, k, k + 1, [b])
  {
  }

  lemma SpliceMerge(rs: seq<Run>, k: nat, b: Run)
    requires k + 1 < |rs|
    ensures RemoveAt(rs, k + 1)[k := b] == Splice(rs, k, k + 2, [b])
  {
    assert RemoveAt(rs, k + 1) == rs[..k + 1] + rs[k + 2..];
  }

  lemma FreeKeepsCanonical(rs: seq<Run>, a: int, n: int)
    requires Canonical(rs) && n > 0 && a >= 0 && Taken(rs, a, n)
    ensures Canonical(Free(rs, a, n))
  {
    FreePages(rs, a, n);
  }

  /** rt_page_free as one splice of the list. */
  lemma FreeSplice(rs: seq<Run>, a: int, n: int, k: nat)
    requires Canonical(rs) && n > 0 && a >= 0 && Taken(rs, a, n) && k == Place(rs, a, n)
    ensures Canonical(Free(rs, a, n))
    ensures Free(rs, a, n) ==
              if k < |rs| && rs[k].start + rs[k].len == a then
                if k + 1 < |rs| && a + n == rs[k + 1].start
                then Splice(rs, k, k + 2, [Run(rs[k].start, rs[k].len + n + rs[k + 1].len)])
                else Splice(rs, k, k + 1, [Run(rs[k].start, rs[k].len + n)])
              else if k < |rs| && rs[k].start == a + n then Splice(rs, k, k + 1, [Run(a, rs[k].len + n)])
              else Splice(rs, k, k, [Run(a, n)])
  {
    hide Canonical, Taken, Splice, InsertAt, RemoveAt;
    FreeKeepsCanonical(rs, a, n);
    SpliceForms(rs, k, Run(a, n));
    if k < |rs| {
      SpliceForms(rs, k, Run(a, rs[k].len + n));
      SpliceForms(rs, k, Run(rs[k].start, rs[k].len + n));
    }
    if k + 1 < |rs| { SpliceMerge(rs, k, Run(rs[k].start, rs[k].len + n + rs[k + 1].len)); }
  }

  class PageList {
    var head: int
    var next: map<int, int>
    var count: map<int, int>
    ghost var runs: seq<Run>

    ghost predicate Valid()
      reads this
    {
      Chain(head, next, count, runs) && Canonical(runs)
    }

    /** rt_page_init: an empty list, to which all pages are then freed. */
    constructor (addr: int, npages: int)
      requires addr >= 0 && npages > 0
      ensures Valid() && runs == [Run(addr, npages)]
    {
      head, next, count := NULL, map[], map[];
      runs := [];
      new;
      Free(addr, npages);
    }

    /** Writes through the pointer to the link that leads to the current node. */
    method SetLink(prev: int, v: int)
      modifies this`head, this`next
      ensures if prev == NULL then head == v && next == old(next) else head == old(head) && next == old(next)[prev := v]
    {
      if prev == NULL { head := v; } else { next := next[prev := v]; }
    }

    /** rt_page_alloc. */
    method Alloc(n: nat) returns (b: int)
      requires Valid()
      modifies this
      ensures Valid() && runs == PageRuns.Alloc(old(runs), n).0 && b == PageRuns.Alloc(old(runs), n).1
    {
      hide Chain, Canonical, PageRuns.Alloc, Splice;
      if n == 0 { Nothing(runs, n); return NULL; }
      var prev := NULL;
      b := head;
      ghost var k := 0;
      Begin(head, next, count, runs);
      while b != NULL
        invariant Valid() && runs == old(runs)
        invariant k <= |runs| && b == First(runs, k) && prev == if k == 0 then NULL else runs[k - 1].start
        invariant forall i :: 0 <= i < k ==> runs[i].len < n
        decreases |runs| - k
      {
        ChainAt(head, next, count, runs, k);
        if count[b] > n {
          AllocSplice(runs, n, k);
          Take(prev, b, n, k);
          return;
        }
        if count[b] == n {
          AllocSplice(runs, n, k);
          Unlink(prev, b, k);
          return;
        }
        prev := b;
        b := next[b];
        k := k + 1;
      }
      if k < |runs| { ChainAt(head, next, count, runs, k); }
      None(runs, n, k);
    }

    /** Splits the run at b: the pages behind the first n stay in the list. */
    method Take(prev: int, b: int, n: nat, ghost k: nat)
      requires Valid() && k < |runs| && b == runs[k].start && prev == (if k == 0 then NULL else runs[k - 1].start)
      requires n < runs[k].len && Canonical(Splice(runs, k, k + 1, [Run(b + n, runs[k].len - n)]))
      modifies this
      ensures Valid() && runs == Splice(old(runs), k, k + 1, [Run(b + n, old(runs)[k].len - n)])
    {
      hide Chain, Canonical, Splice;
      ghost var rs := runs;
      ChainAt(head, next, count, rs, k);
      if k > 0 { ChainAt(head, next, count, rs, k - 1); }
      var m := b + n;
      next := next[m := next[b]];
      count := count[m := count[b] - n];
      SetLink(prev, m);
      SpliceChain(old(head), old(next), old(count), rs, k, k + 1, [Run(m, rs[k].len - n)], head, next, count);
      runs := Splice(rs, k, k + 1, [Run(m, rs[k].len - n)]);
    }

    /** Takes the run at b out of the list. */
    method Unlink(prev: int, b: int, ghost k: nat)
      requires Valid() && k < |runs| && b == runs[k].start && prev == (if k == 0 then NULL else runs[k - 1].start)
      requires Canonical(Splice(runs, k, k + 1, []))
      modifies this
      ensures Valid() && runs == Splice(old(runs), k, k + 1, [])
    {
      hide Chain, Canonical, Splice;
      ghost var rs := runs;
      ChainAt(head, next, count, rs, k);
      if k > 0 { ChainAt(head, next, count, rs, k - 1); }
      SetLink(prev, next[b]);
      SpliceChain(old(head), old(next), old(count), rs, k, k + 1, [], head, next, count);
      runs := Splice(rs, k, k + 1, []);
    }

    /** Puts a run of m pages at n into the list, in place of `gone` runs from position k on. */
    method Put(prev: int, n: int, m: int, after: int, ghost k: nat, ghost gone: nat)
      requires Valid() && k + gone <= |runs| && prev == (if k == 0 then NULL else runs[k - 1].start)
      requires after == First(runs, k + gone)
      requires Canonical(Splice(runs, k, k + gone, [Run(n, m)]))
      modifies this
      ensures Valid() && runs == Splice(old(runs), k, k + gone, [Run(n, m)])
    {
      hide Chain, Canonical, Splice;
      ghost var rs := runs;
      if k > 0 { ChainAt(head, next, count, rs, k - 1); }
      count := count[n := m];
      next := next[n := after];
      SetLink(prev, n);
      SpliceChain(old(head), old(next), old(count), rs, k, k + gone, [Run(n, m)], head, next, count);
      runs := Splice(rs, k, k + gone, [Run(n, m)]);
    }

    /** rt_page_free. */
    method Free(n: int, npages: int)
      requires Valid() && n >= 0 && npages > 0 && Taken(runs, n, npages)
      modifies this
      ensures Valid() && runs == PageRuns.Free(old(runs), n, npages)
    {
      hide Chain, Canonical, Splice, PageRuns.Free, Taken;
      ghost var rs := runs;
      var prev, b := NULL, head;
      ghost var k := 0;
      Begin(head, next, count, runs);
      while b != NULL
        invariant Valid() && runs == rs
        invariant k <= |rs| && b == First(rs, k) && prev == if k == 0 then NULL else rs[k - 1].start
        invariant forall i :: 0 <= i < k ==> !Stops(rs[i], n, npages)
        decreases |rs| - k
      {
        ChainAt(head, next, count, rs, k);
        if b + count[b] == n {
          PlaceIs(rs, n, npages, k);
          FreeSplice(rs, n, npages, k);
          var after := next[b];
          if b + count[b] + npages == after {
            ChainAt(head, next, count, rs, k + 1);
            Put(prev, b, count[b] + npages + count[after], next[after], k, 2);
          } else {
            Put(prev, b, count[b] + npages, after, k, 1);
          }
          return;
        }
        if b == n + npages {
          PlaceIs(rs, n, npages, k);
          FreeSplice(rs, n, npages, k);
          Put(prev, n, count[b] + npages, next[b], k, 1);
          return;
        }
        if b > n + npages { break; }
        prev := b;
        b := next[b];
        k := k + 1;
      }
      if k < |rs| { ChainAt(head, next, count, rs, k); }
      PlaceIs(rs, n, npages, k);
      FreeSplice(rs, n, npages, k);
      Put(prev, n, npages, b, k, 0);
    }
  }

  lemma Begin(head: int, next: map<int, int>, count: map<int, int>, rs: seq<Run>)
    requires Chain(head, next, count, rs)
    ensures head == First(rs, 0)
  {
  }

  lemma Nothing(rs: seq<Run>, n: nat)
    ensures n == 0 ==> Alloc(rs, n) == (rs, NULL)
  {
  }

  lemma None(rs: seq<Run>, n: nat, k: nat)
    requires k == |rs| && forall i :: 0 <= i < k ==> rs[i].len < n
    ensures Alloc(rs, n) == (rs, NULL)
  {
    FitAtIs(rs, n, k);
  }

  lemma PlaceIs(rs: seq<Run>, a: int, n: int, k: nat)
    requires k <= |rs| && (k < |rs| ==> Stops(rs[k], a, n)) && forall i :: 0 <= i < k ==> !Stops(rs[i], a, n)
    ensures Place(rs, a, n) == k
  {
  }
}
