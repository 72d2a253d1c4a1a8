/** What the calls on an event set do, in terms of sets of events. */
module EventAnswers {
  import opened Rings
  import opened Sched
  import opened SchedLaws
  import opened WaitQueue
  import opened Wakeups
  import opened Waiting
  import opened EventSpec
  import opened EventBits
  import opened EventLaws

  // ----- the reference, on sets

  /** A receiver is content with all of its events or, if it did not ask for all, with some. */
  ghost predicate Content(events: iset<Bits>, w: Want) {
    if w.all then SetOf(w.bits) <= events else w.any && events * SetOf(w.bits) != iset{}
  }

  /** What a receiver that is content takes away from the set. */
  ghost function Consumed(events: iset<Bits>, w: Want): iset<Bits> {
    if w.clear then events - SetOf(w.bits) else events
  }

  /** The events left after all waiters have been served in list order, and which of them got what. */
  datatype Service = Service(left: iset<Bits>, content: seq<bool>, handed: seq<iset<Bits>>)

  ghost function Serve(events: iset<Bits>, ws: seq<Want>): (r: Service)
    ensures |r.content| == |r.handed| == |ws|
    decreases |ws|
  {
    if ws == [] then Service(events, [], [])
    else
      var c := Content(events, ws[0]);
      var r := Serve(if c then Consumed(events, ws[0]) else events, ws[1..]);
      Service(r.left, [c] + r.content, [events * SetOf(ws[0].bits)] + r.handed)
  }

  /** The threads of q that are not served, in order. */
  function Unserved(q: seq<Tid>, content: seq<bool>): seq<Tid>
    requires |q| == |content|
    decreases |q|
  {
    if q == [] then [] else (if content[0] then [] else [q[0]]) + Unserved(q[1..], content[1..])
  }

  // ----- words and sets

  lemma ContentIff(events: Bits, w: Want)
    ensures Matches(events, w) <==> Content(SetOf(events), w)
  {
    hide HasAll, HasAny, SetOf;
    AllSet(events, w.bits);
    AnySet(events, w.bits);
  }

  lemma FastSets(events: Bits, w: Want)
    ensures SetOf(FastReceived(events, w)) == SetOf(events) * SetOf(w.bits)
    ensures SetOf(FastLeaves(events, w)) == Consumed(SetOf(events), w)
  {
    hide SetOf, Both, Cleared;
    BothSet(events, w.bits);
    ClearedSet(events, w.bits);
  }

  // ----- rt_event_recv

  /** A receive by the running thread: refused without events to wait for; content at once it takes what it asked for;
      else it gives up when it may not wait, and waits otherwise. */
  lemma ReceiveAnswers(x: Sys, k: nat, flag: Flag, w: Want, time: int)
    requires Inv(x, k) && Free(x) && (w.all || w.any)
    ensures var (y, t) := (Step(x, k, flag, Receive(w, time)), x.s.current);
            if w.bits == 0 then y == x
            else if Content(SetOf(x.bits), w) then
              && SetOf(y.bits) == Consumed(SetOf(x.bits), w) && y.s == Set(x.s, t, x.s.threads[t].(error := EOK))
              && y.want == x.want && y.pending == x.pending
            else if time == 0 then y == x.(s := Set(x.s, t, x.s.threads[t].(error := ETIMEOUT)))
            else
              WaitsOn(x.s, y.s, k, flag, time) && y.bits == x.bits && y.want == x.want[t := w] && y.pending == x.pending + {t}
  {
    hide WF, Side, Unmet, Await, WaitsOn, Matches, Content, Consumed, SetOf, FastLeaves;
    ContentIff(x.bits, w);
    FastSets(x.bits, w);
    AwaitWaits(x.s, k, flag, time);
  }

  // ----- rt_event_send

  /** A thread the search has come to: woken when it is content, else as it was. */
  predicate Turned(a: Thread, b: Thread, c: bool) {
    if c then Awake(b.stat) && b == a.(stat := b.stat, timer := false) else b == a
  }

  /** What is stored for it: the events it gets, else what it waits for. */
  ghost predicate Stores(a: Want, b: Want, c: bool, handed: iset<Bits>) {
    if c then SetOf(b.bits) == handed else b == a
  }

  ghost predicate Served(x: Sys, y: Sys, q: seq<Tid>, r: Service) {
    && |r.content| == |r.handed| == |q|
    && x.s.threads.Keys == y.s.threads.Keys
    && (forall t :: t in x.s.threads && t !in q ==> y.s.threads[t] == x.s.threads[t])
    && (forall t :: t !in q ==> WantOf(y, t) == WantOf(x, t))
    && (forall i :: 0 <= i < |q| ==>
          q[i] in x.s.threads && q[i] in y.s.threads && Turned(x.s.threads[q[i]], y.s.threads[q[i]], r.content[i]))
    && (forall i :: 0 <= i < |q| ==> Stores(WantOf(x, q[i]), WantOf(y, q[i]), r.content[i], r.handed[i]))
  }

  lemma VisitServes(x: Sys, k: nat, t: Tid)
    requires WF(x.s) && x.s.current != NO_THREAD && t in At(x.s, Wait(k))
    ensures var (y, w, events) := (Visit(x, t), WantOf(x, t), SetOf(x.bits));
            && SetOf(y.bits) == (if Content(events, w) then Consumed(events, w) else events)
            && Served(x, y, [t], Service(SetOf(y.bits), [Content(events, w)], [events * SetOf(w.bits)]))
  {
    hide WF, Resume, Matches, SendLeaves, Stored, SetOf, Content, Consumed, FastLeaves, FastReceived;
    var w := WantOf(x, t);
    MembersKnown(x.s, k);
    ContentIff(x.bits, w);
    FastSets(x.bits, w);
    if Matches(x.bits, w) {
      WakeIsFast(x.bits, w);
      ResumeFacts(x.s, t);
      assert Turned(x.s.threads[t], Visit(x, t).s.threads[t], true);
    }
  }

  lemma ServedBoth(x: Sys, y: Sys, z: Sys, t: Tid, q: seq<Tid>, r: Service, rest: Service)
    requires Served(x, y, [t], r) && Served(y, z, q, rest) && t !in q
    ensures Served(x, z, [t] + q, Service(rest.left, r.content + rest.content, r.handed + rest.handed))
  {
    hide Turned, Stores;
    var p, c := [t] + q, r.content + rest.content;
    assert forall u :: u in p <==> u == t || u in q;
    assert [t][0] == t;
    forall u | u in x.s.threads && u !in p ensures z.s.threads[u] == x.s.threads[u] {
      assert u in x.s.threads.Keys && u !in [t];
      assert u in y.s.threads.Keys;
    }
    assert t in y.s.threads && t in z.s.threads && z.s.threads[t] == y.s.threads[t] by {
      assert t in x.s.threads.Keys && t in y.s.threads.Keys && t in z.s.threads.Keys;
    }
    forall i | 0 <= i < |p| ensures p[i] in x.s.threads && p[i] in z.s.threads && Turned(x.s.threads[p[i]], z.s.threads[p[i]], c[i]) {
      if i > 0 {
        var u := q[i - 1];
        assert p[i] == u && c[i] == rest.content[i - 1];
        assert u in q && u in y.s.threads.Keys && u in x.s.threads.Keys && u !in [t];
      }
    }
    forall i | 0 <= i < |p| ensures Stores(WantOf(x, p[i]), WantOf(z, p[i]), c[i], (r.handed + rest.handed)[i]) {
      if i > 0 {
        var u := q[i - 1];
        assert p[i] == u && u in q && u !in [t];
      }
    }
  }

  /** The search serves the waiters as the reference does. */
  lemma {:induction false} SearchServes(x: Sys, k: nat, kept: seq<Tid>, q: seq<Tid>, ws: seq<Want>)
    requires Midway(x, k, kept, q) && ws == Wants(x, q)
    ensures var (y, r) := (Search(x, q), Serve(SetOf(x.bits), ws));
            && SetOf(y.bits) == r.left && Served(x, y, q, r) && At(y.s, Wait(k)) == kept + Unserved(q, r.content)
            && (Wakes(x, q) <==> true in r.content)
    decreases |q|
  {
    hide Midway, Visit, Kept, SetOf, Content, Consumed, Matches, Served, WF;
    if q == [] {
      NothingToServe(x, k, kept);
    } else {
      var t, y, rest := q[0], Visit(x, q[0]), q[1..];
      var c := Content(SetOf(x.bits), ws[0]);
      AtMidway(x, k, kept, q);
      VisitServes(x, k, t);
      VisitKeeps(x, k, kept, q);
      ContentIff(x.bits, ws[0]);
      LaterWants(x, y, k, kept, q);
      SearchServes(y, k, Kept(x, kept, t), rest, ws[1..]);
      var r := Serve(SetOf(y.bits), ws[1..]);
      ServedBoth(x, y, Search(y, rest), t, rest, Service(SetOf(y.bits), [c], [SetOf(x.bits) * SetOf(ws[0].bits)]), r);
      assert [t] + rest == q;
      KeptIs(x, kept, t, c, Unserved(rest, r.content));
    }
  }

  lemma NothingToServe(x: Sys, k: nat, kept: seq<Tid>)
    requires Midway(x, k, kept, [])
    ensures At(x.s, Wait(k)) == kept && Served(x, x, [], Service(SetOf(x.bits), [], [])) && kept + [] == kept
  {
    hide WF, Side, Unmet, SetOf;
    assert kept + [] == kept;
  }

  lemma AtMidway(x: Sys, k: nat, kept: seq<Tid>, q: seq<Tid>)
    requires Midway(x, k, kept, q) && q != []
    ensures WF(x.s) && x.s.current != NO_THREAD && q[0] in At(x.s, Wait(k)) && q[0] !in q[1..] && Distinct(q)
  {
    hide WF, Unmet;
    var s := kept + q;
    assert s[|kept|] == q[0];
    assert Distinct(s);
    forall i, j | 0 <= i < j < |q| ensures q[i] != q[j] { assert s[|kept| + i] != s[|kept| + j]; }
    RestDistinct(q);
  }

  lemma LaterWants(x: Sys, y: Sys, k: nat, kept: seq<Tid>, q: seq<Tid>)
    requires Midway(x, k, kept, q) && q != [] && y == Visit(x, q[0])
    ensures Wants(x, q)[1..] == Wants(y, q[1..]) && Wants(x, q)[0] == WantOf(x, q[0])
  {
    hide WF, Midway, Visit;
    AtMidway(x, k, kept, q);
    VisitIsFast(x, q[0]);
    forall i | 0 <= i < |q| - 1 ensures Wants(x, q)[1..][i] == Wants(y, q[1..])[i] {
      var u := q[1..][i];
      assert u in q[1..];
    }
  }

  lemma KeptIs(x: Sys, kept: seq<Tid>, t: Tid, c: bool, more: seq<Tid>)
    requires c <==> Matches(x.bits, WantOf(x, t))
    ensures Kept(x, kept, t) + more == kept + ((if c then [] else [t]) + more)
  {
  }

  /** Nothing about the threads outside q has changed but who runs. */
  ghost predicate OthersQuiet(a: map<Tid, Thread>, b: map<Tid, Thread>, q: seq<Tid>) {
    && a.Keys == b.Keys
    && forall t :: t in a && t !in q ==>
         b[t] == a[t] || (Awake(a[t].stat) && Awake(b[t].stat) && b[t] == a[t].(stat := b[t].stat))
  }

  lemma ThenQuiet(x: Sys, y: Sys, z: Sys, q: seq<Tid>, r: Service)
    requires Served(x, y, q, r) && Quiet(y.s.threads, z.s.threads) && z.want == y.want
    requires forall i :: 0 <= i < |q| ==> q[i] in x.s.threads && x.s.threads[q[i]].stat == Suspended
    ensures OthersQuiet(x.s.threads, z.s.threads, q)
    ensures forall i :: 0 <= i < |q| ==>
              && q[i] in z.s.threads && q[i] in x.s.threads && Turned(x.s.threads[q[i]], z.s.threads[q[i]], r.content[i])
              && Stores(WantOf(x, q[i]), WantOf(z, q[i]), r.content[i], r.handed[i])
  {
    hide Stores;
    forall t | t in x.s.threads ensures t in y.s.threads && t in z.s.threads {
      assert t in x.s.threads.Keys && t in y.s.threads.Keys && t in z.s.threads.Keys;
    }
    assert x.s.threads.Keys == z.s.threads.Keys;
    forall i | 0 <= i < |q| ensures q[i] in z.s.threads && Turned(x.s.threads[q[i]], z.s.threads[q[i]], r.content[i]) {
      var u := q[i];
      assert u in y.s.threads;
    }
  }

  /** rt_event_send: the events sent join those that are there; every waiter in list order that is content takes its
      events and is woken, the others stay where they are with what they wait for. */
  lemma SendAnswers(x: Sys, k: nat, flag: Flag, bits: Bits)
    requires Inv(x, k)
    ensures bits == 0 ==> Step(x, k, flag, Send(bits)) == x
    ensures bits != 0 ==>
              var (y, q) := (Step(x, k, flag, Send(bits)), At(x.s, Wait(k)));
              var r := Serve(SetOf(x.bits) + SetOf(bits), Wants(x, q));
              && SetOf(y.bits) == r.left && y.pending == x.pending
              && At(y.s, Wait(k)) == Unserved(q, r.content)
              && OthersQuiet(x.s.threads, y.s.threads, q)
              && forall i :: 0 <= i < |q| ==>
                   && q[i] in x.s.threads && q[i] in y.s.threads && Turned(x.s.threads[q[i]], y.s.threads[q[i]], r.content[i])
                   && Stores(WantOf(x, q[i]), WantOf(y, q[i]), r.content[i], r.handed[i])
  {
    hide WF, Schedule, Search, Wakes, Midway, Joined, SetOf, Served, Content, Side, Unmet, Quiet, Turned, Stores, Wants, OthersQuiet, Unserved;
    if bits != 0 {
      var q, x1 := At(x.s, Wait(k)), x.(bits := Joined(x.bits, bits));
      JoinedSet(x.bits, bits);
      MoreBits(x, k, bits);
      SearchFacts(x1, k, [], q);
      WantsSame(x, x1, q);
      SameWants(x, x1, q);
      SearchServes(x1, k, [], q, Wants(x1, q));
      var y, r := Search(x1, q), Serve(SetOf(x1.bits), Wants(x1, q));
      assert [] + Unserved(q, r.content) == Unserved(q, r.content);
      ScheduleFacts(y.s);
      QuietSelf(y.s.threads);
      MembersKnown(x.s, k);
      ServedFrom(x, x1, y, q, r);
      ThenQuiet(x, y, Step(x, k, flag, Send(bits)), q, r);
    }
  }

  lemma SameWants(x: Sys, x1: Sys, q: seq<Tid>)
    requires x1.want == x.want
    ensures Wants(x1, q) == Wants(x, q) && |Wants(x, q)| == |q|
  {
  }

  lemma QuietSelf(a: map<Tid, Thread>)
    ensures Quiet(a, a)
  {
  }

  lemma ServedFrom(x: Sys, x1: Sys, y: Sys, q: seq<Tid>, r: Service)
    requires Served(x1, y, q, r) && x1.s == x.s && x1.want == x.want
    ensures Served(x, y, q, r)
  {
    hide Turned, Stores;
    forall t: Tid ensures WantOf(x1, t) == WantOf(x, t) {}
  }

  /** Every other step: a thread switched back to inside its receive ends it, a timeout wakes its thread with the error;
      no event moves. */
  lemma OtherAnswers(x: Sys, k: nat, flag: Flag, op: Op)
    requires Inv(x, k) && !op.Send? && !op.Receive?
    ensures var y := Step(x, k, flag, op);
            && y.bits == x.bits && y.want == x.want
            && (op.Return? ==> y.s == x.s && y.pending == if Runs(x.s) then x.pending - {x.s.current} else x.pending)
            && (op.Timeout? ==> y.pending == x.pending && if MayExpire(x.s, op.t) then TimedOut(x.s, y.s, op.t) else y.s == x.s)
  {
    hide WF, Side, Unmet, Schedule, Expire, TimedOut;
    if op.Timeout? && MayExpire(x.s, op.t) { ExpireTimesOut(x.s, op.t); }
    assert x.s.current !in x.pending ==> x.pending - {x.s.current} == x.pending;
  }

  // ----- all runs

  /** In every state a run of a new event set reaches, no waiting thread would be content with the current set. */
  lemma NobodyContentWaits(x: Sys, k: nat, flag: Flag, ops: seq<Op>, t: Tid)
    requires WF(x.s) && x.s.current != NO_THREAD && At(x.s, Wait(k)) == [] && x.pending == {}
    requires t in At(Steps(x, k, flag, ops).s, Wait(k))
    ensures var y := Steps(x, k, flag, ops); t in y.want && !Content(SetOf(y.bits), y.want[t])
  {
    hide WF, Steps, Matches, Content, SetOf;
    NobodyWaitsInVain(x, k, flag, ops);
    var y := Steps(x, k, flag, ops);
    ContentIff(y.bits, WantOf(y, t));
  }
}
