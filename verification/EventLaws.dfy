/** Nobody waits for events that are there, and waking a receiver is the same as letting it call again. */
module EventLaws {
  import opened Rings
  import opened Sched
  import opened SchedLaws
  import opened WaitQueue
  import opened Wakeups
  import opened EventSpec
  import opened EventBits

  lemma ClearedBits(events: Bits, c: Bits, v: Bits)
    ensures HasAll(Cleared(events, c), v) ==> HasAll(events, v)
    ensures HasAny(Cleared(events, c), v) ==> HasAny(events, v)
  {
    ClearedAll(events, c, v);
    ClearedAny(events, c, v);
  }

  lemma ClearedAll(events: Bits, c: Bits, v: Bits)
    ensures (events & !c) & v == v ==> events & v == v
  {
  }

  lemma ClearedAny(events: Bits, c: Bits, v: Bits)
    ensures (events & !c) & v != 0 ==> events & v != 0
  {
  }

  /** Clearing bits makes no condition true. */
  lemma ClearsKeep(events: Bits, w: Want, v: Want)
    ensures Matches(FastLeaves(events, w), v) ==> Matches(events, v)
    ensures Matches(SendLeaves(events, w), v) ==> Matches(events, v)
  {
    hide HasAll, HasAny, Cleared, Both;
    ClearedBits(events, w.bits, v.bits);
    ClearedBits(events, Stored(events, w), v.bits);
  }

  lemma StoredAll(events: Bits, bits: Bits)
    ensures HasAll(events, bits) ==> bits == Both(events, bits)
  {
  }

  lemma StoredAny(events: Bits, bits: Bits)
    ensures Both(bits, events) == Both(events, bits)
    ensures Cleared(events, Both(bits, events)) == Cleared(events, bits)
  {
    ClearedBoth(events, bits);
  }

  lemma ClearedBoth(events: Bits, bits: Bits)
    ensures events & !(bits & events) == events & !bits
    ensures bits & events == events & bits
  {
  }

  /** A receiver woken by a send gets and leaves what it would have got and left in a receive that does not wait. */
  lemma WakeIsFast(events: Bits, w: Want)
    requires Matches(events, w)
    ensures Stored(events, w) == FastReceived(events, w)
    ensures SendLeaves(events, w) == FastLeaves(events, w)
  {
    hide HasAll, HasAny, Cleared, Both;
    StoredAll(events, w.bits);
    StoredAny(events, w.bits);
  }

  // ----- the search

  lemma VisitFacts(x: Sys, k: nat, t: Tid)
    requires WF(x.s) && x.s.current != NO_THREAD && Side(x.s.threads, At(x.s, Wait(k)), x.pending) && t in At(x.s, Wait(k))
    ensures var y := Visit(x, t);
            && WF(y.s) && y.s.current == x.s.current && y.s.lock == x.s.lock && y.pending == x.pending
            && Side(y.s.threads, At(y.s, Wait(k)), y.pending)
            && At(y.s, Wait(k)) == (if Matches(x.bits, WantOf(x, t)) then Without(At(x.s, Wait(k)), t) else At(x.s, Wait(k)))
            && (forall u :: u != t ==> WantOf(y, u) == WantOf(x, u))
            && (forall v :: Matches(y.bits, v) ==> Matches(x.bits, v))
            && (forall u :: u in x.want ==> u in y.want)
            && y.s.threads.Keys == x.s.threads.Keys
            && (Matches(x.bits, WantOf(x, t)) ==> Awake(y.s.threads[t].stat) && x.s.threads[t].stat == Suspended)
  {
    hide WF, Resume, Matches, SendLeaves, Stored;
    MembersKnown(x.s, k);
    var y := Visit(x, t);
    forall v ensures Matches(y.bits, v) ==> Matches(x.bits, v) { ClearsKeep(x.bits, WantOf(x, t), v); }
    if Matches(x.bits, WantOf(x, t)) {
      ResumeFacts(x.s, t);
      WakeAny(x.s.threads, y.s.threads, At(x.s, Wait(k)), x.pending, t);
    }
  }

  /** Waking some waiter. */
  lemma WakeAny(a: map<Tid, Thread>, b: map<Tid, Thread>, q: seq<Tid>, pending: set<Tid>, t: Tid)
    requires Side(a, q, pending) && t in q && t in b && b == a[t := b[t]] && Awake(b[t].stat)
    ensures Side(b, Without(q, t), pending)
  {
    WithoutMembers(q, t);
    hide Without;
  }

  /** In the middle of the search: the threads of `kept` have been passed, those of q come next. */
  ghost predicate Midway(x: Sys, k: nat, kept: seq<Tid>, q: seq<Tid>) {
    && WF(x.s) && x.s.current != NO_THREAD && Side(x.s.threads, At(x.s, Wait(k)), x.pending)
    && At(x.s, Wait(k)) == kept + q && Unmet(x.bits, x.want, kept)
    && forall i :: 0 <= i < |q| ==> q[i] in x.want
  }

  function Kept(x: Sys, kept: seq<Tid>, t: Tid): seq<Tid> {
    if Matches(x.bits, WantOf(x, t)) then kept else kept + [t]
  }

  lemma VisitKeeps(x: Sys, k: nat, kept: seq<Tid>, q: seq<Tid>)
    requires Midway(x, k, kept, q) && q != []
    ensures Midway(Visit(x, q[0]), k, Kept(x, kept, q[0]), q[1..])
    ensures Visit(x, q[0]).s.current == x.s.current && Visit(x, q[0]).s.lock == x.s.lock && Visit(x, q[0]).pending == x.pending
  {
    hide WF, Visit, Matches, Side, Without, Unmet;
    var t := q[0];
    assert (kept + q)[|kept|] == t;
    assert t in At(x.s, Wait(k));
    VisitFacts(x, k, t);
    SplitAt(x.s.threads, x.pending, kept, q);
    assert kept + q == kept + [t] + q[1..];
    VisitSame(x, t);
    StillUnmet(x, Visit(x, t), kept, t);
    forall i | 0 <= i < |q[1..]| ensures q[1..][i] in Visit(x, t).want {
      var u := q[i + 1];
      assert u in x.want;
    }
  }

  lemma VisitSame(x: Sys, t: Tid)
    ensures !Matches(x.bits, WantOf(x, t)) ==> Visit(x, t) == x
  {
  }

  /** The search leaves on the list exactly threads whose condition is not met, even by the bits that were there when
      it came to them. */
  lemma {:induction false} SearchFacts(x: Sys, k: nat, kept: seq<Tid>, q: seq<Tid>)
    requires Midway(x, k, kept, q)
    ensures var y := Search(x, q);
            && Inv(y, k) && y.s.current == x.s.current && y.s.lock == x.s.lock && y.pending == x.pending
    decreases |q|
  {
    if q == [] {
      hide WF, Side, Unmet;
      assert kept + q == kept;
    } else {
      hide Midway, Visit, Kept, Inv;
      VisitKeeps(x, k, kept, q);
      SearchFacts(Visit(x, q[0]), k, Kept(x, kept, q[0]), q[1..]);
    }
  }

  lemma StillUnmet(x: Sys, y: Sys, kept: seq<Tid>, t: Tid)
    requires Unmet(x.bits, x.want, kept) && t !in kept && t in x.want
    requires forall u :: u != t ==> WantOf(y, u) == WantOf(x, u)
    requires forall v :: Matches(y.bits, v) ==> Matches(x.bits, v)
    requires forall u :: u in x.want ==> u in y.want
    ensures Unmet(y.bits, y.want, kept)
    ensures y == x && !Matches(x.bits, WantOf(x, t)) ==> Unmet(y.bits, y.want, kept + [t])
  {
    hide Matches;
    forall i | 0 <= i < |kept| ensures kept[i] in y.want && !Matches(y.bits, y.want[kept[i]]) {
      var u := kept[i];
      assert u in kept;
      assert WantOf(y, u) == WantOf(x, u);
    }
  }

  lemma SplitAt(threads: map<Tid, Thread>, pending: set<Tid>, kept: seq<Tid>, q: seq<Tid>)
    requires Side(threads, kept + q, pending) && q != []
    ensures q[0] !in kept && Without(kept + q, q[0]) == kept + q[1..]
  {
    var s := kept + q;
    assert Distinct(s);
    assert s[|kept|] == q[0];
    IndexOfUnique(s, |kept|);
    forall i | 0 <= i < |kept| ensures kept[i] != q[0] { assert s[i] == kept[i]; }
  }

  // ----- steps

  lemma MoreBits(x: Sys, k: nat, bits: Bits)
    requires Inv(x, k)
    ensures Midway(x.(bits := Joined(x.bits, bits)), k, [], At(x.s, Wait(k)))
  {
    hide WF, Matches, Side;
    assert [] + At(x.s, Wait(k)) == At(x.s, Wait(k));
  }

  lemma FewerBits(events: Bits, bits: Bits, want: map<Tid, Want>, q: seq<Tid>)
    requires Unmet(events, want, q) && forall v :: Matches(bits, v) ==> Matches(events, v)
    ensures Unmet(bits, want, q)
  {
    hide Matches;
  }

  lemma ReceiveInv(x: Sys, k: nat, flag: Flag, w: Want, time: int)
    requires Inv(x, k) && Free(x) && w.bits != 0
    ensures Inv(Step(x, k, flag, Receive(w, time)), k)
  {
    hide WF, Matches, Side, Await, Unmet, FastLeaves;
    var t, q := x.s.current, At(x.s, Wait(k));
    NotNull(x.s, t);
    if Matches(x.bits, w) {
      ErrorInv(x, k, EOK);
      forall v ensures Matches(FastLeaves(x.bits, w), v) ==> Matches(x.bits, v) { ClearsKeep(x.bits, w, v); }
      FewerBits(x.bits, FastLeaves(x.bits, w), x.want, q);
    } else if time == 0 {
      ErrorInv(x, k, ETIMEOUT);
    } else if w.all || w.any {
      AwaitKeeps(x.s, k, flag, time);
      AwaitSide(x.s, k, flag, time, x.pending);
      AwaitList(x.s, k, flag, time);
      var i :| 0 <= i <= |q| && At(Await(x.s, k, flag, time), Wait(k)) == InsertAt(q, i, t);
      JoinUnmet(x, q, i, t, w);
    }
  }

  lemma JoinUnmet(x: Sys, q: seq<Tid>, i: nat, t: Tid, w: Want)
    requires Unmet(x.bits, x.want, q) && i <= |q| && !Matches(x.bits, w) && t !in q
    ensures Unmet(x.bits, x.want[t := w], InsertAt(q, i, t))
  {
    hide Matches;
    var r := InsertAt(q, i, t);
    forall j | 0 <= j < |r| ensures r[j] in x.want[t := w] && !Matches(x.bits, x.want[t := w][r[j]]) {
      if j != i {
        var u := q[if j < i then j else j - 1];
        assert u in q && r[j] == u;
      }
    }
  }

  lemma AwaitList(s: State, k: nat, flag: Flag, time: int)
    requires WF(s) && Runs(s)
    ensures exists i :: 0 <= i <= |At(s, Wait(k))| && At(Await(s, k, flag, time), Wait(k)) == InsertAt(At(s, Wait(k)), i, s.current)
    ensures s.current !in At(s, Wait(k))
  {
    hide WF, ListSuspend, Schedule, Arm, InsertAt;
    AwaitFacts(s, k, flag, time);
    var s1 := ListSuspend(SetError(s, s.current, EOK), k, s.current, flag);
    ScheduleFacts(if time > 0 then Arm(s1, s.current) else s1);
  }

  lemma ErrorInv(x: Sys, k: nat, e: Error)
    requires Inv(x, k) && Free(x)
    ensures Inv(x.(s := SetError(x.s, x.s.current, e)), k)
  {
    hide WF, Unmet;
    var t := x.s.current;
    MarkFacts(x.s, t, x.s.threads[t].(error := e));
    OtherSide(x.s.threads, SetError(x.s, t, e).threads, At(x.s, Wait(k)), x.pending, t);
  }

  lemma ExpireUnmet(x: Sys, k: nat, t: Tid)
    requires Inv(x, k) && t in x.s.threads && x.s.threads[t].stat == Suspended
    ensures Unmet(x.bits, x.want, At(Schedule(Expire(x.s, t)), Wait(k)))
  {
    hide WF, Schedule, Expire, Matches, Side;
    ExpireFacts(x.s, t);
    ScheduleFacts(Expire(x.s, t));
    WithoutUnmet(x.bits, x.want, At(x.s, Wait(k)), t);
  }

  lemma WithoutUnmet(bits: Bits, want: map<Tid, Want>, q: seq<Tid>, t: Tid)
    requires Unmet(bits, want, q)
    ensures Unmet(bits, want, Without(q, t))
  {
    hide Matches;
  }

  lemma LeaveInv(x: Sys, k: nat)
    requires Inv(x, k) && Runs(x.s)
    ensures Inv(x.(pending := x.pending - {x.s.current}), k)
  {
    hide WF, Unmet;
    NotWaiting(x.s, x.s.current, k);
    LeaveSide(x.s.threads, At(x.s, Wait(k)), x.pending, x.s.current);
  }

  lemma SendInv(x: Sys, k: nat, flag: Flag, bits: Bits)
    requires Inv(x, k) && bits != 0
    ensures Inv(Step(x, k, flag, Send(bits)), k)
  {
    hide WF, Schedule, Side, Unmet, Search, Wakes, Midway, Joined;
    var x1 := x.(bits := Joined(x.bits, bits));
    MoreBits(x, k, bits);
    SearchFacts(x1, k, [], At(x.s, Wait(k)));
    var y := Search(x1, At(x.s, Wait(k)));
    ScheduleSide(y.s, k, y.pending);
  }

  /** No step leaves a thread waiting for events that are there. */
  lemma StepInv(x: Sys, k: nat, flag: Flag, op: Op)
    requires Inv(x, k)
    ensures Inv(Step(x, k, flag, op), k)
  {
    hide WF, Schedule, Expire, Side, Unmet, Search, Await, Matches, FastLeaves, Joined;
    match op
    case Send(bits) =>
      if bits != 0 { SendInv(x, k, flag, bits); }
    case Receive(w, time) => if w.bits != 0 && Free(x) && (w.all || w.any) { ReceiveInv(x, k, flag, w, time); }
    case Return => if x.s.current in x.pending && Runs(x.s) { LeaveInv(x, k); }
    case Timeout(u) =>
      if u in x.s.threads && x.s.threads[u].stat == Suspended {
        TimeoutSide(x.s, k, x.pending, u);
        ExpireUnmet(x, k, u);
      }
    case Yield => ScheduleSide(x.s, k, x.pending);
  }

  lemma {:induction false} RunInv(x: Sys, k: nat, flag: Flag, ops: seq<Op>)
    requires Inv(x, k)
    ensures Inv(Steps(x, k, flag, ops), k)
    decreases |ops|
  {
    if ops != [] {
      StepInv(x, k, flag, ops[0]);
      hide Inv, Step;
      RunInv(Step(x, k, flag, ops[0]), k, flag, ops[1..]);
    }
  }

  /** In every state a run of a new event set reaches, no suspended thread's condition holds on the current set. */
  lemma NobodyWaitsInVain(x: Sys, k: nat, flag: Flag, ops: seq<Op>)
    requires WF(x.s) && x.s.current != NO_THREAD && At(x.s, Wait(k)) == [] && x.pending == {}
    ensures var y := Steps(x, k, flag, ops);
            forall t :: t in At(y.s, Wait(k)) ==> t in y.want && !Matches(y.bits, y.want[t])
  {
    assert Inv(x, k) by { hide WF; }
    RunInv(x, k, flag, ops);
    hide WF, Steps, Side, Matches;
    var y := Steps(x, k, flag, ops);
    forall t | t in At(y.s, Wait(k)) ensures t in y.want && !Matches(y.bits, y.want[t]) {
      var i :| 0 <= i < |At(y.s, Wait(k))| && At(y.s, Wait(k))[i] == t;
    }
  }

  // ----- a send is a sequence of receives

  lemma {:induction false} WantsSame(x: Sys, y: Sys, q: seq<Tid>)
    requires forall i :: 0 <= i < |q| ==> WantOf(y, q[i]) == WantOf(x, q[i])
    ensures Wants(y, q) == Wants(x, q) && BitsOf(y, q) == BitsOf(x, q)
  {
  }

  /** Sending wakes and serves the waiters exactly as if each of them, in list order, received once without waiting:
      the same bits are handed out and the same set remains. */
  lemma {:induction false} SearchIsPolls(x: Sys, q: seq<Tid>)
    requires Distinct(q)
    ensures var y := Search(x, q);
            && y.bits == Poll(x.bits, Wants(x, q)).0 && BitsOf(y, q) == Poll(x.bits, Wants(x, q)).1
            && forall t :: t !in q ==> WantOf(y, t) == WantOf(x, t)
    decreases |q|
  {
    if q != [] {
      hide Visit, Matches, FastLeaves, FastReceived, Distinct;
      var t, rest := q[0], q[1..];
      var y := Visit(x, t);
      VisitIsFast(x, t);
      RestDistinct(q);
      SearchIsPolls(y, rest);
      var z := Search(y, rest);
      WantsSame(x, y, rest);
      assert Wants(x, q)[1..] == Wants(x, rest);
      assert BitsOf(z, q) == [WantOf(z, t).bits] + BitsOf(z, rest);
      PollStep(x.bits, Wants(x, q));
    }
  }

  /** One turn of the search has the effect of one receive that does not wait. */
  lemma VisitIsFast(x: Sys, t: Tid)
    ensures var y, w := Visit(x, t), WantOf(x, t);
            && y.bits == (if Matches(x.bits, w) then FastLeaves(x.bits, w) else x.bits)
            && WantOf(y, t).bits == (if Matches(x.bits, w) then FastReceived(x.bits, w) else w.bits)
            && forall u :: u != t ==> WantOf(y, u) == WantOf(x, u)
  {
    hide Matches, Stored, SendLeaves, FastLeaves, FastReceived, Resume;
    if Matches(x.bits, WantOf(x, t)) { WakeIsFast(x.bits, WantOf(x, t)); }
  }

  lemma PollStep(bits: Bits, ws: seq<Want>)
    requires ws != []
    ensures var w := ws[0];
            var r := Poll(if Matches(bits, w) then FastLeaves(bits, w) else bits, ws[1..]);
            Poll(bits, ws) == (r.0, [if Matches(bits, w) then FastReceived(bits, w) else w.bits] + r.1)
  {
  }

  /** rt_event_send: the events sent join those that are there, then every waiter in list order is served as by a
      receive of its own. */
  lemma SendIsPolls(x: Sys, k: nat, flag: Flag, bits: Bits, all: Bits)
    requires Inv(x, k) && bits != 0 && SetOf(all) == SetOf(x.bits) + SetOf(bits)
    ensures var y, q := Step(x, k, flag, Send(bits)), At(x.s, Wait(k));
            y.bits == Poll(all, Wants(x, q)).0 && BitsOf(y, q) == Poll(all, Wants(x, q)).1
  {
    hide Inv, Search, Wakes, Schedule, Poll, Wants, BitsOf, Distinct, Joined, SetOf;
    JoinedSet(x.bits, bits);
    SetInjective(Joined(x.bits, bits), all);
    var q, x1 := At(x.s, Wait(k)), x.(bits := all);
    SideDistinct(x, k);
    SearchIsPolls(x1, q);
    WantsSame(x, x1, q);
    WantsSame(Search(x1, q), Step(x, k, flag, Send(bits)), q);
  }

  lemma SideDistinct(x: Sys, k: nat)
    requires Inv(x, k)
    ensures Distinct(At(x.s, Wait(k)))
  {
  }
}
