/** Blocking calls that check their condition again after being woken: the callers of one side (receivers, senders,
    takers of blocks) are waiting on a list, or awake again but not yet back from the call. */
module Wakeups {
  import opened Rings
  import opened Sched
  import opened SchedLaws
  import opened WaitQueue

  /** `pending` are the threads inside a blocked call, q those of them that still wait. */
  ghost predicate Side(threads: map<Tid, Thread>, q: seq<Tid>, pending: set<Tid>) {
    && Distinct(q)
    && (forall t :: t in q ==> t in pending && t in threads && threads[t].error == EOK && threads[t].stat == Suspended)
    && (forall t :: t in pending && t !in q ==> t in threads && Awake(threads[t].stat))
  }

  /** Woken by the other side, not by a timeout, and not yet run. */
  function Woken(threads: map<Tid, Thread>, q: seq<Tid>, pending: set<Tid>): set<Tid> {
    set t | t in pending && t !in q && t in threads && threads[t].error == EOK
  }

  /** No wakeup is lost: while a thread waits, at most as many items are available as threads have been woken. */
  ghost predicate NoneLost(threads: map<Tid, Thread>, q: seq<Tid>, pending: set<Tid>, available: int) {
    q != [] ==> available <= |Woken(threads, q, pending)|
  }

  lemma QuietSide(a: map<Tid, Thread>, b: map<Tid, Thread>, q: seq<Tid>, pending: set<Tid>)
    requires Side(a, q, pending) && Quiet(a, b)
    ensures Side(b, q, pending) && Woken(b, q, pending) == Woken(a, q, pending)
  {
    forall t | t in a ensures t in b && b[t].error == a[t].error && (Awake(a[t].stat) ==> Awake(b[t].stat)) && (b[t].stat == Suspended <==> a[t].stat == Suspended) {
      assert t in a.Keys && t in b.Keys;
    }
    assert forall t :: t in b ==> t in a by { forall t | t in b ensures t in a { assert t in b.Keys && t in a.Keys; } }
  }

  /** A thread outside the blocked calls changes. */
  lemma OtherSide(a: map<Tid, Thread>, b: map<Tid, Thread>, q: seq<Tid>, pending: set<Tid>, t: Tid)
    requires Side(a, q, pending) && t !in pending && t in b && b == a[t := b[t]]
    ensures Side(b, q, pending) && Woken(b, q, pending) == Woken(a, q, pending)
  {
    assert t !in q;
  }

  /** Waking the first waiter adds one to the woken threads. */
  lemma WakeSide(a: map<Tid, Thread>, b: map<Tid, Thread>, q: seq<Tid>, pending: set<Tid>)
    requires Side(a, q, pending) && q != [] && q[0] in b && b == a[q[0] := b[q[0]]]
    requires Awake(b[q[0]].stat) && (q[0] in a ==> b[q[0]].error == a[q[0]].error)
    ensures Side(b, q[1..], pending)
    ensures Woken(b, q[1..], pending) == Woken(a, q, pending) + {q[0]} && q[0] !in Woken(a, q, pending)
    ensures q[0] in pending
  {
    var h := q[0];
    assert h in q;
    assert h !in q[1..];
    forall t ensures t in q[1..] <==> t in q && t != h {
      if t in q && t != h { var i :| 0 <= i < |q| && q[i] == t; assert q[1..][i - 1] == t; }
    }
  }

  /** A waiter gives up: its call will report the timeout. */
  lemma ExpireSide(a: map<Tid, Thread>, b: map<Tid, Thread>, q: seq<Tid>, pending: set<Tid>, t: Tid)
    requires Side(a, q, pending) && t in a && a[t].stat == Suspended && t in b && b == a[t := b[t]]
    requires Awake(b[t].stat) && b[t].error != EOK
    ensures Side(b, Without(q, t), pending)
    ensures Woken(b, Without(q, t), pending) == Woken(a, q, pending)
  {
    WithoutMembers(q, t);
    hide Without;
    assert t in pending ==> t in q;
  }

  /** A thread starts to wait, for the first time or again. */
  lemma BlockSide(a: map<Tid, Thread>, b: map<Tid, Thread>, q: seq<Tid>, i: nat, pending: set<Tid>, t: Tid)
    requires Side(a, q, pending) && t !in q && i <= |q| && t in b && b == a[t := b[t]]
    requires b[t].error == EOK && b[t].stat == Suspended
    ensures Side(b, InsertAt(q, i, t), pending + {t})
    ensures Woken(b, InsertAt(q, i, t), pending + {t}) == Woken(a, q, pending) - {t}
  {
    DistinctAfterInsert(q, i, t);
    InsertMembers(q, i, t);
    hide InsertAt;
  }

  /** A thread comes back from its call. */
  lemma LeaveSide(threads: map<Tid, Thread>, q: seq<Tid>, pending: set<Tid>, t: Tid)
    requires Side(threads, q, pending) && t !in q
    ensures Side(threads, q, pending - {t})
    ensures Woken(threads, q, pending - {t}) == Woken(threads, q, pending) - {t}
  {
  }

  // ----- blocking and waking in the kernel

  /** What may be left of a waiting time when the caller runs again; zero or less does not count down. */
  predicate Remaining(time: int, left: int) {
    if time > 0 then 0 <= left <= time else left == time
  }

  lemma SameThread(s: State, t: Tid)
    requires t in s.threads
    ensures Set(s, t, s.threads[t].(error := s.threads[t].error)) == s
  {
  }

  /** Block the current thread on list k. */
  function Await(s: State, k: nat, flag: Flag, time: int): State {
    var s1 := ListSuspend(SetError(s, s.current, EOK), k, s.current, flag);
    Schedule(if time > 0 then Arm(s1, s.current) else s1)
  }

  /** Wake the first thread of list k, if there is one. */
  function Notify(s: State, k: nat): State {
    if At(s, Wait(k)) == [] then s else Schedule(ListResume(s, k))
  }

  /** Threads and wait lists after waking the first thread of list k. */
  lemma NotifyFacts(s: State, k: nat)
    requires WF(s) && s.current != NO_THREAD
    ensures var s', q := Notify(s, k), At(s, Wait(k));
            && WF(s') && s'.current != NO_THREAD && s'.lock == s.lock
            && (q == [] ==> s' == s)
            && (q != [] ==> At(s', Wait(k)) == q[1..])
            && (forall j :: j != k ==> At(s', Wait(j)) == At(s, Wait(j)))
  {
    hide WF, Schedule, ListResume;
    if At(s, Wait(k)) != [] {
      ListResumeFacts(s, k);
      ScheduleFacts(ListResume(s, k));
    }
  }

  /** A side one of whose waiters is woken. */
  lemma NotifySide(s: State, k: nat, pending: set<Tid>, available: int)
    requires WF(s) && s.current != NO_THREAD
    requires Side(s.threads, At(s, Wait(k)), pending) && NoneLost(s.threads, At(s, Wait(k)), pending, available)
    ensures var s' := Notify(s, k);
            && Side(s'.threads, At(s', Wait(k)), pending)
            && NoneLost(s'.threads, At(s', Wait(k)), pending, available + 1)
  {
    hide WF, Schedule, ListResume, Side, Woken, Quiet;
    var q := At(s, Wait(k));
    if q != [] {
      ListResumeFacts(s, k);
      var s1 := ListResume(s, k);
      WakeSide(s.threads, s1.threads, q, pending);
      ScheduleFacts(s1);
      QuietSide(s1.threads, Schedule(s1).threads, q[1..], pending);
    }
  }

  /** The side that is not woken. */
  lemma NotifyOther(s: State, k: nat, j: nat, pending: set<Tid>)
    requires WF(s) && s.current != NO_THREAD && j != k
    requires Side(s.threads, At(s, Wait(j)), pending)
    requires At(s, Wait(k)) != [] ==> At(s, Wait(k))[0] !in pending
    ensures var s' := Notify(s, k);
            && Side(s'.threads, At(s', Wait(j)), pending)
            && Woken(s'.threads, At(s', Wait(j)), pending) == Woken(s.threads, At(s, Wait(j)), pending)
  {
    hide WF, Schedule, ListResume, Side, Woken, Quiet;
    var q := At(s, Wait(k));
    if q != [] {
      ListResumeFacts(s, k);
      var s1 := ListResume(s, k);
      OtherSide(s.threads, s1.threads, At(s, Wait(j)), pending, q[0]);
      ScheduleFacts(s1);
      QuietSide(s1.threads, Schedule(s1).threads, At(s, Wait(j)), pending);
    }
  }

  /** The current thread blocks: facts about the kernel. */
  lemma AwaitFacts(s: State, k: nat, flag: Flag, time: int)
    requires WF(s) && s.current in s.threads && s.threads[s.current].stat == Running
    ensures var t := s.current;
            var s1 := ListSuspend(SetError(s, t, EOK), k, t, flag);
            var s2 := if time > 0 then Arm(s1, t) else s1;
            && WF(s2) && s2.current == t && s2.lock == s.lock && t != NO_THREAD
            && t in s2.threads && s2.threads == s.threads[t := s2.threads[t]]
            && s2.threads[t].error == EOK && s2.threads[t].stat == Suspended
            && (exists i :: 0 <= i <= |At(s, Wait(k))| && At(s2, Wait(k)) == InsertAt(At(s, Wait(k)), i, t))
            && (forall j :: j != k ==> At(s2, Wait(j)) == At(s, Wait(j)))
            && (forall j :: t !in At(s, Wait(j)))
  {
    hide WF, ListSuspend, At, InsertAt;
    var t := s.current;
    NotNull(s, t);
    MarkFacts(s, t, s.threads[t].(error := EOK));
    var s0 := SetError(s, t, EOK);
    ListSuspendFacts(s0, k, t, flag);
    var s1 := ListSuspend(s0, k, t, flag);
    MarkFacts(s1, t, s1.threads[t].(timer := true));
    assert 0 <= Slot(s0, k, t, flag) <= |At(s, Wait(k))|;
  }

  /** A thread's error or timer changes. */
  lemma MarkFacts(s: State, t: Tid, th: Thread)
    requires WF(s) && t in s.threads && th == s.threads[t].(error := th.error, timer := th.timer)
    ensures WF(Set(s, t, th)) && forall id :: At(Set(s, t, th), id) == At(s, id)
  {
    hide WF;
    Known(s, t);
    UpdateWF(s, t, th);
  }

  lemma AwaitKeeps(s: State, k: nat, flag: Flag, time: int)
    requires WF(s) && s.current in s.threads && s.threads[s.current].stat == Running
    ensures WF(Await(s, k, flag, time)) && Await(s, k, flag, time).current != NO_THREAD
  {
    hide WF, ListSuspend, Schedule, Arm;
    AwaitFacts(s, k, flag, time);
    var s1 := ListSuspend(SetError(s, s.current, EOK), k, s.current, flag);
    ScheduleFacts(if time > 0 then Arm(s1, s.current) else s1);
  }

  /** The side the current thread joins; nothing must be available to it. */
  lemma AwaitSide(s: State, k: nat, flag: Flag, time: int, pending: set<Tid>)
    requires WF(s) && s.current in s.threads && s.threads[s.current].stat == Running
    requires Side(s.threads, At(s, Wait(k)), pending)
    ensures var s' := Await(s, k, flag, time);
            && Side(s'.threads, At(s', Wait(k)), pending + {s.current})
            && NoneLost(s'.threads, At(s', Wait(k)), pending + {s.current}, 0)
  {
    hide WF, ListSuspend, Schedule, Side, Woken, Quiet, Arm, InsertAt;
    var t, q := s.current, At(s, Wait(k));
    AwaitFacts(s, k, flag, time);
    var s1 := ListSuspend(SetError(s, t, EOK), k, t, flag);
    var s2 := if time > 0 then Arm(s1, t) else s1;
    var i :| 0 <= i <= |q| && At(s2, Wait(k)) == InsertAt(q, i, t);
    BlockSide(s.threads, s2.threads, q, i, pending, t);
    ScheduleFacts(s2);
    QuietSide(s2.threads, Schedule(s2).threads, InsertAt(q, i, t), pending + {t});
  }

  lemma AwaitOther(s: State, k: nat, j: nat, flag: Flag, time: int, pending: set<Tid>)
    requires WF(s) && s.current in s.threads && s.threads[s.current].stat == Running && j != k && s.current !in pending
    requires Side(s.threads, At(s, Wait(j)), pending)
    ensures var s' := Await(s, k, flag, time);
            && Side(s'.threads, At(s', Wait(j)), pending)
            && Woken(s'.threads, At(s', Wait(j)), pending) == Woken(s.threads, At(s, Wait(j)), pending)
            && At(s', Wait(j)) == At(s, Wait(j))
  {
    hide WF, ListSuspend, Schedule, Side, Woken, Quiet, Arm, InsertAt;
    var t := s.current;
    AwaitFacts(s, k, flag, time);
    var s1 := ListSuspend(SetError(s, t, EOK), k, t, flag);
    var s2 := if time > 0 then Arm(s1, t) else s1;
    OtherSide(s.threads, s2.threads, At(s, Wait(j)), pending, t);
    ScheduleFacts(s2);
    QuietSide(s2.threads, Schedule(s2).threads, At(s, Wait(j)), pending);
  }

  /** A timeout on either side. */
  lemma TimeoutSide(s: State, k: nat, pending: set<Tid>, t: Tid)
    requires WF(s) && s.current != NO_THREAD && t in s.threads && s.threads[t].stat == Suspended
    requires Side(s.threads, At(s, Wait(k)), pending)
    ensures var s' := Schedule(Expire(s, t));
            && WF(s') && s'.current != NO_THREAD
            && Side(s'.threads, At(s', Wait(k)), pending)
            && Woken(s'.threads, At(s', Wait(k)), pending) == Woken(s.threads, At(s, Wait(k)), pending)
            && (At(s, Wait(k)) == [] ==> At(s', Wait(k)) == [])
  {
    hide WF, Schedule, Expire, Side, Woken, Quiet;
    ExpireFacts(s, t);
    var s1 := Expire(s, t);
    ExpireSide(s.threads, s1.threads, At(s, Wait(k)), pending, t);
    ScheduleFacts(s1);
    QuietSide(s1.threads, Schedule(s1).threads, At(s1, Wait(k)), pending);
  }

  lemma ScheduleSide(s: State, k: nat, pending: set<Tid>)
    requires WF(s) && s.current != NO_THREAD && Side(s.threads, At(s, Wait(k)), pending)
    ensures var s' := Schedule(s);
            && WF(s') && s'.current != NO_THREAD && At(s', Wait(k)) == At(s, Wait(k))
            && Side(s'.threads, At(s', Wait(k)), pending)
            && Woken(s'.threads, At(s', Wait(k)), pending) == Woken(s.threads, At(s, Wait(k)), pending)
  {
    hide WF, Schedule, Side, Woken, Quiet;
    ScheduleFacts(s);
    QuietSide(s.threads, Schedule(s).threads, At(s, Wait(k)), pending);
  }

  // ----- two sides that wake each other

  /** The threads of both sides are different, and neither side has lost a wakeup: `a` items are available to the
      callers on list k, `b` to those on list j. */
  ghost predicate Pair(s: State, k: nat, mine: set<Tid>, a: int, j: nat, theirs: set<Tid>, b: int) {
    && Side(s.threads, At(s, Wait(k)), mine) && Side(s.threads, At(s, Wait(j)), theirs) && mine !! theirs
    && NoneLost(s.threads, At(s, Wait(k)), mine, a) && NoneLost(s.threads, At(s, Wait(j)), theirs, b)
  }

  /** Runs, and can be found on neither side's list. */
  predicate Runs(s: State) {
    s.current in s.threads && s.threads[s.current].stat == Running
  }

  lemma PairTurns(s: State, k: nat, mine: set<Tid>, a: int, j: nat, theirs: set<Tid>, b: int)
    ensures Pair(s, k, mine, a, j, theirs, b) <==> Pair(s, j, theirs, b, k, mine, a)
  {
  }

  /** The current thread finds nothing available and waits. */
  lemma PairWaits(s: State, k: nat, mine: set<Tid>, j: nat, theirs: set<Tid>, b: int, flag: Flag, time: int)
    requires WF(s) && Runs(s) && k != j && s.current !in theirs && Pair(s, k, mine, 0, j, theirs, b)
    ensures var s' := Await(s, k, flag, time);
            WF(s') && s'.current != NO_THREAD && Pair(s', k, mine + {s.current}, 0, j, theirs, b)
  {
    hide WF, Await, Side, Woken;
    AwaitKeeps(s, k, flag, time);
    AwaitSide(s, k, flag, time, mine);
    AwaitOther(s, k, j, flag, time, theirs);
  }

  /** The current thread uses one available item, gives one to the other side and wakes a thread there. */
  lemma PairMoves(s: State, k: nat, mine: set<Tid>, a: int, j: nat, theirs: set<Tid>, b: int)
    requires WF(s) && Runs(s) && k != j && s.current !in theirs && Pair(s, k, mine, a, j, theirs, b)
    requires s.current in mine ==> s.threads[s.current].error == EOK
    ensures var s' := Notify(s, j);
            WF(s') && s'.current != NO_THREAD && Pair(s', k, mine - {s.current}, a - 1, j, theirs, b + 1)
  {
    hide WF, Notify;
    var t := s.current;
    NotNull(s, t);
    NotWaiting(s, t, k);
    LeaveSide(s.threads, At(s, Wait(k)), mine, t);
    LeaveCount(Woken(s.threads, At(s, Wait(k)), mine), t);
    NotifyFacts(s, j);
    NotifySide(s, j, theirs, b);
    if At(s, Wait(j)) != [] {
      var h := At(s, Wait(j))[0];
      assert h in At(s, Wait(j));
    }
    NotifyOther(s, j, k, mine - {t});
  }

  /** An interrupt handler uses one item of one side, gives one to the other side and wakes a thread there. */
  lemma PairPosts(s: State, k: nat, mine: set<Tid>, a: int, j: nat, theirs: set<Tid>, b: int)
    requires WF(s) && s.current != NO_THREAD && k != j && Pair(s, k, mine, a, j, theirs, b)
    ensures var s' := Notify(s, j);
            WF(s') && s'.current != NO_THREAD && Pair(s', k, mine, a - 1, j, theirs, b + 1)
  {
    hide WF, Notify;
    NotifyFacts(s, j);
    NotifySide(s, j, theirs, b);
    if At(s, Wait(j)) != [] {
      var h := At(s, Wait(j))[0];
      assert h in At(s, Wait(j));
    }
    NotifyOther(s, j, k, mine);
  }

  lemma LeaveCount(w: set<Tid>, t: Tid)
    ensures |w - {t}| >= |w| - 1
  {
    if t in w { assert w == (w - {t}) + {t}; } else { assert w - {t} == w; }
  }

  /** A call that ends without an item. */
  lemma PairLeaves(s: State, k: nat, mine: set<Tid>, a: int, j: nat, theirs: set<Tid>, b: int, e: Error)
    requires WF(s) && Runs(s) && k != j && s.current !in theirs && Pair(s, k, mine, a, j, theirs, b)
    requires a == 0 || s.threads[s.current].error != EOK || s.current !in mine
    requires e == s.threads[s.current].error || a == 0 || s.current !in mine
    ensures var s' := Set(s, s.current, s.threads[s.current].(error := e));
            WF(s') && s'.current != NO_THREAD && Pair(s', k, mine - {s.current}, a, j, theirs, b)
  {
    hide WF;
    var t := s.current;
    NotNull(s, t);
    NotWaiting(s, t, k);
    LeaveSide(s.threads, At(s, Wait(k)), mine, t);
    MarkFacts(s, t, s.threads[t].(error := e));
    var s' := Set(s, t, s.threads[t].(error := e));
    OtherSide(s.threads, s'.threads, At(s, Wait(k)), mine - {t}, t);
    OtherSide(s.threads, s'.threads, At(s, Wait(j)), theirs, t);
  }

  lemma PairTimeout(s: State, k: nat, mine: set<Tid>, a: int, j: nat, theirs: set<Tid>, b: int, t: Tid)
    requires WF(s) && s.current != NO_THREAD && t in s.threads && s.threads[t].stat == Suspended
    requires Pair(s, k, mine, a, j, theirs, b)
    ensures var s' := Schedule(Expire(s, t));
            WF(s') && s'.current != NO_THREAD && Pair(s', k, mine, a, j, theirs, b)
  {
    hide WF, Schedule, Expire, Side, Woken;
    TimeoutSide(s, k, mine, t);
    TimeoutSide(s, j, theirs, t);
  }

  lemma PairSchedules(s: State, k: nat, mine: set<Tid>, a: int, j: nat, theirs: set<Tid>, b: int)
    requires WF(s) && s.current != NO_THREAD && Pair(s, k, mine, a, j, theirs, b)
    ensures WF(Schedule(s)) && Schedule(s).current != NO_THREAD && Pair(Schedule(s), k, mine, a, j, theirs, b)
  {
    hide WF, Schedule, Side, Woken;
    ScheduleSide(s, k, mine);
    ScheduleSide(s, j, theirs);
  }

  // ----- one side alone

  ghost predicate Solo(s: State, k: nat, pending: set<Tid>, available: int) {
    Side(s.threads, At(s, Wait(k)), pending) && NoneLost(s.threads, At(s, Wait(k)), pending, available)
  }

  lemma SoloWaits(s: State, k: nat, flag: Flag, time: int, pending: set<Tid>)
    requires WF(s) && Runs(s) && Solo(s, k, pending, 0)
    ensures var s' := Await(s, k, flag, time);
            WF(s') && s'.current != NO_THREAD && Solo(s', k, pending + {s.current}, 0)
  {
    hide WF, Await, Side, Woken;
    AwaitKeeps(s, k, flag, time);
    AwaitSide(s, k, flag, time, pending);
  }

  lemma SoloPosts(s: State, k: nat, pending: set<Tid>, available: int)
    requires WF(s) && s.current != NO_THREAD && Solo(s, k, pending, available)
    ensures var s' := Notify(s, k);
            WF(s') && s'.current != NO_THREAD && Solo(s', k, pending, available + 1)
  {
    hide WF, Notify, Side, Woken;
    NotifyFacts(s, k);
    NotifySide(s, k, pending, available);
  }

  /** The current thread uses one item. */
  lemma SoloTakes(s: State, k: nat, pending: set<Tid>, available: int)
    requires WF(s) && Runs(s) && Solo(s, k, pending, available)
    ensures Solo(s, k, pending - {s.current}, available - 1)
  {
    hide WF;
    NotWaiting(s, s.current, k);
    LeaveSide(s.threads, At(s, Wait(k)), pending, s.current);
    LeaveCount(Woken(s.threads, At(s, Wait(k)), pending), s.current);
  }

  lemma SoloLeaves(s: State, k: nat, pending: set<Tid>, available: int, e: Error)
    requires WF(s) && Runs(s) && Solo(s, k, pending, available)
    requires available == 0 || s.threads[s.current].error != EOK
    ensures var s' := Set(s, s.current, s.threads[s.current].(error := e));
            WF(s') && s'.current != NO_THREAD && Solo(s', k, pending - {s.current}, available)
  {
    hide WF;
    var t := s.current;
    NotNull(s, t);
    NotWaiting(s, t, k);
    LeaveSide(s.threads, At(s, Wait(k)), pending, t);
    MarkFacts(s, t, s.threads[t].(error := e));
    OtherSide(s.threads, Set(s, t, s.threads[t].(error := e)).threads, At(s, Wait(k)), pending - {t}, t);
  }

  lemma SoloTimeout(s: State, k: nat, pending: set<Tid>, available: int, t: Tid)
    requires WF(s) && s.current != NO_THREAD && t in s.threads && s.threads[t].stat == Suspended && Solo(s, k, pending, available)
    ensures var s' := Schedule(Expire(s, t));
            WF(s') && s'.current != NO_THREAD && Solo(s', k, pending, available)
  {
    hide WF, Schedule, Expire, Side, Woken;
    TimeoutSide(s, k, pending, t);
  }

  lemma SoloSchedules(s: State, k: nat, pending: set<Tid>, available: int)
    requires WF(s) && s.current != NO_THREAD && Solo(s, k, pending, available)
    ensures WF(Schedule(s)) && Schedule(s).current != NO_THREAD && Solo(Schedule(s), k, pending, available)
  {
    hide WF, Schedule, Side, Woken;
    ScheduleSide(s, k, pending);
  }

  /** One round of rt_ipc_list_resume_all. */
  lemma FailFirst(s: State, k: nat, pending: set<Tid>)
    requires WF(s) && s.current != NO_THREAD && Side(s.threads, At(s, Wait(k)), pending) && At(s, Wait(k)) != []
    ensures var t := At(s, Wait(k))[0];
            var s' := Resume(SetError(s, t, ERROR), t);
            && WF(s') && s'.current != NO_THREAD && Side(s'.threads, At(s', Wait(k)), pending)
            && At(s', Wait(k)) == At(s, Wait(k))[1..]
            && t in s.threads && t in s'.threads && Awake(s'.threads[t].stat)
            && s'.threads == s.threads[t := s.threads[t].(stat := s'.threads[t].stat, error := ERROR, timer := false)]
            && t !in At(s, Wait(k))[1..]
  {
    hide WF, Resume, Woken;
    var q := At(s, Wait(k));
    var t := q[0];
    assert t in q;
    MarkFacts(s, t, s.threads[t].(error := ERROR));
    var s1 := SetError(s, t, ERROR);
    ResumeFacts(s1, t);
    WithoutFirst(q);
    RestDistinct(q);
    ExpireSide(s.threads, Resume(s1, t).threads, q, pending, t);
  }

  /** Every thread of q is awake with an error; nothing else has changed. */
  ghost predicate Failed(a: map<Tid, Thread>, b: map<Tid, Thread>, q: seq<Tid>) {
    && a.Keys == b.Keys
    && (forall t :: t in a && t !in q ==> b[t] == a[t])
    && (forall t :: t in q ==> t in a && Awake(b[t].stat) && b[t] == a[t].(stat := b[t].stat, error := ERROR, timer := false))
  }

  /** rt_ipc_list_resume_all empties the list; every thread on it comes back with an error. */
  lemma {:induction false} FailAll(s: State, k: nat, pending: set<Tid>)
    requires WF(s) && s.current != NO_THREAD && Side(s.threads, At(s, Wait(k)), pending)
    ensures var s' := ResumeAll(s, k);
            && WF(s') && s'.current != NO_THREAD && At(s', Wait(k)) == [] && Side(s'.threads, [], pending)
            && Failed(s.threads, s'.threads, At(s, Wait(k)))
    decreases |At(s, Wait(k))|
  {
    if At(s, Wait(k)) != [] {
      hide WF, Resume, Side, Failed;
      FailFirst(s, k, pending);
      var q := At(s, Wait(k));
      var s1 := Resume(SetError(s, q[0], ERROR), q[0]);
      FailAll(s1, k, pending);
      FailedMore(s.threads, s1.threads, ResumeAll(s1, k).threads, q);
    }
  }

  lemma FailedMore(a: map<Tid, Thread>, b: map<Tid, Thread>, c: map<Tid, Thread>, q: seq<Tid>)
    requires q != [] && q[0] in a && q[0] in b && Awake(b[q[0]].stat) && q[0] !in q[1..]
    requires b == a[q[0] := a[q[0]].(stat := b[q[0]].stat, error := ERROR, timer := false)]
    requires Failed(b, c, q[1..])
    ensures Failed(a, c, q)
  {
    assert forall t :: t in q <==> t == q[0] || t in q[1..];
  }
}
