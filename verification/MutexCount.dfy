/** The mutex counts: against a reference that knows only who has taken it and how often, and what each call answers. */
module MutexCount {
  import opened Rings
  import opened Sched
  import opened SchedLaws
  import opened WaitQueue
  import opened Wakeups
  import opened Waiting
  import opened MutexSpec
  import opened MutexLaws

  /** Who has taken the mutex, and how many takes have not been released. */
  datatype Held = Nobody | By(t: Tid, depth: nat)

  /** One call of the running thread: a take counts when nobody else holds the mutex; a release by the holder counts
      down, and the last one passes the mutex on to the first waiter. */
  function After(h: Held, x: Sys, k: nat, op: Op): Held {
    var t := x.s.current;
    if !Free(x) then h
    else
      match op
      case Lock(_) =>
        if h == Nobody then By(t, 1) else if h.t == t then By(t, h.depth + 1) else h
      case Unlock =>
        if h == Nobody || h.t != t then h
        else if h.depth > 1 then By(t, h.depth - 1)
        else if At(x.s, Wait(k)) == [] then Nobody
        else By(At(x.s, Wait(k))[0], 1)
      case _ => h
  }

  function AfterAll(h: Held, x: Sys, k: nat, flag: Flag, ops: seq<Op>): Held
    decreases |ops|
  {
    if ops == [] then h else AfterAll(After(h, x, k, ops[0]), Step(x, k, flag, ops[0]), k, flag, ops[1..])
  }

  predicate Agrees(m: Mutex, h: Held) {
    match h
    case Nobody => m.owner == NO_THREAD && m.hold == 0
    case By(t, depth) => m.owner == t && t != NO_THREAD && m.hold == depth > 0
  }

  lemma StepAgrees(x: Sys, k: nat, flag: Flag, base: map<Tid, nat>, op: Op, h: Held)
    requires Inv(x, k, flag, base) && Agrees(x.m, h)
    ensures Agrees(Step(x, k, flag, op).m, After(h, x, k, op))
  {
    hide WF, Schedule, Lent, Settled, Sorted, ListSuspend, ListResume, Boost, Restore, Startup, Expire;
    if op.Unlock? && Free(x) && x.s.current == x.m.owner && x.m.hold <= 1 {
      RestoreWaits(x, k, flag, base);
      FirstKnown(x.s, k);
    }
  }

  lemma RestoreWaits(x: Sys, k: nat, flag: Flag, base: map<Tid, nat>)
    requires Inv(x, k, flag, base) && Free(x) && x.s.current == x.m.owner
    ensures At(Restore(x.s, x.s.current, x.m.original), Wait(k)) == At(x.s, Wait(k))
  {
    hide WF, ChangePriority, Settled, Sorted;
    if x.m.original != T(x.s, x.s.current).prio { ChangePriorityFacts(x.s, x.s.current, x.m.original); }
  }

  lemma FirstKnown(s: State, k: nat)
    requires WF(s)
    ensures At(s, Wait(k)) != [] ==> At(s, Wait(k))[0] != NO_THREAD
  {
    if At(s, Wait(k)) != [] {
      var t := At(s, Wait(k))[0];
      assert t in At(s, Wait(k));
    }
  }

  lemma {:induction false} RunAgrees(x: Sys, k: nat, flag: Flag, base: map<Tid, nat>, ops: seq<Op>, h: Held)
    requires Inv(x, k, flag, base) && Agrees(x.m, h)
    ensures Agrees(Steps(x, k, flag, ops).m, AfterAll(h, x, k, flag, ops))
    decreases |ops|
  {
    if ops != [] {
      hide Inv, Step, After, Agrees;
      StepAgrees(x, k, flag, base, ops[0], h);
      StepInv(x, k, flag, base, ops[0]);
      RunAgrees(Step(x, k, flag, ops[0]), k, flag, base, ops[1..], After(h, x, k, ops[0]));
    }
  }

  /** In every run, with either flag, owner and hold are those of the reference. */
  lemma CountsTakes(x: Sys, k: nat, flag: Flag, base: map<Tid, nat>, ops: seq<Op>)
    requires Fresh(x, k, base)
    ensures Agrees(Steps(x, k, flag, ops).m, AfterAll(Nobody, x, k, flag, ops))
  {
    FreshInv(x, k, flag, base);
    RunAgrees(x, k, flag, base, ops, Nobody);
  }

  // ----- nested takes

  /** Takes minus releases of thread t in a run. */
  function Net(x: Sys, k: nat, flag: Flag, ops: seq<Op>, t: Tid): int
    decreases |ops|
  {
    if ops == [] then 0
    else
      (if x.s.current != t || !Free(x) then 0 else if ops[0].Lock? then 1 else if ops[0].Unlock? then -1 else 0)
      + Net(Step(x, k, flag, ops[0]), k, flag, ops[1..], t)
  }

  /** At no point of the run has thread t released the mutex as often as it had taken it. */
  predicate NeverLast(x: Sys, k: nat, flag: Flag, ops: seq<Op>, t: Tid, depth: int)
    decreases |ops|
  {
    depth > 0 && (ops == [] || NeverLast(Step(x, k, flag, ops[0]), k, flag, ops[1..], t, depth + Net(x, k, flag, ops[..1], t)))
  }

  lemma NetOne(x: Sys, k: nat, flag: Flag, ops: seq<Op>, t: Tid)
    requires ops != []
    ensures Net(x, k, flag, ops, t) == Net(x, k, flag, ops[..1], t) + Net(Step(x, k, flag, ops[0]), k, flag, ops[1..], t)
  {
    hide Step, Free;
    assert ops[..1][0] == ops[0] && ops[..1][1..] == [];
  }

  /** A thread that has taken the mutex n times keeps it, whatever the other threads do, until its n-th release; and
      the count of its takes is right. */
  lemma {:induction false} KeepsUntilLast(x: Sys, k: nat, flag: Flag, base: map<Tid, nat>, ops: seq<Op>, t: Tid, n: nat)
    requires Inv(x, k, flag, base) && Agrees(x.m, By(t, n)) && NeverLast(x, k, flag, ops, t, n)
    ensures n + Net(x, k, flag, ops, t) > 0
    ensures Agrees(Steps(x, k, flag, ops).m, By(t, n + Net(x, k, flag, ops, t)))
    decreases |ops|
  {
    hide Inv, Step, After, Agrees, Free;
    if ops != [] {
      NetOne(x, k, flag, ops, t);
      assert ops[..1] == [ops[0]];
      hide Net;
      OneStep(x, k, flag, ops[0], t, n);
      StepAgrees(x, k, flag, base, ops[0], By(t, n));
      StepInv(x, k, flag, base, ops[0]);
      KeepsUntilLast(Step(x, k, flag, ops[0]), k, flag, base, ops[1..], t, n + Net(x, k, flag, ops[..1], t));
    }
  }

  lemma OneStep(x: Sys, k: nat, flag: Flag, op: Op, t: Tid, n: nat)
    requires n + Net(x, k, flag, [op], t) > 0
    ensures After(By(t, n), x, k, op) == By(t, n + Net(x, k, flag, [op], t))
  {
    hide Step;
    assert [op][1..] == [];
  }

  // ----- what the calls answer

  function Min(a: nat, b: nat): nat {
    if a < b then a else b
  }

  /** A take by the running thread: it is granted when nobody else holds the mutex, gives up when it may not wait, and
      else waits, its error cleared and its timer set exactly for a positive time; the holder then runs with the more
      urgent of the two priorities. Nothing else changes. */
  lemma LockAnswers(x: Sys, k: nat, flag: Flag, base: map<Tid, nat>, time: int)
    requires Inv(x, k, flag, base) && Free(x)
    ensures var (t, o, y) := (x.s.current, x.m.owner, Step(x, k, flag, Lock(time)));
            var outcome := Take(x.s, x.m, k, flag, time).2;
            && (outcome == Granted <==> o == t || o == NO_THREAD)
            && (outcome == TimedOut <==> o != t && o != NO_THREAD && time == 0)
            && (outcome != Blocked ==>
                  y.s == Set(x.s, t, x.s.threads[t].(error := if outcome == Granted then EOK else ETIMEOUT)) && y.pending == x.pending)
            && (outcome == Blocked ==>
                  && y.pending == x.pending + {t} && y.m == x.m
                  && (exists i :: 0 <= i <= |At(x.s, Wait(k))| && At(y.s, Wait(k)) == InsertAt(At(x.s, Wait(k)), i, t))
                  && Else(x.s.threads, y.s.threads, t, o)
                  && t in y.s.threads && y.s.threads[t] == x.s.threads[t].(stat := Suspended, error := EOK, timer := time > 0)
                  && o in x.s.threads && o in y.s.threads && y.s.threads[o].prio == Min(x.s.threads[o].prio, x.s.threads[t].prio))
  {
    hide Core, WF, ListSuspend, Schedule, Boost, Arm, InsertAt, Quiet;
    OwnerThere(x, k, flag, base);
    var t, o := x.s.current, x.m.owner;
    if o != t && x.m.value == 0 && time != 0 {
      BlockedBy(x.s, o, k, flag, time);
      var s2 := ListSuspend(Boost(SetError(x.s, t, EOK), o, T(SetError(x.s, t, EOK), t).prio), k, t, flag);
      var s3 := if time > 0 then Arm(s2, t) else s2;
      ScheduleFacts(s3);
      QuietElse(x.s.threads, s3.threads, Schedule(s3).threads, t, o);
    }
  }

  lemma OwnerThere(x: Sys, k: nat, flag: Flag, base: map<Tid, nat>)
    requires Inv(x, k, flag, base)
    ensures x.m.owner == NO_THREAD <==> x.m.value > 0
    ensures x.m.owner != NO_THREAD ==> x.m.owner in x.s.threads && x.s.threads[x.m.owner].prio < PRIORITY_MAX
    ensures forall t :: t in x.s.threads ==> x.s.threads[t].prio < PRIORITY_MAX
  {
    hide Settled, Sorted, Linked, Queued, Grouped, OneRuns;
  }

  lemma BlockedBy(s: State, o: Tid, k: nat, flag: Flag, time: int)
    requires WF(s) && s.current in s.threads && s.threads[s.current].stat == Running && o in s.threads && o != s.current
    requires forall t :: t in s.threads ==> s.threads[t].prio < PRIORITY_MAX
    ensures var t := s.current;
            var s0 := SetError(s, t, EOK);
            var s2 := ListSuspend(Boost(s0, o, T(s0, t).prio), k, t, flag);
            var s3 := if time > 0 then Arm(s2, t) else s2;
            && WF(s3) && s3.current != NO_THREAD
            && (exists i :: 0 <= i <= |At(s, Wait(k))| && At(s3, Wait(k)) == InsertAt(At(s, Wait(k)), i, t))
            && s3.threads.Keys == s.threads.Keys && (forall u :: u in s.threads && u != t && u != o ==> s3.threads[u] == s.threads[u])
            && s3.threads[t] == s.threads[t].(stat := Suspended, error := EOK, timer := time > 0)
            && s3.threads[o].prio == Min(s.threads[o].prio, s.threads[t].prio)
  {
    hide WF, ChangePriority, ListSuspend, InsertAt, Place;
    var t := s.current;
    NotNull(s, t);
    MarkFacts(s, t, s.threads[t].(error := EOK));
    var s0 := SetError(s, t, EOK);
    var p := s.threads[t].prio;
    ChangePriorityFacts(s0, o, p);
    var s1 := Boost(s0, o, p);
    assert s1.threads.Keys == s.threads.Keys;
    ListSuspendFacts(s1, k, t, flag);
    var s2 := ListSuspend(s1, k, t, flag);
    assert At(s2, Wait(k)) == InsertAt(At(s, Wait(k)), Slot(s1, k, t, flag), t);
    MarkFacts(s2, t, s2.threads[t].(timer := true));
  }

  /** A release by the running thread: refused with an error unless it holds the mutex; one of several takes only counts
      down; the last one gives the holder its own priority back and passes the mutex to the first waiter, which alone
      is woken. */
  lemma UnlockAnswers(x: Sys, k: nat, flag: Flag, base: map<Tid, nat>)
    requires Inv(x, k, flag, base) && Free(x)
    ensures var (t, q, y) := (x.s.current, At(x.s, Wait(k)), Step(x, k, flag, Unlock));
            && y.pending == x.pending
            && (x.m.owner != t ==> y.m == x.m && y.s == Set(x.s, t, x.s.threads[t].(error := ERROR)))
            && (x.m.owner == t && x.m.hold > 1 ==> y.s == x.s && y.m == x.m.(hold := x.m.hold - 1))
            && (x.m.owner == t && x.m.hold == 1 ==>
                  && At(y.s, Wait(k)) == (if q == [] then q else q[1..])
                  && t in base && t in y.s.threads && y.s.threads[t].prio == base[t]
                  && Else(x.s.threads, y.s.threads, t, Head(x.s, Wait(k)))
                  && (q != [] ==> q[0] in x.s.threads && q[0] in y.s.threads && Awake(y.s.threads[q[0]].stat) && !y.s.threads[q[0]].timer
                                  && y.s.threads[q[0]].prio == x.s.threads[q[0]].prio && y.s.threads[q[0]].error == x.s.threads[q[0]].error))
  {
    hide Core, WF, ListResume, Schedule, Restore, Quiet, Inherits;
    var t, q := x.s.current, At(x.s, Wait(k));
    OwnerThere(x, k, flag, base);
    if x.m.owner == t && x.m.hold == 1 {
      NotNull(x.s, t);
      RestoreInv(x, k, flag, base);
      var s1 := Restore(x.s, t, x.m.original);
      if q != [] {
        WaitsApart(x.s, t, k);
        ListResumeFacts(s1, k);
        var s2 := ListResume(s1, k);
        ScheduleFacts(s2);
        QuietElse(x.s.threads, s2.threads, Schedule(s2).threads, t, q[0]);
        QuietWoken(s2.threads, Schedule(s2).threads, q[0]);
        RestoredRuns(x, k, flag, base);
        QuietWoken(s2.threads, Schedule(s2).threads, t);
      }
    }
  }

  lemma RestoredRuns(x: Sys, k: nat, flag: Flag, base: map<Tid, nat>)
    requires Inv(x, k, flag, base) && Free(x) && x.m.owner == x.s.current
    ensures var s1 := Restore(x.s, x.s.current, x.m.original); x.s.current in s1.threads && s1.threads[x.s.current].stat == Running
  {
    hide WF, ChangePriority, Settled, Sorted;
    if x.m.original != T(x.s, x.s.current).prio { ChangePriorityFacts(x.s, x.s.current, x.m.original); }
  }

  lemma WaitsApart(s: State, t: Tid, k: nat)
    requires WF(s) && t in s.threads && s.threads[t].stat == Running && At(s, Wait(k)) != []
    ensures At(s, Wait(k))[0] != t && At(s, Wait(k))[0] in s.threads
  {
    var u := At(s, Wait(k))[0];
    assert u in At(s, Wait(k));
  }

  /** A thread switched back to inside its take ends it, and a timeout wakes its thread with the error; the mutex does not
      change, and no priority does. */
  lemma OtherAnswers(x: Sys, k: nat, flag: Flag, base: map<Tid, nat>, op: Op)
    requires Inv(x, k, flag, base) && !op.Lock? && !op.Unlock?
    ensures var y := Step(x, k, flag, op);
            && y.m == x.m
            && (op.Return? ==> y.s == x.s && y.pending == if Runs(x.s) then x.pending - {x.s.current} else x.pending)
            && (op.Timeout? ==> y.pending == x.pending && if MayExpire(x.s, op.t) then Waiting.TimedOut(x.s, y.s, op.t) else y.s == x.s)
  {
    hide WF, Core, Schedule, Expire, Startup, Suspend, Waiting.TimedOut;
    if op.Timeout? && MayExpire(x.s, op.t) { ExpireTimesOut(x.s, op.t); }
  }
}
