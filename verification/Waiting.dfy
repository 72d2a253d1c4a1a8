/** What blocking and waking mean for the whole system: one thread is described, and nothing else changes but who
    runs. */
module Waiting {
  import opened Rings
  import opened Sched
  import opened SchedLaws
  import opened WaitQueue
  import opened Wakeups

  /** Nothing about the threads has changed but who runs, and what is said about a and b. */
  ghost predicate Else(before: map<Tid, Thread>, after: map<Tid, Thread>, a: Tid, b: Tid) {
    && before.Keys == after.Keys
    && forall t :: t in before && t != a && t != b ==>
         after[t] == before[t] || (Awake(before[t].stat) && Awake(after[t].stat) && after[t] == before[t].(stat := after[t].stat))
  }

  /** Where a thread of priority p joins a wait list: at the end, or in front of the first that is less urgent. */
  ghost predicate Joins(threads: map<Tid, Thread>, q: seq<Tid>, p: nat, flag: Flag, i: nat) {
    && i <= |q|
    && (flag == FIFO ==> i == |q|)
    && (flag == PRIO ==> forall j :: 0 <= j < i && q[j] in threads ==> threads[q[j]].prio <= p)
    && (flag == PRIO && i < |q| ==> q[i] in threads && p < threads[q[i]].prio)
  }

  /** The running thread waits on list k at place i: its error cleared, its timer set exactly for a positive time. */
  ghost predicate WaitsAt(s: State, s': State, k: nat, i: nat, time: int) {
    var t := s.current;
    && t in s.threads && t in s'.threads && i <= |At(s, Wait(k))|
    && s'.threads[t] == s.threads[t].(stat := Suspended, error := EOK, timer := time > 0)
    && At(s', Wait(k)) == InsertAt(At(s, Wait(k)), i, t)
    && (forall j :: j != k ==> At(s', Wait(j)) == At(s, Wait(j)))
    && Else(s.threads, s'.threads, t, t)
  }

  /** It waits where the order of the list puts it. */
  ghost predicate WaitsOn(s: State, s': State, k: nat, flag: Flag, time: int) {
    exists i: nat :: WaitsAt(s, s', k, i, time) && Joins(s.threads, At(s, Wait(k)), s.threads[s.current].prio, flag, i)
  }

  /** The first thread of list k, if there is one, is woken with its error as it was and its timer stopped. */
  ghost predicate FirstWoken(s: State, s': State, k: nat) {
    var q := At(s, Wait(k));
    && (q == [] ==> s' == s)
    && (forall j :: j != k ==> At(s', Wait(j)) == At(s, Wait(j)))
    && (q != [] ==>
          && At(s', Wait(k)) == q[1..] && q[0] in s.threads && q[0] in s'.threads && Awake(s'.threads[q[0]].stat)
          && s'.threads[q[0]] == s.threads[q[0]].(stat := s'.threads[q[0]].stat, timer := false)
          && Else(s.threads, s'.threads, q[0], q[0]))
  }

  /** The limit of a waiting thread has passed: it leaves every list and is awake with the timeout error. */
  ghost predicate TimedOut(s: State, s': State, t: Tid) {
    && t in s.threads && t in s'.threads && Awake(s'.threads[t].stat)
    && s'.threads[t] == s.threads[t].(stat := s'.threads[t].stat, error := ETIMEOUT, timer := false)
    && (forall k :: At(s', Wait(k)) == Without(At(s, Wait(k)), t))
    && Else(s.threads, s'.threads, t, t)
  }

  predicate MayExpire(s: State, t: Tid) {
    t in s.threads && s.threads[t].stat == Suspended && s.threads[t].timer
  }

  lemma QuietElse(a: map<Tid, Thread>, b: map<Tid, Thread>, c: map<Tid, Thread>, t: Tid, o: Tid)
    requires a.Keys == b.Keys && (forall u :: u in a && u != t && u != o ==> b[u] == a[u]) && Quiet(b, c)
    ensures Else(a, c, t, o)
    ensures t in a && b[t].stat == Suspended ==> t in c && c[t] == b[t]
    ensures o in a ==> o in c && c[o].prio == b[o].prio
  {
    assert forall u :: u in a <==> u in c by {
      forall u ensures u in a <==> u in c {
        assert u in a.Keys <==> u in b.Keys;
        assert u in b.Keys <==> u in c.Keys;
      }
    }
  }

  lemma QuietWoken(a: map<Tid, Thread>, b: map<Tid, Thread>, t: Tid)
    requires Quiet(a, b) && t in a && Awake(a[t].stat)
    ensures t in b && Awake(b[t].stat) && b[t] == a[t].(stat := b[t].stat)
  {
    assert t in a.Keys;
    assert t in b.Keys;
  }

  lemma {:induction false} PlaceIs(threads: map<Tid, Thread>, q: seq<Tid>, p: nat)
    ensures Joins(threads, q, p, PRIO, Place(threads, q, p))
  {
    if q != [] && !(q[0] in threads && p < threads[q[0]].prio) {
      PlaceIs(threads, q[1..], p);
      var i := Place(threads, q[1..], p);
      forall j | 0 <= j < 1 + i && q[j] in threads ensures threads[q[j]].prio <= p { if j > 0 { assert q[j] == q[1..][j - 1]; } }
    }
  }

  lemma SlotJoins(s: State, s0: State, k: nat, t: Tid, flag: Flag)
    requires t in s.threads && t in s0.threads && s0.threads[t].prio == s.threads[t].prio && At(s0, Wait(k)) == At(s, Wait(k))
    requires forall u :: u in s.threads <==> u in s0.threads
    requires forall u :: u in s.threads ==> s0.threads[u].prio == s.threads[u].prio
    ensures Joins(s.threads, At(s, Wait(k)), s.threads[t].prio, flag, Slot(s0, k, t, flag))
  {
    var q, p := At(s, Wait(k)), s.threads[t].prio;
    PlaceIs(s0.threads, q, p);
    var i := Place(s0.threads, q, p);
    forall j | 0 <= j < |q|
      ensures q[j] in s.threads <==> q[j] in s0.threads
      ensures q[j] in s.threads ==> s0.threads[q[j]].prio == s.threads[q[j]].prio
    {
      var u := q[j];
      assert u in s.threads <==> u in s0.threads;
    }
    hide Place;
    if flag == PRIO { assert Slot(s0, k, t, flag) == i; }
  }

  lemma AwaitWaits(s: State, k: nat, flag: Flag, time: int)
    requires WF(s) && Runs(s)
    ensures WaitsOn(s, Await(s, k, flag, time), k, flag, time)
  {
    hide WF, ListSuspend, Schedule, InsertAt, Joins, Quiet, Slot;
    var t := s.current;
    NotNull(s, t);
    MarkFacts(s, t, s.threads[t].(error := EOK));
    var s0 := SetError(s, t, EOK);
    SlotJoins(s, s0, k, t, flag);
    ListSuspendFacts(s0, k, t, flag);
    var s1 := ListSuspend(s0, k, t, flag);
    MarkFacts(s1, t, s1.threads[t].(timer := true));
    var s2 := if time > 0 then Arm(s1, t) else s1;
    Armed(s1, t, time, s2);
    ScheduleFacts(s2);
    QuietElse(s.threads, s2.threads, Schedule(s2).threads, t, t);
    assert WaitsAt(s, Schedule(s2), k, Slot(s0, k, t, flag), time);
  }

  lemma Armed(s1: State, t: Tid, time: int, s2: State)
    requires t in s1.threads && !s1.threads[t].timer && s2 == if time > 0 then Arm(s1, t) else s1
    ensures s2.threads == s1.threads[t := s1.threads[t].(timer := time > 0)] && s2.current == s1.current
    ensures forall id :: At(s2, id) == At(s1, id)
  {
  }

  lemma NotifyWakes(s: State, k: nat)
    requires WF(s) && s.current != NO_THREAD
    ensures FirstWoken(s, Notify(s, k), k)
  {
    hide WF, ListResume, Schedule, Quiet;
    if At(s, Wait(k)) != [] {
      ListResumeFacts(s, k);
      var s1, h := ListResume(s, k), At(s, Wait(k))[0];
      ScheduleFacts(s1);
      QuietElse(s.threads, s1.threads, Schedule(s1).threads, h, h);
      QuietWoken(s1.threads, Schedule(s1).threads, h);
    }
  }

  lemma ExpireTimesOut(s: State, t: Tid)
    requires WF(s) && s.current != NO_THREAD && MayExpire(s, t)
    ensures TimedOut(s, Schedule(Expire(s, t)), t)
  {
    hide WF, Expire, Schedule, Quiet, Without;
    ExpireFacts(s, t);
    var s1 := Expire(s, t);
    ScheduleFacts(s1);
    QuietElse(s.threads, s1.threads, Schedule(s1).threads, t, t);
    QuietWoken(s1.threads, Schedule(s1).threads, t);
  }
}
