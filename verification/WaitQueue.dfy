/** The wait lists of ipc.c: a blocked thread's node sits on the list of the object it waits for, in arrival
    order or in order of urgency. */
module WaitQueue {
  import opened Rings
  import opened Sched
  import opened SchedLaws

  datatype Flag = FIFO | PRIO

  /** Position of the first thread that is strictly less urgent than p. */
  function Place(threads: map<Tid, Thread>, q: seq<Tid>, p: nat): (i: nat)
    ensures i <= |q|
  {
    if q == [] then 0
    else if q[0] in threads && p < threads[q[0]].prio then 0
    else 1 + Place(threads, q[1..], p)
  }

  function Slot(s: State, k: nat, t: Tid, flag: Flag): (i: nat)
    ensures i <= |At(s, Wait(k))|
  {
    if flag == FIFO then |At(s, Wait(k))| else Place(s.threads, At(s, Wait(k)), T(s, t).prio)
  }

  /** rt_ipc_list_suspend */
  function ListSuspend(s: State, k: nat, t: Tid, flag: Flag): State {
    var s1 := Suspend(s, t);
    Link(s1, Wait(k), Slot(s1, k, t, flag), t)
  }

  /** rt_ipc_list_resume */
  function ListResume(s: State, k: nat): State {
    Resume(s, Head(s, Wait(k)))
  }

  /** rt_ipc_list_resume_all, for the threads found on the list. */
  function ResumeEach(s: State, q: seq<Tid>): State
    decreases |q|
  {
    if q == [] then s else ResumeEach(Resume(SetError(s, q[0], ERROR), q[0]), q[1..])
  }

  function ResumeAll(s: State, k: nat): State {
    ResumeEach(s, At(s, Wait(k)))
  }

  ghost predicate Sorted(threads: map<Tid, Thread>, q: seq<Tid>) {
    && (forall i :: 0 <= i < |q| ==> q[i] in threads)
    && (forall i, j :: 0 <= i < j < |q| ==> threads[q[i]].prio <= threads[q[j]].prio)
  }

  /** What a running or ready thread looks like to the objects it is not waiting for. */
  predicate Awake(st: Stat) {
    st == Runnable || st == Running
  }

  /** Nothing but switches between ready and running has happened. */
  ghost predicate Quiet(a: map<Tid, Thread>, b: map<Tid, Thread>) {
    && a.Keys == b.Keys
    && forall t :: t in a ==>
         b[t] == a[t] || (Awake(a[t].stat) && Awake(b[t].stat) && b[t] == a[t].(stat := b[t].stat))
  }

  /** Wait lists are the same. */
  ghost predicate SameWaits(s: State, s': State) {
    forall k :: At(s', Wait(k)) == At(s, Wait(k))
  }

  // ----- order

  lemma {:induction false} PlaceSplits(threads: map<Tid, Thread>, q: seq<Tid>, p: nat)
    requires Sorted(threads, q)
    ensures var i := Place(threads, q, p);
            && (forall j :: 0 <= j < i ==> threads[q[j]].prio <= p)
            && (forall j :: i <= j < |q| ==> p < threads[q[j]].prio)
  {
    if q != [] && !(p < threads[q[0]].prio) {
      PlaceSplits(threads, q[1..], p);
      var i := Place(threads, q, p);
      forall j | i <= j < |q| ensures p < threads[q[j]].prio { assert q[j] == q[1..][j - 1]; }
      forall j | 0 <= j < i ensures threads[q[j]].prio <= p { if j > 0 { assert q[j] == q[1..][j - 1]; } }
    }
  }

  /** A thread goes behind every thread at least as urgent and ahead of all others: the list stays sorted,
      and threads of equal urgency stay in arrival order. */
  lemma SortedInsert(threads: map<Tid, Thread>, q: seq<Tid>, t: Tid)
    requires Sorted(threads, q) && t in threads
    ensures var i := Place(threads, q, threads[t].prio);
            && Sorted(threads, InsertAt(q, i, t))
            && (forall j :: 0 <= j < i ==> threads[q[j]].prio <= threads[t].prio)
            && (forall j :: i <= j < |q| ==> threads[t].prio < threads[q[j]].prio)
  {
    hide Place;
    PlaceSplits(threads, q, threads[t].prio);
    SortedPut(threads, q, Place(threads, q, threads[t].prio), t);
  }

  lemma SortedPut(threads: map<Tid, Thread>, q: seq<Tid>, i: nat, t: Tid)
    requires Sorted(threads, q) && t in threads && i <= |q|
    requires forall j :: 0 <= j < i ==> threads[q[j]].prio <= threads[t].prio
    requires forall j :: i <= j < |q| ==> threads[t].prio < threads[q[j]].prio
    ensures Sorted(threads, InsertAt(q, i, t))
  {
    var r := InsertAt(q, i, t);
    forall a | 0 <= a < |r| ensures r[a] in threads
      && threads[r[a]].prio == if a < i then threads[q[a]].prio else if a == i then threads[t].prio else threads[q[a - 1]].prio
    {}
    forall a, b | 0 <= a < b < |r| ensures threads[r[a]].prio <= threads[r[b]].prio {
      if a < i && b < i { assert threads[q[a]].prio <= threads[q[b]].prio; }
      if a < i && b > i { assert threads[q[a]].prio <= threads[q[b - 1]].prio; }
      if a > i { assert threads[q[a - 1]].prio <= threads[q[b - 1]].prio; }
    }
  }

  lemma SortedRemove(threads: map<Tid, Thread>, q: seq<Tid>, t: Tid)
    requires Sorted(threads, q)
    ensures Sorted(threads, Without(q, t))
  {
    var k, r := IndexOf(q, t), Without(q, t);
    assert forall i :: 0 <= i < |r| ==> r[i] == q[if i < k then i else i + 1];
    hide Without;
  }

  lemma {:induction false} PlaceSame(a: map<Tid, Thread>, b: map<Tid, Thread>, q: seq<Tid>, p: nat)
    requires forall i :: 0 <= i < |q| ==> q[i] in a && q[i] in b && a[q[i]].prio == b[q[i]].prio
    ensures Place(a, q, p) == Place(b, q, p)
  {
    if q != [] {
      PlaceSame(a, b, q[1..], p);
    }
  }

  // ----- what each step does to the wait lists and the threads

  lemma AwakeOnNoWait(s: State, t: Tid, k: nat)
    requires Queued(s) && t in s.threads && s.threads[t].stat != Suspended
    ensures t !in At(s, Wait(k))
  {
  }

  lemma InsertWaits(s: State, t: Tid)
    ensures SameWaits(s, Insert(s, t))
    ensures Insert(s, t).threads == s.threads[t := T(s, t).(stat := if t == s.current then Running else Runnable)]
    ensures Insert(s, t).current == s.current && Insert(s, t).lock == s.lock
  {
  }

  lemma RemoveWaits(s: State, t: Tid)
    requires WF(s) && t in s.threads && s.threads[t].stat != Suspended
    ensures SameWaits(s, Remove(s, t))
    ensures Remove(s, t).threads == s.threads && Remove(s, t).current == s.current && Remove(s, t).lock == s.lock
  {
    forall k ensures At(Remove(s, t), Wait(k)) == At(s, Wait(k)) {
      RemovedAt(s, t, Wait(k));
      AwakeOnNoWait(s, t, k);
    }
  }

  /** Blocking the running thread: it joins the list at its slot, nothing else changes. */
  lemma ListSuspendFacts(s: State, k: nat, t: Tid, flag: Flag)
    requires WF(s) && t in s.threads && Awake(s.threads[t].stat)
    ensures var s' := ListSuspend(s, k, t, flag);
            && WF(s') && s'.current == s.current && s'.lock == s.lock
            && s'.threads == s.threads[t := s.threads[t].(stat := Suspended, timer := false)]
            && At(s', Wait(k)) == InsertAt(At(s, Wait(k)), Slot(s, k, t, flag), t)
            && (forall j :: j != k ==> At(s', Wait(j)) == At(s, Wait(j)))
            && (forall j :: t !in At(s, Wait(j)))
  {
    hide WF, Loose, Remove, Place;
    var s1 := Suspend(s, t);
    SuspendWF(s, t);
    SuspendWaits(s, t);
    MembersKnown(s, k);
    forall j ensures t !in At(s, Wait(j)) { NotWaiting(s, t, j); }
    PlaceSame(s.threads, s1.threads, At(s, Wait(k)), T(s, t).prio);
    LinkWF(s1, Wait(k), Slot(s1, k, t, flag), t);
  }

  lemma NotWaiting(s: State, t: Tid, k: nat)
    requires WF(s) && t in s.threads && s.threads[t].stat != Suspended
    ensures t !in At(s, Wait(k))
  {
  }

  lemma SuspendWaits(s: State, t: Tid)
    requires WF(s) && t in s.threads && Awake(s.threads[t].stat)
    ensures SameWaits(s, Suspend(s, t))
  {
    RemoveWaits(s, t);
  }

  /** The threads of a wait list: distinct, suspended, and on no other list. */
  lemma MembersKnown(s: State, k: nat)
    requires WF(s)
    ensures Distinct(At(s, Wait(k)))
    ensures forall t :: t in At(s, Wait(k)) ==> t in s.threads && s.threads[t].stat == Suspended
    ensures forall t, j :: t in At(s, Wait(k)) && j != k ==> t !in At(s, Wait(j))
    ensures forall i :: 0 <= i < |At(s, Wait(k))| ==> At(s, Wait(k))[i] in s.threads && s.threads[At(s, Wait(k))[i]].stat == Suspended
  {
    var q := At(s, Wait(k));
    forall i | 0 <= i < |q| ensures q[i] in s.threads && s.threads[q[i]].stat == Suspended {
      var t := q[i];
      assert t in At(s, Wait(k));
    }
  }

  /** Waking a suspended thread: it leaves whichever list it is on. */
  lemma ResumeFacts(s: State, t: Tid)
    requires WF(s) && t in s.threads && s.threads[t].stat == Suspended
    ensures var s' := Resume(s, t);
            && WF(s') && s'.current == s.current && s'.lock == s.lock
            && s'.threads == s.threads[t := s.threads[t].(stat := if t == s.current then Running else Runnable, timer := false)]
            && (forall k :: At(s', Wait(k)) == Without(At(s, Wait(k)), t))
  {
    ResumeWF(s, t);
    hide Insert, Without, WF;
    var s1 := Unlink(s, t);
    var s2 := Set(s1, t, T(s1, t).(timer := false));
    InsertWaits(s2, t);
    forall k ensures At(Resume(s, t), Wait(k)) == Without(At(s, Wait(k)), t) {
      UnlinkAt(s, t, Wait(k));
      assert At(s2, Wait(k)) == At(s1, Wait(k));
    }
  }

  /** Waking the first thread of a list. */
  lemma ListResumeFacts(s: State, k: nat)
    requires WF(s) && At(s, Wait(k)) != []
    ensures var s', t := ListResume(s, k), At(s, Wait(k))[0];
            && WF(s') && s'.current == s.current && s'.lock == s.lock
            && t in s.threads && s.threads[t].stat == Suspended
            && s'.threads == s.threads[t := s.threads[t].(stat := if t == s.current then Running else Runnable, timer := false)]
            && At(s', Wait(k)) == At(s, Wait(k))[1..]
            && (forall j :: j != k ==> At(s', Wait(j)) == At(s, Wait(j)))
  {
    hide WF, Resume;
    var t := At(s, Wait(k))[0];
    assert t in At(s, Wait(k));
    MembersKnown(s, k);
    ResumeFacts(s, t);
    WithoutFirst(At(s, Wait(k)));
    forall j | j != k ensures At(Resume(s, t), Wait(j)) == At(s, Wait(j)) {}
  }

  lemma WithoutFirst(q: seq<Tid>)
    requires q != []
    ensures Without(q, q[0]) == q[1..]
  {
  }

  lemma ExpireFacts(s: State, t: Tid)
    requires WF(s) && t in s.threads && s.threads[t].stat == Suspended
    ensures var s' := Expire(s, t);
            && WF(s') && s'.current == s.current && s'.lock == s.lock
            && s'.threads == s.threads[t := s.threads[t].(stat := if t == s.current then Running else Runnable,
                                                           error := ETIMEOUT, timer := false)]
            && (forall k :: At(s', Wait(k)) == Without(At(s, Wait(k)), t))
  {
    ExpireWF(s, t);
    hide Insert, Without, WF;
    var s1 := Set(s, t, T(s, t).(error := ETIMEOUT, timer := false));
    InsertWaits(Unlink(s1, t), t);
    forall k ensures At(Expire(s, t), Wait(k)) == Without(At(s, Wait(k)), t) {
      UnlinkAt(s1, t, Wait(k));
      assert At(s1, Wait(k)) == At(s, Wait(k));
    }
  }

  lemma ChangePriorityFacts(s: State, t: Tid, p: nat)
    requires WF(s) && t in s.threads && p < PRIORITY_MAX
    ensures var s' := ChangePriority(s, t, p);
            && WF(s') && SameWaits(s, s') && s'.current == s.current && s'.lock == s.lock
            && s'.threads.Keys == s.threads.Keys
            && s'.threads[t] == s.threads[t].(prio := p, mask := s'.threads[t].mask)
            && (forall x :: x in s.threads && x != t ==> s'.threads[x] == s.threads[x])
  {
    hide Insert, Remove, BitScan.Mask, WF;
    ChangePriorityWF(s, t, p);
    if s.threads[t].stat == Runnable {
      RemoveWaits(s, t);
      ReadyNotCurrent(s, t);
      var s1 := Remove(s, t);
      InsertWaits(Set(s1, t, T(s1, t).(prio := p, mask := BitScan.Mask(p))), t);
    }
  }

  lemma ReadyNotCurrent(s: State, t: Tid)
    requires WF(s) && t in s.threads && s.threads[t].stat == Runnable
    ensures t != s.current
  {
  }

  /** The scheduler only moves threads between ready and running. */
  lemma ScheduleFacts(s: State)
    requires WF(s) && s.current != NO_THREAD
    ensures var s' := Schedule(s);
            && WF(s') && SameWaits(s, s') && s'.lock == s.lock && s'.current != NO_THREAD
            && Quiet(s.threads, s'.threads)
  {
    hide WF, Switch, Highest, BitScan.Ffs, Remove;
    ScheduleWF(s);
    if s.lock == 0 && s.group != 0 {
      HighestIs(s);
      HeadIs(s);
      CurrentKnown(s);
      var to := Head(s, Ready(Highest(s)));
      NotNull(s, to);
      if T(s, s.current).stat == Running && T(s, s.current).prio < Highest(s) {
        RemoveWaits(s, s.current);
      } else {
        SwitchThreads(s, to, T(s, s.current).stat == Running);
        SwitchWaits(s, to);
      }
    }
  }

  lemma NotNull(s: State, t: Tid)
    requires WF(s) && t in s.threads
    ensures t != NO_THREAD
  {
  }

  lemma SwitchWaits(s: State, to: Tid)
    requires WF(s) && to in s.threads && s.threads[to].stat == Runnable && s.current in s.threads
    ensures var s' := Switch(s, to, s.threads[s.current].stat == Running);
            SameWaits(s, s') && s'.current == to && s'.lock == s.lock
  {
    hide Insert, Without;
    var s1 := s.(current := to);
    if s.threads[s.current].stat == Running { InsertWaits(s1, s.current); }
    var s2 := if s.threads[s.current].stat == Running then Insert(s1, s.current) else s1;
    forall k ensures At(Remove(s2, to), Wait(k)) == At(s, Wait(k)) {
      RemovedAt(s2, to, Wait(k));
      AwakeOnNoWait(s, to, k);
      assert At(s2, Wait(k)) == At(s, Wait(k));
    }
  }
}
