/** The ready structure agrees with the thread states through every scheduler and thread operation. */
module SchedLaws {
  import opened BitScan
  import opened Rings
  import opened Sched

  lemma WithoutMembers(q: seq<Tid>, t: Tid)
    requires Distinct(q)
    ensures Distinct(Without(q, t)) && t !in Without(q, t)
    ensures forall x :: x != t ==> (x in Without(q, t) <==> x in q)
  {
    var k := IndexOf(q, t);
    if k < |q| {
      DistinctAfterRemove(q, k);
      RemoveMembers(q, k);
    }
  }

  lemma UnlinkAt(s: State, t: Tid, id: ListId)
    ensures At(Unlink(s, t), id) == Without(At(s, id), t)
  {
  }

  lemma UnlinkLinked(s: State, t: Tid)
    requires Linked(s)
    ensures Linked(Unlink(s, t))
    ensures forall id :: t !in At(Unlink(s, t), id)
    ensures forall id, x :: x != t ==> (x in At(Unlink(s, t), id) <==> x in At(s, id))
  {
    var s1 := Unlink(s, t);
    forall id ensures Distinct(At(s1, id)) && t !in At(s1, id)
      ensures forall x :: x != t ==> (x in At(s1, id) <==> x in At(s, id))
    {
      UnlinkAt(s, t, id);
      WithoutMembers(At(s, id), t);
    }
  }

  lemma LinkAt(s: State, id: ListId, i: nat, t: Tid, j: ListId)
    requires i <= |At(s, id)|
    ensures At(Link(s, id, i, t), j) == if j == id then InsertAt(At(s, id), i, t) else At(s, j)
  {
  }

  lemma LinkLinked(s: State, id: ListId, i: nat, t: Tid)
    requires Linked(s) && i <= |At(s, id)| && t in s.threads
    requires forall j :: t !in At(s, j)
    ensures Linked(Link(s, id, i, t))
    ensures forall j, x :: x in At(Link(s, id, i, t), j) <==> x in At(s, j) || (x == t && j == id)
  {
    var s1 := Link(s, id, i, t);
    DistinctAfterInsert(At(s, id), i, t);
    InsertMembers(At(s, id), i, t);
    forall j ensures Distinct(At(s1, j)) ensures forall x :: x in At(s1, j) <==> x in At(s, j) || (x == t && j == id) {
      LinkAt(s, id, i, t, j);
    }
  }

  /** A thread that is on no list and that no list is expected to hold. */
  ghost predicate Loose(s: State, t: Tid) {
    t in s.threads && forall id :: t !in At(s, id)
  }

  /** The lists name the states of all threads but t. */
  ghost predicate QueuedBut(s: State, t: Tid) {
    && (forall p, x :: x != t ==> (x in At(s, Ready(p)) <==> x in s.threads && s.threads[x].stat == Runnable && s.threads[x].prio == p))
    && (forall k, x :: x != t && x in At(s, Wait(k)) ==> x in s.threads && s.threads[x].stat == Suspended)
    && (forall x :: x != t && x in At(s, Defunct) ==> x in s.threads && s.threads[x].stat == Closed)
  }

  ghost predicate OneRunsBut(s: State, t: Tid) {
    && (s.current != NO_THREAD && s.current != t ==>
          s.current in s.threads && s.threads[s.current].stat != Runnable && s.threads[s.current].stat != Init)
    && (forall x :: x in s.threads && x != t && s.threads[x].stat == Running ==> x == s.current)
    && NO_THREAD !in s.threads
  }

  /** Everything agrees, but thread t is on no list, whatever its state says. */
  ghost predicate WFBut(s: State, t: Tid) {
    Linked(s) && Loose(s, t) && QueuedBut(s, t) && Prioritised(s) && Grouped(s) && OneRunsBut(s, t)
  }

  /** A change of a thread's fields touches no list. */
  lemma SetKeeps(s: State, t: Tid, th: Thread)
    requires t in s.threads
    ensures forall id :: At(Set(s, t, th), id) == At(s, id)
    ensures Linked(s) ==> Linked(Set(s, t, th))
    ensures Grouped(s) ==> Grouped(Set(s, t, th))
  {
    hide Distinct, Bit;
    assert forall id :: At(Set(s, t, th), id) == At(s, id);
  }

  lemma Word32(g: nat, m: nat)
    requires g < WORD && m < 32
    ensures Or(g, Mask(m)) < WORD && AndNot(g, Mask(m)) < WORD
  {
    hide Or, AndNot, Mask;
    Mask32();
    MaskGrows(m, 32);
    Fits(g, Mask(m), 32);
  }

  lemma RemovedAt(s: State, t: Tid, id: ListId)
    ensures At(Remove(s, t), id) == Without(At(s, id), t)
  {
    UnlinkAt(s, t, id);
  }

  lemma RemoveLinked(s: State, t: Tid)
    requires Linked(s) && t in s.threads
    ensures Linked(Remove(s, t)) && Loose(Remove(s, t), t)
    ensures forall id, x :: x != t ==> (x in At(Remove(s, t), id) <==> x in At(s, id))
    ensures Remove(s, t).threads == s.threads && Remove(s, t).current == s.current && Remove(s, t).lock == s.lock
  {
    var s1, s2 := Unlink(s, t), Remove(s, t);
    UnlinkLinked(s, t);
    assert forall id :: At(s2, id) == At(s1, id);
  }

  lemma RemoveGrouped(s: State, t: Tid)
    requires Queued(s) && Grouped(s) && t in s.threads && s.threads[t].prio < 32
    requires s.threads[t].mask == Mask(s.threads[t].prio) || (s.threads[t].mask == 0 && Idle(s.threads[t].stat))
    ensures Grouped(Remove(s, t))
  {
    hide Or, AndNot, Mask, Bit, Distinct, Queued;
    var s1, s2, p := Unlink(s, t), Remove(s, t), s.threads[t].prio;
    Word32(s.group, p);
    assert s.threads[t].mask == 0 ==> AndNot(s.group, 0) < WORD by { FitsZero(s.group); }
    forall q: nat ensures Bit(s2.group, q) <==> At(s2, Ready(q)) != [] {
      RemovedAt(s, t, Ready(q));
      UnlinkAt(s, t, Ready(q));
      UnlinkAt(s, t, Ready(p));
      AndNotBit(s.group, s.threads[t].mask, q);
      MaskBit(p, q);
      ZeroBit(q);
      if q != p || s.threads[t].mask == 0 { StillThere(s, t, q); }
    }
  }

  lemma FitsZero(g: nat)
    requires g < WORD
    ensures AndNot(g, 0) < WORD
  {
    hide AndNot, Mask;
    Mask32();
    Fits(g, 0, 32);
  }

  lemma StillThere(s: State, t: Tid, q: nat)
    requires Queued(s) && t in s.threads && (s.threads[t].prio != q || Idle(s.threads[t].stat))
    ensures At(Unlink(s, t), Ready(q)) == At(s, Ready(q))
  {
    UnlinkAt(s, t, Ready(q));
    assert t !in At(s, Ready(q));
  }

  lemma QueuedLoosely(s: State, t: Tid, s': State)
    requires Queued(s) && OneRuns(s)
    requires s'.threads == s.threads && s'.current == s.current
    requires forall id, x :: x != t ==> (x in At(s', id) <==> x in At(s, id))
    ensures QueuedBut(s', t) && OneRunsBut(s', t)
  {
  }

  lemma RemoveWF(s: State, t: Tid)
    requires WF(s) && t in s.threads && s.threads[t].stat != Init
    ensures WFBut(Remove(s, t), t)
    ensures Remove(s, t).threads == s.threads && Remove(s, t).current == s.current && Remove(s, t).lock == s.lock
  {
    hide Remove, Linked, Loose, Queued, QueuedBut, Grouped, OneRuns, OneRunsBut;
    RemoveLinked(s, t);
    RemoveGrouped(s, t);
    QueuedLoosely(s, t, Remove(s, t));
  }

  lemma InsertGrouped(s: State, t: Tid, s': State)
    requires Grouped(s) && t in s.threads && s.threads[t].prio < 32 && s.threads[t].mask == Mask(s.threads[t].prio)
    requires t != s.current && s' == Insert(s, t)
    ensures Grouped(s')
  {
    hide Or, AndNot, Mask, Bit;
    var p := s.threads[t].prio;
    Word32(s.group, p);
    forall q: nat ensures Bit(s'.group, q) <==> At(s', Ready(q)) != [] {
      OrBit(s.group, Mask(p), q);
      MaskBit(p, q);
    }
  }

  lemma InsertLinked(s: State, t: Tid, s': State)
    requires Linked(s) && Loose(s, t) && t != s.current && s' == Insert(s, t)
    ensures Linked(s')
    ensures forall id, x :: x in At(s', id) <==> x in At(s, id) || (x == t && id == Ready(s.threads[t].prio))
    ensures s'.threads == s.threads[t := s.threads[t].(stat := Runnable)] && s'.current == s.current && s'.lock == s.lock
  {
    hide Or, Distinct;
    var p := s.threads[t].prio;
    var i := |At(s, Ready(p))|;
    LinkLinked(s, Ready(p), i, t);
    assert forall id :: At(s', id) == At(Link(s, Ready(p), i, t), id);
  }

  lemma InsertQueued(s: State, t: Tid, s': State)
    requires QueuedBut(s, t) && OneRunsBut(s, t) && Loose(s, t) && t != s.current
    requires s'.threads == s.threads[t := s.threads[t].(stat := Runnable)] && s'.current == s.current
    requires forall id, x :: x in At(s', id) <==> x in At(s, id) || (x == t && id == Ready(s.threads[t].prio))
    ensures Queued(s') && OneRuns(s')
  {
  }

  /** Queueing a thread again completes the structure. */
  lemma InsertWF(s: State, t: Tid)
    requires WFBut(s, t) && s.threads[t].mask == Mask(s.threads[t].prio)
    ensures WF(Insert(s, t))
  {
    var s' := Insert(s, t);
    if t != s.current {
      hide Insert, Linked, Queued, QueuedBut, Grouped, OneRuns, OneRunsBut;
      InsertLinked(s, t, s');
      InsertQueued(s, t, s');
      InsertGrouped(s, t, s');
    } else {
      assert forall id :: At(s', id) == At(s, id);
      StopsBeing(s, t, s');
    }
  }

  /** Thread t gets a state other than READY while it is on no list. */
  lemma StopsBeing(s: State, t: Tid, s': State)
    requires WFBut(s, t) && t in s'.threads && s' == Set(s, t, s'.threads[t])
    requires s'.threads[t].stat != Runnable
    requires s'.threads[t].mask == Mask(s'.threads[t].prio) || (s'.threads[t].mask == 0 && Idle(s'.threads[t].stat))
    requires s'.threads[t].prio < PRIORITY_MAX && s'.threads[t].initPrio == s.threads[t].initPrio
    requires s'.threads[t].stat == Running ==> t == s.current
    requires t == s.current ==> s'.threads[t].stat != Init
    ensures WF(s') && forall id :: t !in At(s', id)
  {
    hide Linked, Grouped, Mask;
    SetKeeps(s, t, s'.threads[t]);
  }

  // ----- suspend, resume, timeout, priority change, start, close

  lemma SuspendWF(s: State, t: Tid)
    requires WF(s) && t in s.threads
    ensures WF(Suspend(s, t))
    ensures (s.threads[t].stat == Runnable || s.threads[t].stat == Running) ==>
              && Loose(Suspend(s, t), t)
              && Suspend(s, t).threads == s.threads[t := s.threads[t].(stat := Suspended, timer := false)]
    ensures Suspend(s, t).current == s.current && Suspend(s, t).lock == s.lock && Suspend(s, t).threads.Keys == s.threads.Keys
  {
    if s.threads[t].stat == Runnable || s.threads[t].stat == Running {
      hide Remove, Linked, Queued, QueuedBut, Grouped;
      RemoveWF(s, t);
      StopsBeing(Remove(s, t), t, Suspend(s, t));
    }
  }

  lemma LooseBut(s: State, t: Tid)
    requires WF(s) && Loose(s, t)
    ensures WFBut(s, t)
  {
  }

  /** Taking a suspended thread off its list. */
  lemma UnlinkWF(s: State, t: Tid)
    requires WF(s) && t in s.threads && s.threads[t].stat != Runnable
    ensures WF(Unlink(s, t)) && Loose(Unlink(s, t), t)
  {
    hide Distinct, Bit;
    var s1 := Unlink(s, t);
    UnlinkLinked(s, t);
    forall q: nat ensures At(s1, Ready(q)) == At(s, Ready(q)) {
      UnlinkAt(s, t, Ready(q));
      assert t !in At(s, Ready(q));
    }
  }

  /** Changing a thread's fields other than its state; a ready thread keeps its priority. */
  lemma UpdateWF(s: State, t: Tid, th: Thread)
    requires WF(s) && t in s.threads && th.stat == s.threads[t].stat && th.initPrio == s.threads[t].initPrio
    requires th.prio < PRIORITY_MAX && (th.mask == Mask(th.prio) || (th.mask == 0 && Idle(th.stat)))
    requires th.stat == Runnable ==> th.prio == s.threads[t].prio
    ensures WF(Set(s, t, th))
    ensures Loose(s, t) ==> Loose(Set(s, t, th), t)
  {
    hide Linked, Grouped, Mask;
    SetKeeps(s, t, th);
  }

  lemma ResumeWF(s: State, t: Tid)
    requires WF(s) && t in s.threads
    ensures WF(Resume(s, t))
  {
    if s.threads[t].stat == Suspended {
      hide WF, Loose, Insert, Unlink;
      UnlinkWF(s, t);
      var s1 := Unlink(s, t);
      Known(s, t);
      Known(s1, t);
      UpdateWF(s1, t, T(s1, t).(timer := false));
      LooseBut(Set(s1, t, T(s1, t).(timer := false)), t);
      Known(Set(s1, t, T(s1, t).(timer := false)), t);
      InsertWF(Set(s1, t, T(s1, t).(timer := false)), t);
    }
  }

  lemma Known(s: State, t: Tid)
    requires WF(s) && t in s.threads
    ensures s.threads[t].prio < PRIORITY_MAX && s.threads[t].initPrio < PRIORITY_MAX
    ensures s.threads[t].mask == Mask(s.threads[t].prio) || (s.threads[t].mask == 0 && Idle(s.threads[t].stat))
    ensures Unlink(s, t).threads == s.threads && Unlink(s, t).current == s.current && Unlink(s, t).lock == s.lock
    ensures s.threads[t].stat == Running ==> t == s.current
  {
  }

  lemma ExpireWF(s: State, t: Tid)
    requires WF(s) && t in s.threads && s.threads[t].stat == Suspended
    ensures WF(Expire(s, t))
  {
    hide WF, Loose, Insert, Unlink;
    var s1 := Set(s, t, T(s, t).(error := ETIMEOUT, timer := false));
    Known(s, t);
    UpdateWF(s, t, T(s, t).(error := ETIMEOUT, timer := false));
    UnlinkWF(s1, t);
    Known(s1, t);
    LooseBut(Unlink(s1, t), t);
    InsertWF(Unlink(s1, t), t);
  }

  lemma ChangePriorityWF(s: State, t: Tid, p: nat)
    requires WF(s) && t in s.threads && p < PRIORITY_MAX
    ensures WF(ChangePriority(s, t, p))
  {
    if s.threads[t].stat == Runnable {
      hide WF, WFBut, Remove, Insert;
      RemoveWF(s, t);
      var s1 := Remove(s, t);
      var s2 := Set(s1, t, T(s1, t).(prio := p, mask := Mask(p)));
      RankedBut(s1, t, p);
      InsertWF(s2, t);
    } else {
      UpdateWF(s, t, T(s, t).(prio := p, mask := Mask(p)));
    }
  }

  lemma RankedBut(s: State, t: Tid, p: nat)
    requires WFBut(s, t) && p < PRIORITY_MAX
    ensures WFBut(Set(s, t, T(s, t).(prio := p, mask := Mask(p))), t)
  {
    hide Linked, Grouped, Mask;
    SetKeeps(s, t, T(s, t).(prio := p, mask := Mask(p)));
  }

  lemma StartupWF(s: State, t: Tid)
    requires WF(s) && t in s.threads && s.threads[t].stat == Init
    ensures WF(Startup(s, t))
  {
    var th := s.threads[t];
    var th' := th.(prio := th.initPrio, mask := Mask(th.initPrio), stat := Suspended);
    InitLoose(s, t);
    var s1 := Set(s, t, th');
    assert WF(s1) && t in s1.threads by { StopsBeing(s, t, s1); }
    hide WF, Loose, Resume;
    ResumeWF(s1, t);
  }

  lemma InitLoose(s: State, t: Tid)
    requires WF(s) && t in s.threads && s.threads[t].stat == Init
    ensures WFBut(s, t) && forall id :: t !in At(s, id)
  {
    forall id ensures t !in At(s, id) {
      match id
      case Ready(p) =>
      case Wait(k) =>
      case Defunct =>
    }
  }

  lemma CloseWF(s: State, t: Tid, keep: bool)
    requires WF(s) && t in s.threads
    ensures WF(Close(s, t, keep))
  {
    hide Remove, WFBut;
    var s1 := if s.threads[t].stat != Init then Remove(s, t) else s;
    if s.threads[t].stat != Init { RemoveWF(s, t); } else { InitLoose(s, t); }
    var s2 := Set(s1, t, T(s1, t).(stat := Closed, timer := false));
    ClosedStops(s1, t, s2);
    if keep { LinkWF(s2, Defunct, 0, t); }
  }

  lemma ClosedStops(s: State, t: Tid, s': State)
    requires WFBut(s, t) && t in s.threads && s' == Set(s, t, T(s, t).(stat := Closed, timer := false))
    requires s.threads[t].mask == Mask(s.threads[t].prio) || s.threads[t].mask == 0
    ensures WF(s') && Loose(s', t)
  {
    hide Linked, Grouped, Mask;
    SetKeeps(s, t, T(s, t).(stat := Closed, timer := false));
  }

  /** Putting a thread that is on no list on a wait list or on the list of closed threads. */
  lemma LinkWF(s: State, id: ListId, i: nat, t: Tid)
    requires WF(s) && Loose(s, t) && i <= |At(s, id)|
    requires match id case Ready(p) => false case Wait(k) => s.threads[t].stat == Suspended case Defunct => s.threads[t].stat == Closed
    ensures WF(Link(s, id, i, t))
  {
    hide Linked, Queued, Grouped, Prioritised, OneRuns, Bit, Mask, Distinct;
    LinkLinked(s, id, i, t);
    LinkQueued(s, id, i, t);
    LinkGrouped(s, id, i, t);
  }

  /** Thread t has joined list id, and no other list has changed its members. */
  ghost predicate Onto(s: State, s': State, id: ListId, t: Tid) {
    s'.threads == s.threads && s'.current == s.current && forall j, x :: x in At(s', j) <==> x in At(s, j) || (x == t && j == id)
  }

  lemma LinkQueued(s: State, id: ListId, i: nat, t: Tid)
    requires Queued(s) && t in s.threads && i <= |At(s, id)| && Prioritised(s) && OneRuns(s)
    requires match id case Ready(p) => false case Wait(k) => s.threads[t].stat == Suspended case Defunct => s.threads[t].stat == Closed
    requires forall j, x :: x in At(Link(s, id, i, t), j) <==> x in At(s, j) || (x == t && j == id)
    ensures Queued(Link(s, id, i, t)) && Prioritised(Link(s, id, i, t)) && OneRuns(Link(s, id, i, t))
  {
    hide At, Prioritised, OneRuns, Mask;
    var s' := Link(s, id, i, t);
    JoinReady(s, s', id, t);
    JoinWait(s, s', id, t);
    JoinDefunct(s, s', id, t);
    JoinThreads(s, s', id, t);
  }

  lemma JoinReady(s: State, s': State, id: ListId, t: Tid)
    requires Queued(s) && Onto(s, s', id, t) && !id.Ready?
    ensures forall p, x :: x in At(s', Ready(p)) <==> x in s'.threads && s'.threads[x].stat == Runnable && s'.threads[x].prio == p
  {
    hide At;
  }

  lemma JoinWait(s: State, s': State, id: ListId, t: Tid)
    requires Queued(s) && Onto(s, s', id, t) && t in s.threads && (id.Wait? ==> s.threads[t].stat == Suspended)
    ensures forall k, x :: x in At(s', Wait(k)) ==> x in s'.threads && s'.threads[x].stat == Suspended
  {
    hide At;
  }

  lemma JoinDefunct(s: State, s': State, id: ListId, t: Tid)
    requires Queued(s) && Onto(s, s', id, t) && t in s.threads && (id.Defunct? ==> s.threads[t].stat == Closed)
    ensures forall x :: x in At(s', Defunct) ==> x in s'.threads && s'.threads[x].stat == Closed
  {
    hide At;
  }

  lemma JoinThreads(s: State, s': State, id: ListId, t: Tid)
    requires Prioritised(s) && OneRuns(s) && Onto(s, s', id, t)
    ensures Prioritised(s') && OneRuns(s')
  {
    hide At, Mask;
  }

  lemma LinkGrouped(s: State, id: ListId, i: nat, t: Tid)
    requires Grouped(s) && i <= |At(s, id)| && !id.Ready?
    ensures Grouped(Link(s, id, i, t))
  {
    hide Bit;
    assert forall p :: At(Link(s, id, i, t), Ready(p)) == At(s, Ready(p));
  }

  // ----- the scheduler

  lemma FirstReady(s: State, p: nat)
    requires Queued(s) && At(s, Ready(p)) != []
    ensures var t := At(s, Ready(p))[0]; t in s.threads && s.threads[t].stat == Runnable && s.threads[t].prio == p
  {
    assert At(s, Ready(p))[0] in At(s, Ready(p));
  }

  /** What the bitmap scan finds: the lowest priority that has a ready thread. */
  lemma HighestIs(s: State)
    requires WF(s)
    ensures s.group != 0 <==> exists t :: t in s.threads && s.threads[t].stat == Runnable
    ensures s.group != 0 ==> 0 <= Highest(s) < PRIORITY_MAX && At(s, Ready(Highest(s))) != []
    ensures s.group != 0 ==> forall t :: t in s.threads && s.threads[t].stat == Runnable ==> Highest(s) <= s.threads[t].prio
  {
    hide Ffs, Lowest, Bit, Mask;
    FfsIsLowest(s.group);
    if s.group != 0 {
      LowestFacts(s.group);
      FirstReady(s, Highest(s));
      forall t | t in s.threads && s.threads[t].stat == Runnable ensures Highest(s) <= s.threads[t].prio {
        assert t in At(s, Ready(s.threads[t].prio));
      }
    } else {
      forall t | t in s.threads ensures s.threads[t].stat != Runnable {
        if s.threads[t].stat == Runnable {
          assert t in At(s, Ready(s.threads[t].prio));
          ZeroBit(s.threads[t].prio);
        }
      }
    }
  }

  lemma LowestFacts(v: nat)
    requires v != 0 && v < WORD
    ensures Ffs(v) >= 1 && Bit(v, Ffs(v) - 1) && forall q: nat :: q < Ffs(v) - 1 ==> !Bit(v, q)
  {
    FfsIsLowest(v);
  }

  /** The thread at the head of the most urgent ready list. */
  lemma HeadIs(s: State)
    requires WF(s) && s.group != 0
    ensures var t := Head(s, Ready(Highest(s)));
            Highest(s) >= 0 && t in s.threads && s.threads[t].stat == Runnable && s.threads[t].prio == Highest(s)
  {
    hide Ffs, Bit, Mask, Highest;
    HighestIs(s);
    FirstReady(s, Highest(s));
  }

  /** The running thread gives the processor up before another one has it. */
  lemma VacateWF(s: State)
    requires WF(s) && s.current != NO_THREAD
    ensures var s1 := s.(current := NO_THREAD);
            if s.threads[s.current].stat == Running then WFBut(s1, s.current) else WF(s1)
  {
    hide Distinct, Bit, Mask;
    var s1 := s.(current := NO_THREAD);
    assert forall id :: At(s1, id) == At(s, id);
    if s.threads[s.current].stat == Running {
      forall id ensures s.current !in At(s, id) { RunningLoose(s, id); }
    }
  }

  lemma RunningLoose(s: State, id: ListId)
    requires Queued(s) && s.current in s.threads && s.threads[s.current].stat == Running
    ensures s.current !in At(s, id)
  {
    match id
    case Ready(p) =>
    case Wait(k) =>
    case Defunct =>
  }

  lemma OccupyWF(s: State, t: Tid)
    requires WFBut(s, t) && s.current == NO_THREAD && t in s.threads && s.threads[t].mask == Mask(s.threads[t].prio)
    ensures WF(Set(s.(current := t), t, T(s, t).(stat := Running)))
  {
    hide Distinct, Bit, Mask;
    var s1 := s.(current := t);
    assert forall id :: At(s1, id) == At(s, id);
    assert WFBut(s1, t);
    StopsBeing(s1, t, Set(s1, t, T(s1, t).(stat := Running)));
  }

  /** Handing the processor to a ready thread. */
  lemma SwitchWF(s: State, to: Tid)
    requires WF(s) && to in s.threads && s.threads[to].stat == Runnable && s.current != NO_THREAD
    ensures var s' := Switch(s, to, s.threads[s.current].stat == Running);
            WF(s') && s'.current == to && s'.threads[to].stat == Running && s'.lock == s.lock
  {
    var from := s.current;
    var requeue := s.threads[from].stat == Running;
    var s1 := s.(current := NO_THREAD);
    hide WFBut, WF, Loose, Unlink, Queued, Linked, Grouped, Prioritised;
    VacateWF(s);
    Known(s, from);
    Known(s, to);
    if requeue { InsertWF(s1, from); }
    var s2 := if requeue then Insert(s1, from) else s1;
    assert s2.current == NO_THREAD && s2.threads[to] == s.threads[to];
    Known(s2, to);
    RemoveWF(s2, to);
    OccupyWF(Remove(s2, to), to);
    SwitchForm(s, to, requeue);
  }

  lemma SwitchForm(s: State, to: Tid, requeue: bool)
    requires s.current != NO_THREAD && to != s.current && to in s.threads
    ensures var s1 := s.(current := NO_THREAD);
            var s2 := if requeue then Insert(s1, s.current) else s1;
            Switch(s, to, requeue) == Set(Remove(s2, to).(current := to), to, T(Remove(s2, to), to).(stat := Running))
  {
    hide Remove, Insert;
    var s1 := s.(current := NO_THREAD);
    var s2 := if requeue then Insert(s1, s.current) else s1;
    InsertApart(s, s.current, NO_THREAD, to);
    RemoveApart(s2, to, to);
  }

  lemma InsertApart(s: State, t: Tid, c: Tid, d: Tid)
    requires t != c && t != d
    ensures Insert(s.(current := d), t) == Insert(s.(current := c), t).(current := d)
  {
  }

  lemma RemoveApart(s: State, t: Tid, d: Tid)
    ensures Remove(s.(current := d), t) == Remove(s, t).(current := d)
  {
  }

  lemma ScheduleWF(s: State)
    requires WF(s) && s.current != NO_THREAD
    ensures WF(Schedule(s))
  {
    hide WF, Switch, Highest, Ffs;
    if s.lock == 0 && s.group != 0 {
      HighestIs(s);
      HeadIs(s);
      CurrentKnown(s);
      if T(s, s.current).stat == Running && T(s, s.current).prio < Highest(s) {
        StayWF(s);
      } else {
        SwitchWF(s, Head(s, Ready(Highest(s))));
      }
    }
  }

  lemma CurrentKnown(s: State)
    requires WF(s) && s.current != NO_THREAD
    ensures s.current in s.threads && !(s.threads[s.current].stat == Runnable) && s.threads[s.current].stat != Init
    ensures s.threads[s.current].prio < PRIORITY_MAX
  {
  }

  /** When the running thread stays, taking it off the ready lists changes nothing: it is on none. */
  lemma StayWF(s: State)
    requires WF(s) && s.current in s.threads && s.threads[s.current].stat == Running && s.threads[s.current].prio < Highest(s)
    ensures WF(Set(Remove(s, s.current), s.current, T(Remove(s, s.current), s.current).(stat := Running)))
  {
    hide WFBut, WF, Remove, Highest;
    RemoveWF(s, s.current);
    Known(s, s.current);
    StopsBeing(Remove(s, s.current), s.current, Set(Remove(s, s.current), s.current, T(Remove(s, s.current), s.current).(stat := Running)));
  }

  /** After an unlocked rt_schedule no ready thread is strictly more urgent than the running one, exactly when
      there is a thread to run at all: the current one or a ready one. */
  lemma ScheduleUrgent(s: State)
    requires WF(s) && s.current != NO_THREAD && s.lock == 0
    ensures Urgent(Schedule(s)) <==>
              s.threads[s.current].stat == Running || exists t :: t in s.threads && s.threads[t].stat == Runnable
  {
    hide WF, Switch, Highest, Ffs;
    HighestIs(s);
    CurrentKnown(s);
    if s.group != 0 {
      HeadIs(s);
      if T(s, s.current).stat == Running && T(s, s.current).prio < Highest(s) {
      } else {
        var to := Head(s, Ready(Highest(s)));
        SwitchWF(s, to);
        SwitchThreads(s, to, T(s, s.current).stat == Running);
      }
    }
  }

  /** A switch changes the states of the two threads involved and nothing else about any thread. */
  lemma SwitchThreads(s: State, to: Tid, requeue: bool)
    requires s.current in s.threads && to in s.threads && to != s.current
    ensures Switch(s, to, requeue).threads ==
              (if requeue then s.threads[s.current := s.threads[s.current].(stat := Runnable)] else s.threads)
                [to := s.threads[to].(stat := Running)]
  {
  }

  /** A system right after its start: one thread runs, no other has been started yet. */
  lemma FirstStartWF(threads: map<Tid, Thread>, c: Tid)
    requires NO_THREAD !in threads && c in threads && threads[c].stat == Running
    requires forall t :: t in threads && t != c ==> threads[t].stat == Init
    requires forall t :: t in threads ==> threads[t].prio < PRIORITY_MAX && threads[t].initPrio < PRIORITY_MAX
    requires forall t :: t in threads ==> threads[t].mask == Mask(threads[t].prio) || (threads[t].mask == 0 && t != c)
    ensures WF(State(threads, map[], 0, c, 0))
  {
    var s := State(threads, map[], 0, c, 0);
    assert forall id :: At(s, id) == [];
    forall p: nat ensures !Bit(0, p) { ZeroBit(p); }
    hide Bit, Mask;
  }
}
