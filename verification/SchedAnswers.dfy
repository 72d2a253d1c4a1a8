/** What each call of the thread and scheduler functions does to the threads and to the order of the lists. */
module SchedAnswers {
  import opened Rings
  import opened BitScan
  import opened Sched
  import opened SchedLaws
  import opened WaitQueue
  import Runs = SchedRuns

  // ----- thread.c

  /** Only the thread t has changed. */
  ghost predicate OnlyThread(s: State, s': State, t: Tid) {
    && t in s.threads && t in s'.threads && s'.threads == s.threads[t := s'.threads[t]]
    && s'.current == s.current && s'.lock == s.lock
  }

  /** Thread t has left whichever list it was on. */
  ghost predicate LeftLists(s: State, s': State, t: Tid) {
    forall id :: At(s', id) == Without(At(s, id), t)
  }

  /** Thread t is now the last on the ready list of its priority and on no other; all other threads are where they
      were. */
  ghost predicate QueuedLast(s: State, s': State, t: Tid) {
    && t in s'.threads
    && forall id :: At(s', id) == Without(At(s, id), t) + if id == Ready(s'.threads[t].prio) then [t] else []
  }

  lemma AppendedLast(s: State, t: Tid)
    requires t in s.threads && t != s.current
    ensures forall id :: At(Insert(s, t), id) == At(s, id) + if id == Ready(s.threads[t].prio) then [t] else []
  {
    forall id ensures At(Insert(s, t), id) == At(s, id) + if id == Ready(s.threads[t].prio) then [t] else [] {
      LinkAt(s, Ready(s.threads[t].prio), |At(s, Ready(s.threads[t].prio))|, t, id);
    }
  }

  /** rt_thread_suspend: a ready or running thread is suspended with its timer stopped, and on no list any more; any
      other is refused. */
  lemma SuspendAnswers(s: State, t: Tid)
    requires WF(s) && t in s.threads
    ensures var s' := Suspend(s, t);
            if Awake(s.threads[t].stat) then
              OnlyThread(s, s', t) && s'.threads[t] == s.threads[t].(stat := Suspended, timer := false) && LeftLists(s, s', t)
            else s' == s
  {
    hide WF, Without;
    if Awake(s.threads[t].stat) {
      SuspendWF(s, t);
      forall id ensures At(Suspend(s, t), id) == Without(At(s, id), t) { RemovedAt(s, t, id); }
    }
  }

  /** Awake again: last on its ready list or, when it still has the processor, running and on no list. */
  ghost predicate BackAgain(s: State, s': State, t: Tid) {
    if t == s.current then LeftLists(s, s', t) else QueuedLast(s, s', t)
  }

  lemma InsertedLast(s: State, t: Tid)
    requires t in s.threads
    ensures var s' := Insert(s, t);
            if t == s.current then forall id :: At(s', id) == At(s, id)
            else forall id :: At(s', id) == At(s, id) + if id == Ready(s.threads[t].prio) then [t] else []
  {
    if t != s.current { AppendedLast(s, t); }
  }

  /** rt_thread_resume: a suspended thread is awake with its timer stopped; any other is refused. */
  lemma ResumeAnswers(s: State, t: Tid)
    requires WF(s) && t in s.threads
    ensures var s' := Resume(s, t);
            if s.threads[t].stat == Suspended then
              && OnlyThread(s, s', t) && BackAgain(s, s', t)
              && s'.threads[t] == s.threads[t].(stat := if t == s.current then Running else Runnable, timer := false)
            else s' == s
  {
    hide WF, Without, Insert;
    if s.threads[t].stat == Suspended {
      ResumeFacts(s, t);
      var s1 := Unlink(s, t);
      var s2 := Set(s1, t, T(s1, t).(timer := false));
      InsertedLast(s2, t);
      forall id ensures At(s2, id) == Without(At(s, id), t) { UnlinkAt(s, t, id); }
    }
  }

  /** rt_thread_timeout: the same, with the timeout error. */
  lemma ExpireAnswers(s: State, t: Tid)
    requires WF(s) && t in s.threads && s.threads[t].stat == Suspended
    ensures var s' := Expire(s, t);
            && OnlyThread(s, s', t) && BackAgain(s, s', t)
            && s'.threads[t] == s.threads[t].(stat := if t == s.current then Running else Runnable, error := ETIMEOUT, timer := false)
  {
    hide WF, Without, Insert;
    ExpireFacts(s, t);
    var s1 := Set(s, t, T(s, t).(error := ETIMEOUT, timer := false));
    var s2 := Unlink(s1, t);
    InsertedLast(s2, t);
    forall id ensures At(s2, id) == Without(At(s, id), t) { UnlinkAt(s1, t, id); }
  }

  /** A change of priority: a ready thread is last on the list of its new priority, any other stays where it is; nothing
      else about it changes but the bit that stands for the priority. */
  lemma ChangePriorityAnswers(s: State, t: Tid, p: nat)
    requires WF(s) && t in s.threads && p < PRIORITY_MAX
    ensures var s' := ChangePriority(s, t, p);
            && OnlyThread(s, s', t) && s'.threads[t] == s.threads[t].(prio := p, mask := Mask(p))
            && if s.threads[t].stat == Runnable then QueuedLast(s, s', t) else forall id :: At(s', id) == At(s, id)
  {
    hide WF, Without, Insert, Mask;
    ChangePriorityFacts(s, t, p);
    if s.threads[t].stat == Runnable {
      ReadyNotCurrent(s, t);
      RemoveWaits(s, t);
      var s1 := Remove(s, t);
      var s2 := Set(s1, t, T(s1, t).(prio := p, mask := Mask(p)));
      AppendedLast(s2, t);
      InsertWaits(s2, t);
      forall id ensures At(s2, id) == Without(At(s, id), t) { RemovedAt(s, t, id); }
    }
  }

  /** rt_thread_startup: the thread is ready with its initial priority, last on the list of that priority. */
  lemma StartupAnswers(s: State, t: Tid)
    requires WF(s) && t in s.threads && s.threads[t].stat == Init
    ensures var s' := Startup(s, t);
            && OnlyThread(s, s', t) && QueuedLast(s, s', t)
            && s'.threads[t] == s.threads[t].(stat := Runnable, prio := s.threads[t].initPrio, mask := Mask(s.threads[t].initPrio),
                                              timer := false)
  {
    hide WF, Without, Insert, Mask;
    NotStarted(s, t);
    var th := s.threads[t];
    var s0 := Set(s, t, th.(prio := th.initPrio, mask := Mask(th.initPrio), stat := Suspended));
    var s1 := Unlink(s0, t);
    var s2 := Set(s1, t, T(s1, t).(timer := false));
    AppendedLast(s2, t);
    InsertWaits(s2, t);
    forall id ensures At(s2, id) == Without(At(s, id), t) { UnlinkAt(s0, t, id); }
  }

  lemma NotStarted(s: State, t: Tid)
    requires WF(s) && t in s.threads && s.threads[t].stat == Init
    ensures t != s.current
  {
  }

  /** rt_thread_detach, rt_thread_delete and rt_thread_exit: the thread is closed with its timer stopped, on no ready and
      no wait list, and first on the list of closed threads exactly when its object is kept. */
  lemma CloseAnswers(s: State, t: Tid, keep: bool)
    requires WF(s) && t in s.threads
    ensures var s' := Close(s, t, keep);
            && OnlyThread(s, s', t) && s'.threads[t] == s.threads[t].(stat := Closed, timer := false)
            && (forall id :: At(s', id) == (if keep && id == Defunct then [t] else []) + Without(At(s, id), t))
            && (forall p :: t !in At(s', Ready(p))) && (forall k :: t !in At(s', Wait(k)))
  {
    hide WF, Without, Remove;
    CloseWF(s, t, keep);
    var s' := Close(s, t, keep);
    var s1 := if s.threads[t].stat != Init then Remove(s, t) else s;
    if s.threads[t].stat != Init { RemoveWF(s, t); } else { NotListed(s, t); }
    forall id ensures At(s1, id) == Without(At(s, id), t) { RemovedAt(s, t, id); }
    var s2 := Set(s1, t, T(s1, t).(stat := Closed, timer := false));
    forall id ensures At(s', id) == (if keep && id == Defunct then [t] else []) + Without(At(s, id), t) {
      if keep { LinkAt(s2, Defunct, 0, t, id); }
    }
    ClosedNowhere(s', t);
  }

  lemma NotListed(s: State, t: Tid)
    requires WF(s) && t in s.threads && s.threads[t].stat == Init
    ensures forall id :: Without(At(s, id), t) == At(s, id)
  {
    InitLoose(s, t);
    hide WF;
  }

  lemma ClosedNowhere(s: State, t: Tid)
    requires WF(s) && t in s.threads && s.threads[t].stat == Closed
    ensures (forall p :: t !in At(s, Ready(p))) && (forall k :: t !in At(s, Wait(k)))
  {
  }

  // ----- rt_schedule

  /** The processor goes to the first thread of the most urgent ready list; the running one, if it still wants to run,
      joins the end of its own list. Only a running thread that is more urgent than every ready one keeps it. */
  lemma ScheduleAnswers(s: State, to: Tid)
    requires WF(s) && s.current != NO_THREAD
    ensures var (s', from) := (Schedule(s), s.current);
            && (s.lock != 0 || (forall t :: t in s.threads ==> s.threads[t].stat != Runnable) ==> s' == s)
            && (s.threads[from].stat == Running && (forall t :: t in s.threads && s.threads[t].stat == Runnable ==> s.threads[from].prio < s.threads[t].prio) ==>
                  s'.threads == s.threads && s'.current == from && forall id :: At(s', id) == At(s, id))
    ensures var (s', from) := (Schedule(s), s.current);
            s.lock == 0 && FirstUp(s, to) && (s.threads[from].stat == Running ==> s.threads[to].prio <= s.threads[from].prio) ==>
              && s'.current == to && from in s.threads && to in s.threads
              && s'.threads == (if s.threads[from].stat == Running then s.threads[from := s.threads[from].(stat := Runnable)] else s.threads)
                                 [to := s.threads[to].(stat := Running)]
              && forall id :: At(s', id) == Without(At(s, id) + (if s.threads[from].stat == Running && id == Ready(s.threads[from].prio) then [from] else []), to)
  {
    hide WF, Highest, Ffs, Remove, Without, Switch;
    HighestIs(s);
    CurrentKnown(s);
    if s.group != 0 {
      HeadIs(s);
      var from, top := s.current, Head(s, Ready(Highest(s)));
      if s.threads[from].stat == Running && s.threads[from].prio < Highest(s) { Stays(s); }
      if FirstUp(s, to) {
        assert s.threads[to].prio == Highest(s);
        SwitchThreads(s, top, s.threads[from].stat == Running);
        SwitchLists(s, top);
      }
    }
  }

  /** Thread `to` is the first of its ready list, and no ready thread is more urgent. */
  ghost predicate FirstUp(s: State, to: Tid) {
    && to in s.threads && s.threads[to].stat == Runnable && Head(s, Ready(s.threads[to].prio)) == to
    && forall t :: t in s.threads && s.threads[t].stat == Runnable ==> s.threads[to].prio <= s.threads[t].prio
  }

  lemma Stays(s: State)
    requires WF(s) && s.current in s.threads && s.threads[s.current].stat == Running
    ensures var s1 := Remove(s, s.current);
            s1.threads == s.threads && s1.current == s.current && s.threads[s.current := s.threads[s.current].(stat := Running)] == s.threads
            && forall id :: At(s1, id) == At(s, id)
  {
    forall id ensures At(Remove(s, s.current), id) == At(s, id) {
      RunningLoose(s, id);
      RemovedAt(s, s.current, id);
    }
  }

  lemma SwitchLists(s: State, to: Tid)
    requires WF(s) && to in s.threads && s.threads[to].stat == Runnable && s.current in s.threads && s.current != to
    ensures var (s', from) := (Switch(s, to, s.threads[s.current].stat == Running), s.current);
            && s'.current == to
            && forall id :: At(s', id) == Without(At(s, id) + (if s.threads[from].stat == Running && id == Ready(s.threads[from].prio) then [from] else []), to)
  {
    hide WF, Insert, Without, Remove;
    var from := s.current;
    var s1 := s.(current := to);
    var requeue := s.threads[from].stat == Running;
    if requeue { AppendedLast(s1, from); InsertWaits(s1, from); }
    var s2 := if requeue then Insert(s1, from) else s1;
    CurrentAfter(s2, to);
    forall id ensures At(Remove(s2, to), id) == Without(At(s, id) + (if requeue && id == Ready(s.threads[from].prio) then [from] else []), to) {
      RemovedAt(s2, to, id);
      assert At(s, id) + [] == At(s, id);
    }
  }

  lemma CurrentAfter(s: State, t: Tid)
    ensures Remove(s, t).current == s.current
  {
  }

  // ----- rt_enter_critical and rt_exit_critical

  /** Enters minus exits of a run. */
  function Net(ops: seq<Runs.Op>): int {
    if ops == [] then 0 else (if ops[0].Lock? then 1 else if ops[0].Unlock? then -1 else 0) + Net(ops[1..])
  }

  /** No exit of the run is the one that ends the outermost section. */
  predicate StaysInside(depth: int, ops: seq<Runs.Op>)
    decreases |ops|
  {
    depth > 0 && (ops == [] || StaysInside(depth + Net(ops[..1]), ops[1..]))
  }

  /** One call inside a critical section: the level counts enters and exits, and the running thread keeps the
      processor whatever becomes ready. */
  lemma InsideStep(s: State, op: Runs.Op)
    requires Runs.Good(s) && s.lock > 0 && s.lock + Net([op]) > 0
    ensures Runs.Step(s, op).lock == s.lock + Net([op]) && Runs.Step(s, op).current == s.current
  {
    assert [op][1..] == [];
    LockedCurrent(s, op);
  }

  lemma LockedCurrent(s: State, op: Runs.Op)
    requires Runs.Good(s) && s.lock > 0 && (op.Unlock? ==> s.lock > 1)
    ensures Runs.Step(s, op).current == s.current
    ensures Runs.Step(s, op).lock == s.lock + (if op.Lock? then 1 else if op.Unlock? then -1 else 0)
  {
    hide WF, Insert, Remove, Unlink, Highest;
    match op
    case Fail(k) =>
      MembersKnown(s, k);
      Runs.ResumeEachGood(s, At(s, Wait(k)));
      EachCurrent(s, At(s, Wait(k)));
    case _ => OneCurrent(s, op);
  }

  lemma OneCurrent(s: State, op: Runs.Op)
    requires s.lock > 0 && !op.Fail? && (op.Unlock? ==> s.lock > 1)
    ensures Runs.Step(s, op).current == s.current
    ensures Runs.Step(s, op).lock == s.lock + (if op.Lock? then 1 else if op.Unlock? then -1 else 0)
  {
    hide Highest, Switch, Without, InsertAt, Place;
  }

  lemma {:induction false} EachCurrent(s: State, q: seq<Tid>)
    ensures ResumeEach(s, q).current == s.current
    decreases |q|
  {
    if q != [] { EachCurrent(Resume(SetError(s, q[0], ERROR), q[0]), q[1..]); }
  }

  /** Through every run that stays inside the outermost critical section the level is that of the enters not yet left, and
      the thread that entered keeps the processor. */
  lemma {:induction false} InsideRun(s: State, ops: seq<Runs.Op>)
    requires Runs.Good(s) && StaysInside(s.lock, ops)
    ensures Runs.Steps(s, ops).lock == s.lock + Net(ops) && Runs.Steps(s, ops).current == s.current
    decreases |ops|
  {
    if ops != [] {
      hide WF, Runs.Step;
      assert ops[..1] == [ops[0]] && [ops[0]][1..] == [];
      assert StaysInside(s.lock + Net([ops[0]]), ops[1..]);
      InsideStep(s, ops[0]);
      Runs.StepGood(s, ops[0]);
      InsideRun(Runs.Step(s, ops[0]), ops[1..]);
    }
  }

  /** As many exits as enters, and not one fewer, bring the scheduler back: the exit that follows a run inside the
      section is a call of the scheduler if and only if every enter but the outermost has been left. */
  lemma LastExitSchedules(s: State, ops: seq<Runs.Op>)
    requires Runs.Good(s) && StaysInside(s.lock, ops)
    ensures var (y, level) := (Runs.Steps(s, ops), s.lock + Net(ops));
            && (level == 1 ==> Exit(y) == Schedule(y.(lock := 0)))
            && (level > 1 ==> Exit(y).current == s.current && Exit(y).lock == level - 1)
    ensures s.lock + Net(ops) > 0
  {
    InsideRun(s, ops);
    InsideLevel(s.lock, ops);
    Runs.RunGood(s, ops);
    CurrentThere(Runs.Steps(s, ops));
    hide Runs.Steps, Schedule, WF;
  }

  lemma CurrentThere(s: State)
    requires Runs.Good(s)
    ensures s.current != NO_THREAD
  {
  }

  lemma NetFirst(ops: seq<Runs.Op>)
    requires ops != []
    ensures Net(ops) == Net([ops[0]]) + Net(ops[1..])
  {
    assert [ops[0]][1..] == [];
  }

  lemma {:induction false} InsideLevel(depth: int, ops: seq<Runs.Op>)
    requires StaysInside(depth, ops)
    ensures depth + Net(ops) > 0
    decreases |ops|
  {
    if ops != [] {
      assert ops[..1] == [ops[0]] && [ops[0]][1..] == [];
      NetFirst(ops);
      InsideLevel(depth + Net(ops[..1]), ops[1..]);
    }
  }
}
