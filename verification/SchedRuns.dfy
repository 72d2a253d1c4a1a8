/** The ready structure over whole runs of thread and scheduler operations. */
module SchedRuns {
  import opened BitScan
  import opened Rings
  import opened Sched
  import opened SchedLaws
  import opened WaitQueue

  datatype Op =
    | Begin(t: Tid)
    | Yield
    | Pause(t: Tid)
    | Unpause(t: Tid)
    | Expires(t: Tid)
    | Reprioritise(t: Tid, p: nat)
    | Finish(t: Tid, keep: bool)
    | Block(k: nat, flag: Flag)
    | Wake(k: nat)
    | Fail(k: nat)
    | Lock
    | Unlock

  /** One call, with the call of the scheduler the source makes at its end. A call whose assertions do not hold
      changes nothing. */
  function Step(s: State, op: Op): State {
    match op
    case Begin(t) => if t in s.threads && s.threads[t].stat == Init then Schedule(Startup(s, t)) else s
    case Yield => Schedule(s)
    case Pause(t) => if t in s.threads then Suspend(s, t) else s
    case Unpause(t) => if t in s.threads then Resume(s, t) else s
    case Expires(t) => if t in s.threads && s.threads[t].stat == Suspended then Schedule(Expire(s, t)) else s
    case Reprioritise(t, p) => if t in s.threads && p < PRIORITY_MAX then ChangePriority(s, t, p) else s
    case Finish(t, keep) =>
      if t !in s.threads then s
      else if t == s.current then Schedule(Close(s, t, keep)) else Close(s, t, keep)
    case Block(k, flag) =>
      if s.current in s.threads && s.threads[s.current].stat == Running then Schedule(ListSuspend(s, k, s.current, flag)) else s
    case Wake(k) => if At(s, Wait(k)) != [] then Schedule(ListResume(s, k)) else s
    case Fail(k) => Schedule(ResumeAll(s, k))
    case Lock => Enter(s)
    case Unlock => Exit(s)
  }

  function Steps(s: State, ops: seq<Op>): State
    decreases |ops|
  {
    if ops == [] then s else Steps(Step(s, ops[0]), ops[1..])
  }

  /** The operations that end in a call of the scheduler. */
  predicate Schedules(s: State, op: Op) {
    match op
    case Begin(t) => t in s.threads && s.threads[t].stat == Init
    case Yield => true
    case Expires(t) => t in s.threads && s.threads[t].stat == Suspended
    case Finish(t, _) => t == s.current
    case Block(_, _) => s.current in s.threads && s.threads[s.current].stat == Running
    case Wake(k) => At(s, Wait(k)) != []
    case Fail(_) => true
    case Unlock => s.lock <= 1
    case _ => false
  }

  /** There is a thread to run: the current one or a ready one. */
  ghost predicate Runs(s: State) {
    exists t :: t in s.threads && (s.threads[t].stat == Running || s.threads[t].stat == Runnable)
  }

  /** Started, and consistent. */
  ghost predicate Good(s: State) {
    WF(s) && s.current != NO_THREAD
  }

  lemma ScheduleGood(s: State)
    requires Good(s)
    ensures Good(Schedule(s)) && Schedule(s).lock == s.lock
    ensures s.lock == 0 && Runs(Schedule(s)) ==> Urgent(Schedule(s))
  {
    ScheduleFacts(s);
    hide WF, Switch, Highest, Ffs, Quiet;
    if s.lock == 0 {
      ScheduleUrgent(s);
      if Runs(Schedule(s)) && !Urgent(Schedule(s)) { Idles(s); }
    }
  }

  /** With nothing to run the scheduler changes nothing. */
  lemma Idles(s: State)
    requires Good(s) && s.threads[s.current].stat != Running
    requires forall t :: t in s.threads ==> s.threads[t].stat != Runnable
    ensures !Runs(Schedule(s))
  {
    HighestIs(s);
  }

  lemma {:induction false} ResumeEachGood(s: State, q: seq<Tid>)
    requires Good(s) && forall i :: 0 <= i < |q| ==> q[i] in s.threads
    ensures Good(ResumeEach(s, q)) && ResumeEach(s, q).lock == s.lock
    decreases |q|
  {
    if q != [] {
      hide WF, Resume;
      var s1 := SetError(s, q[0], ERROR);
      Known(s, q[0]);
      UpdateWF(s, q[0], s.threads[q[0]].(error := ERROR));
      ResumeGood(s1, q[0]);
      KeysHave(s, Resume(s1, q[0]), q);
      ResumeEachGood(Resume(s1, q[0]), q[1..]);
    }
  }

  lemma KeysHave(s: State, s': State, q: seq<Tid>)
    requires s'.threads.Keys == s.threads.Keys && q != [] && forall i :: 0 <= i < |q| ==> q[i] in s.threads
    ensures forall i :: 0 <= i < |q[1..]| ==> q[1..][i] in s'.threads
  {
    forall i | 0 <= i < |q[1..]| ensures q[1..][i] in s'.threads {
      var t := q[i + 1];
      assert t in s'.threads.Keys;
    }
  }

  lemma ResumeGood(s: State, t: Tid)
    requires Good(s) && t in s.threads
    ensures Good(Resume(s, t)) && Resume(s, t).threads.Keys == s.threads.Keys && Resume(s, t).lock == s.lock
  {
    ResumeWF(s, t);
    if s.threads[t].stat == Suspended {
      hide WF;
      ResumeFacts(s, t);
    }
  }

  /** Every call keeps the ready structure; one that ends in the scheduler, unlocked, leaves the most urgent
      thread running whenever there is a thread to run. */
  lemma StepGood(s: State, op: Op)
    requires Good(s)
    ensures Good(Step(s, op))
    ensures Schedules(s, op) && Step(s, op).lock == 0 && Runs(Step(s, op)) ==> Urgent(Step(s, op))
  {
    hide WF, Schedule, Startup, Suspend, Resume, Expire, ChangePriority, Close, ListSuspend, ListResume, ResumeEach, Runs, Urgent;
    CurrentKnown(s);
    match op
    case Begin(t) =>
      if Schedules(s, op) { BeginGood(s, t); ScheduleGood(Startup(s, t)); }
    case Yield => ScheduleGood(s);
    case Pause(t) => if t in s.threads { SuspendWF(s, t); }
    case Unpause(t) => if t in s.threads { ResumeGood(s, t); }
    case Expires(t) =>
      if Schedules(s, op) { ExpireFacts(s, t); ScheduleGood(Expire(s, t)); }
    case Reprioritise(t, p) =>
      if t in s.threads && p < PRIORITY_MAX { ChangePriorityFacts(s, t, p); }
    case Finish(t, keep) =>
      if t in s.threads {
        CloseGood(s, t, keep);
        if t == s.current { ScheduleGood(Close(s, t, keep)); }
      }
    case Block(k, flag) =>
      if Schedules(s, op) {
        ListSuspendFacts(s, k, s.current, flag);
        ScheduleGood(ListSuspend(s, k, s.current, flag));
      }
    case Wake(k) =>
      if Schedules(s, op) { ListResumeFacts(s, k); ScheduleGood(ListResume(s, k)); }
    case Fail(k) =>
      MembersKnown(s, k);
      ResumeEachGood(s, At(s, Wait(k)));
      ScheduleGood(ResumeAll(s, k));
    case Lock => LockGood(s, s.lock + 1);
    case Unlock =>
      LockGood(s, if s.lock > 1 then s.lock - 1 else 0);
      if s.lock <= 1 { ScheduleGood(s.(lock := 0)); }
  }

  lemma BeginGood(s: State, t: Tid)
    requires Good(s) && t in s.threads && s.threads[t].stat == Init
    ensures Good(Startup(s, t))
  {
    StartupWF(s, t);
  }

  lemma CloseGood(s: State, t: Tid, keep: bool)
    requires Good(s) && t in s.threads
    ensures Good(Close(s, t, keep))
  {
    CloseWF(s, t, keep);
  }

  lemma LockGood(s: State, n: nat)
    requires Good(s)
    ensures Good(s.(lock := n))
  {
    hide Distinct, Bit, Mask;
    assert forall id :: At(s.(lock := n), id) == At(s, id);
  }

  lemma {:induction false} RunGood(s: State, ops: seq<Op>)
    requires Good(s)
    ensures Good(Steps(s, ops))
    decreases |ops|
  {
    if ops != [] {
      StepGood(s, ops[0]);
      hide Good, Step;
      RunGood(Step(s, ops[0]), ops[1..]);
    }
  }

  /** In every state a run reaches: bit p of the group is set iff ready list p is not empty; a thread is READY iff
      it is on the ready list of its priority, where it occurs once, and then it is on no other list; the running
      thread is on no list. */
  lemma ReadyStructure(s: State, ops: seq<Op>)
    requires Good(s)
    ensures var r := Steps(s, ops);
            && (forall p: nat :: Bit(r.group, p) <==> At(r, Ready(p)) != [])
            && (forall p, t :: t in At(r, Ready(p)) <==> t in r.threads && r.threads[t].stat == Runnable && r.threads[t].prio == p)
            && (forall id :: Distinct(At(r, id)))
            && (forall a, b, t :: t in At(r, a) && t in At(r, b) ==> a == b)
            && (forall t :: t in r.threads && r.threads[t].stat == Running ==> t == r.current)
            && r.current in r.threads && (r.threads[r.current].stat == Running ==> forall id :: r.current !in At(r, id))
  {
    RunGood(s, ops);
    var r := Steps(s, ops);
    hide Steps, Bit;
    if r.threads[r.current].stat == Running {
      forall id ensures r.current !in At(r, id) { RunningLoose(r, id); }
    }
  }
}
