/** The semaphore of ipc.c as a state machine: a release goes to the first waiter or into the value. */
module SemaphoreSpec {
  import opened Rings
  import opened Sched
  import opened SchedLaws
  import opened WaitQueue
  import opened Wakeups

  /** `pending` are the threads inside a take that had to block, `granted` the takes that have returned RT_EOK. */
  datatype Sys = Sys(s: State, value: nat, pending: set<Tid>, granted: nat, releases: nat)

  datatype Op = Take(time: int) | Return | Release | Timeout(t: Tid) | Yield

  predicate Free(x: Sys) {
    Runs(x.s) && x.s.current !in x.pending && x.s.lock == 0
  }

  function Step(x: Sys, k: nat, flag: Flag, op: Op): Sys {
    var t := x.s.current;
    match op
    case Take(time) =>
      if !Free(x) then x
      else if x.value > 0 then x.(value := x.value - 1, granted := x.granted + 1)
      else if time == 0 then x
      else x.(s := Await(x.s, k, flag, time), pending := x.pending + {t})
    case Return =>
      if t !in x.pending || !Runs(x.s) then x
      else x.(pending := x.pending - {t}, granted := if x.s.threads[t].error == EOK then x.granted + 1 else x.granted)
    case Release =>
      if At(x.s, Wait(k)) != [] then x.(s := Notify(x.s, k), releases := x.releases + 1)
      else x.(value := x.value + 1, releases := x.releases + 1)
    case Timeout(u) =>
      if u in x.s.threads && x.s.threads[u].stat == Suspended && x.s.threads[u].timer then x.(s := Schedule(Expire(x.s, u))) else x
    case Yield => x.(s := Schedule(x.s))
  }

  function Steps(x: Sys, k: nat, flag: Flag, ops: seq<Op>): Sys
    decreases |ops|
  {
    if ops == [] then x else Steps(Step(x, k, flag, ops[0]), k, flag, ops[1..])
  }

  /** Every unit is in the value, with a thread that was woken for it, or in a take that has returned. */
  ghost predicate Inv(x: Sys, k: nat, initial: nat) {
    && WF(x.s) && x.s.current != NO_THREAD && Side(x.s.threads, At(x.s, Wait(k)), x.pending)
    && x.value + x.granted + |Woken(x.s.threads, At(x.s, Wait(k)), x.pending)| == initial + x.releases
    && (At(x.s, Wait(k)) != [] ==> x.value == 0)
  }

  lemma WakeCount(s: State, k: nat, pending: set<Tid>)
    requires WF(s) && s.current != NO_THREAD && At(s, Wait(k)) != [] && Side(s.threads, At(s, Wait(k)), pending)
    ensures var s' := Notify(s, k);
            |Woken(s'.threads, At(s', Wait(k)), pending)| == |Woken(s.threads, At(s, Wait(k)), pending)| + 1
  {
    hide WF, Schedule, ListResume, Side, Woken, Quiet;
    var q := At(s, Wait(k));
    ListResumeFacts(s, k);
    var s1 := ListResume(s, k);
    WakeSide(s.threads, s1.threads, q, pending);
    ScheduleFacts(s1);
    QuietSide(s1.threads, Schedule(s1).threads, q[1..], pending);
  }

  lemma AwaitCount(s: State, k: nat, flag: Flag, time: int, pending: set<Tid>)
    requires WF(s) && Runs(s) && s.current !in pending && Side(s.threads, At(s, Wait(k)), pending)
    ensures var s' := Await(s, k, flag, time);
            Woken(s'.threads, At(s', Wait(k)), pending + {s.current}) == Woken(s.threads, At(s, Wait(k)), pending)
  {
    hide WF, ListSuspend, Schedule, Side, Quiet, Arm, InsertAt;
    var t, q := s.current, At(s, Wait(k));
    AwaitFacts(s, k, flag, time);
    var s1 := ListSuspend(SetError(s, t, EOK), k, t, flag);
    var s2 := if time > 0 then Arm(s1, t) else s1;
    var i :| 0 <= i <= |q| && At(s2, Wait(k)) == InsertAt(q, i, t);
    BlockSide(s.threads, s2.threads, q, i, pending, t);
    ScheduleFacts(s2);
    QuietSide(s2.threads, Schedule(s2).threads, InsertAt(q, i, t), pending + {t});
    assert t !in Woken(s.threads, q, pending);
  }

  lemma ReturnInv(x: Sys, k: nat, flag: Flag, initial: nat)
    requires Inv(x, k, initial)
    ensures Inv(Step(x, k, flag, Return), k, initial)
  {
    hide WF;
    var t := x.s.current;
    if t in x.pending && Runs(x.s) {
      NotWaiting(x.s, t, k);
      LeaveSide(x.s.threads, At(x.s, Wait(k)), x.pending, t);
      var w := Woken(x.s.threads, At(x.s, Wait(k)), x.pending);
      assert t in w <==> x.s.threads[t].error == EOK;
      assert t !in w ==> w - {t} == w;
    }
  }

  lemma StepInv(x: Sys, k: nat, flag: Flag, initial: nat, op: Op)
    requires Inv(x, k, initial)
    ensures Inv(Step(x, k, flag, op), k, initial)
  {
    hide WF, Schedule, Expire, Await, Notify, Side, Woken;
    match op
    case Take(time) =>
      if Free(x) && x.value == 0 && time != 0 {
        AwaitKeeps(x.s, k, flag, time);
        AwaitSide(x.s, k, flag, time, x.pending);
        AwaitCount(x.s, k, flag, time, x.pending);
      } else if Free(x) && x.value > 0 {
        assert At(x.s, Wait(k)) == [];
      }
    case Return => ReturnInv(x, k, flag, initial);
    case Release =>
      if At(x.s, Wait(k)) != [] {
        NotifyFacts(x.s, k);
        NotifySide(x.s, k, x.pending, |Woken(x.s.threads, At(x.s, Wait(k)), x.pending)|);
        WakeCount(x.s, k, x.pending);
      }
    case Timeout(u) =>
      if u in x.s.threads && x.s.threads[u].stat == Suspended { TimeoutSide(x.s, k, x.pending, u); }
    case Yield => ScheduleSide(x.s, k, x.pending);
  }

  lemma {:induction false} RunInv(x: Sys, k: nat, flag: Flag, initial: nat, ops: seq<Op>)
    requires Inv(x, k, initial)
    ensures Inv(Steps(x, k, flag, ops), k, initial)
    decreases |ops|
  {
    if ops != [] {
      StepInv(x, k, flag, initial, ops[0]);
      hide Inv, Step;
      RunInv(Step(x, k, flag, ops[0]), k, flag, initial, ops[1..]);
    }
  }

  /** Over every run of a new semaphore no unit is lost or made up, never more takes succeed than units exist, and
      while a thread waits the value is zero. */
  lemma Conserves(x: Sys, k: nat, flag: Flag, ops: seq<Op>)
    requires WF(x.s) && x.s.current != NO_THREAD && At(x.s, Wait(k)) == []
    requires x.pending == {} && x.granted == 0 && x.releases == 0
    ensures var y := Steps(x, k, flag, ops);
            && y.value + y.granted + |Woken(y.s.threads, At(y.s, Wait(k)), y.pending)| == x.value + y.releases
            && y.value + y.granted <= x.value + y.releases
            && (At(y.s, Wait(k)) != [] ==> y.value == 0)
  {
    assert Inv(x, k, x.value) by { hide WF; assert Woken(x.s.threads, [], x.pending) == {}; }
    RunInv(x, k, flag, x.value, ops);
    hide WF, Steps, Woken, Side;
  }
}

/** The semaphore object of ipc.c, changed in place. */
module SemaphoreObject {
  import opened Sched
  import opened SchedLaws
  import opened WaitQueue
  import opened Wakeups
  import opened SemaphoreSpec
  import opened SemaphoreAnswers
  import opened Scheduler
  import Blocking

  datatype Outcome = Taken | TimedOut | Blocked

  class Semaphore {
    const kernel: Kernel
    const queue: nat
    const flag: Flag
    var value: nat

    /** rt_sem_init */
    constructor (kernel: Kernel, queue: nat, value: nat, flag: Flag)
      ensures this.kernel == kernel && this.queue == queue && this.flag == flag && this.value == value
    {
      this.kernel, this.queue, this.flag, this.value := kernel, queue, flag, value;
    }

    /** The system around this semaphore is x. */
    ghost predicate Stands(x: Sys, initial: nat)
      reads this, kernel
    {
      kernel.Valid() && queue < kernel.objects && x.s == kernel.Abs() && x.value == value && Inv(x, queue, initial)
    }

    /** rt_sem_take, up to the point where a thread that had to wait runs again. */
    method Take(time: int, ghost x: Sys, ghost initial: nat) returns (r: Outcome)
      requires Stands(x, initial) && Free(x)
      modifies this, kernel
      ensures Stands(Step(x, queue, flag, Op.Take(time)), initial)
      ensures r == Taken <==> Succeeds(x, Op.Take(time))
      ensures r == if x.value > 0 then Taken else if time == 0 then TimedOut else Blocked
    {
      hide WF, Await, Side, Woken, Kernel.Shaped;
      StepInv(x, queue, flag, initial, Op.Take(time));
      if value > 0 {
        value := value - 1;
        return Taken;
      }
      if time == 0 { return TimedOut; }
      Blocking.Suspend(kernel, queue, flag, time);
      return Blocked;
    }

    /** The end of rt_sem_take in a thread that had to wait. */
    method TakeReturns(ghost x: Sys, ghost initial: nat) returns (e: Error)
      requires Stands(x, initial) && x.s.current in x.pending && Runs(x.s)
      ensures Stands(Step(x, queue, flag, Return), initial)
      ensures e == EOK <==> Succeeds(x, Return)
      ensures e == x.s.threads[x.s.current].error
    {
      hide WF, Side, Woken, Kernel.Shaped;
      StepInv(x, queue, flag, initial, Return);
      e := kernel.threads[kernel.current].error;
    }

    /** rt_sem_release */
    method Release(ghost x: Sys, ghost initial: nat)
      requires Stands(x, initial)
      modifies this, kernel
      ensures Stands(Step(x, queue, flag, Op.Release), initial)
    {
      hide WF, Notify, Side, Woken, Kernel.Shaped;
      StepInv(x, queue, flag, initial, Op.Release);
      kernel.WaitList(queue);
      var empty := kernel.IsEmpty(Wait(queue));
      if !empty {
        Blocking.WakeFirst(kernel, queue);
      } else {
        value := value + 1;
      }
    }
  }
}
