/** What each call on a memory pool answers: which block moves, who waits and who is woken. */
module MemPoolAnswers {
  import opened Rings
  import opened Sched
  import opened SchedLaws
  import opened WaitQueue
  import opened Wakeups
  import opened Waiting
  import opened MemPoolSpec

  /** The allocation that goes on in this step, with the time it may still wait. */
  datatype Call = Taking(left: int) | Nothing

  function Going(x: Sys, op: Op): Call {
    match op
    case Alloc(time) => if Free(x) then Taking(time) else Nothing
    case AllocOn(left) =>
      if Resumed(x) && Remaining(x.takes[x.s.current], left) && x.s.threads[x.s.current].error == EOK then Taking(left) else Nothing
    case _ => Nothing
  }

  /** An allocation that goes on: with a free block it gets the first of the chain; without, it gives up when it may not
      wait, and else waits ahead of all others. */
  lemma AllocAnswers(x: Sys, k: nat, op: Op)
    requires Inv(x, k) && !x.broken && Going(x, op).Taking?
    ensures var (y, t, c) := (Step(x, k, op), x.s.current, Going(x, op));
            && !y.broken && y.expired == x.expired
            && if x.pool.free != [] then
                 && y.s == x.s && y.takes == x.takes - {t} && y.pool.waits == x.pool.waits
                 && x.pool.free == [x.pool.free[0]] + y.pool.free && x.pool.free[0] !in x.pool.used
                 && y.pool.used == x.pool.used + {x.pool.free[0]} && y.pool.freeCount == x.pool.freeCount - 1
               else if c.left == 0 then y == x.(takes := x.takes - {t})
               else
                 && WaitsAt(x.s, y.s, k, 0, c.left) && y.takes == x.takes[t := c.left]
                 && y.pool == x.pool.(waits := x.pool.waits + 1)
  {
    hide WF, Solo, AwaitFront, WaitsAt;
    var c := Going(x, op);
    assert forall b :: b in x.pool.free ==> b !in x.pool.used;
    if x.pool.free != [] { assert x.pool.free[0] in x.pool.free; }
    FrontWaitsAt(x.s, k, c.left);
    assert x.s.current !in x.takes ==> x.takes - {x.s.current} == x.takes;
  }

  lemma FrontWaitsAt(s: State, k: nat, time: int)
    requires WF(s) && Runs(s)
    ensures WaitsAt(s, AwaitFront(s, k, time), k, 0, time)
  {
    hide WF, Schedule, Suspend, Link, InsertAt, Quiet;
    var t := s.current;
    FrontFacts(s, k, time);
    FrontRest(s, k, time);
    var s1 := Link(Suspend(SetError(s, t, EOK), t), Wait(k), 0, t);
    var s2 := if time > 0 then Arm(s1, t) else s1;
    ScheduleFacts(s2);
    QuietElse(s.threads, s2.threads, Schedule(s2).threads, t, t);
  }

  lemma FrontRest(s: State, k: nat, time: int)
    requires WF(s) && Runs(s)
    ensures var t := s.current;
            var s1 := Link(Suspend(SetError(s, t, EOK), t), Wait(k), 0, t);
            var s2 := if time > 0 then Arm(s1, t) else s1;
            && t in s2.threads && s2.threads[t] == s.threads[t].(stat := Suspended, error := EOK, timer := time > 0)
            && (forall j :: j != k ==> At(s2, Wait(j)) == At(s, Wait(j)))
  {
    hide WF, Remove, InsertAt;
    var t := s.current;
    MarkFacts(s, t, s.threads[t].(error := EOK));
    var s0 := SetError(s, t, EOK);
    SuspendWF(s0, t);
    SuspendWaits(s0, t);
  }

  /** A block handed out comes back as the first of the chain; the first waiter, if any is counted, is woken. */
  lemma ReleaseAnswers(x: Sys, k: nat, b: nat)
    requires Inv(x, k) && !x.broken && b in x.pool.used
    ensures var y := Step(x, k, Release(b));
            && y.pool.free == [b] + x.pool.free && y.pool.used == x.pool.used - {b} && y.pool.freeCount == x.pool.freeCount + 1
            && y.takes == x.takes && y.expired == x.expired && FirstWoken(x.s, y.s, k)
            && y.pool.waits == (if At(x.s, Wait(k)) == [] then x.pool.waits else x.pool.waits - 1)
  {
    hide WF, Sound, Solo, Notify, FirstWoken;
    NotifyWakes(x.s, k);
    NothingToWake(x.s, k);
  }

  lemma NothingToWake(s: State, k: nat)
    ensures At(s, Wait(k)) == [] ==> FirstWoken(s, s, k)
  {
  }

  /** A caller woken with an error ends its call; a timeout wakes its thread with one; no block moves. */
  lemma OtherAnswers(x: Sys, k: nat, op: Op)
    requires Inv(x, k) && !x.broken && (op.AllocOn? || op.Timeout? || op.Yield?) && Going(x, op) == Nothing
    ensures var (y, t) := (Step(x, k, op), x.s.current);
            && y.pool == x.pool && !y.broken
            && (op.AllocOn? && Resumed(x) && Remaining(x.takes[t], op.left) ==> y == x.(takes := x.takes - {t}))
            && (op.Timeout? ==>
                  && y.takes == x.takes
                  && (if MayExpire(x.s, op.t) then TimedOut(x.s, y.s, op.t) else y.s == x.s)
                  && y.expired == if MayExpire(x.s, op.t) && op.t in At(x.s, Wait(k)) then x.expired + 1 else x.expired)
  {
    hide WF, Sound, Solo, Schedule, Expire, TimedOut;
    if op.Timeout? && MayExpire(x.s, op.t) { ExpireTimesOut(x.s, op.t); }
  }
}
