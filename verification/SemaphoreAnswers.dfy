/** What each call of a semaphore answers, and the units it moves, counted from the answers alone. */
module SemaphoreAnswers {
  import opened Sched
  import opened SchedLaws
  import opened WaitQueue
  import opened Wakeups
  import opened Waiting
  import opened SemaphoreSpec

  /** A take by the running thread: it gets a unit when there is one, gives up when it may not wait, and else waits. */
  lemma TakeAnswers(x: Sys, k: nat, flag: Flag, initial: nat, time: int)
    requires Inv(x, k, initial) && Free(x)
    ensures var y := Step(x, k, flag, Take(time));
            if x.value > 0 then y.value == x.value - 1 && y.s == x.s && y.pending == x.pending
            else if time == 0 then y.value == 0 && y.s == x.s && y.pending == x.pending
            else y.value == 0 && WaitsOn(x.s, y.s, k, flag, time) && y.pending == x.pending + {x.s.current}
  {
    hide WF, Side, Woken, Await, WaitsOn;
    AwaitWaits(x.s, k, flag, time);
  }

  /** A release wakes the first waiter; only when nobody waits does the value grow. */
  lemma ReleaseAnswers(x: Sys, k: nat, flag: Flag, initial: nat)
    requires Inv(x, k, initial)
    ensures var y := Step(x, k, flag, Release);
            && FirstWoken(x.s, y.s, k) && y.pending == x.pending
            && y.value == if At(x.s, Wait(k)) == [] then x.value + 1 else x.value
  {
    hide WF, Side, Woken, Notify;
    NotifyWakes(x.s, k);
  }

  /** A thread switched back to inside its take ends it; no unit moves. A timeout and a yield move none either. */
  lemma OtherAnswers(x: Sys, k: nat, flag: Flag, initial: nat, op: Op)
    requires Inv(x, k, initial) && !op.Take? && !op.Release?
    ensures var y := Step(x, k, flag, op);
            && y.value == x.value
            && (op.Return? ==> y.s == x.s && y.pending == if Runs(x.s) then x.pending - {x.s.current} else x.pending)
            && (op.Timeout? ==> y.pending == x.pending && if MayExpire(x.s, op.t) then TimedOut(x.s, y.s, op.t) else y.s == x.s)
  {
    hide WF, Side, Woken, Schedule, Expire, TimedOut;
    if op.Timeout? && MayExpire(x.s, op.t) { ExpireTimesOut(x.s, op.t); }
    assert x.s.current !in x.pending ==> x.pending - {x.s.current} == x.pending;
  }

  // ----- units

  /** This step is the success of a take: at once, or after having waited. */
  predicate Succeeds(x: Sys, op: Op) {
    || (op.Take? && Free(x) && x.value > 0)
    || (op.Return? && x.s.current in x.pending && Runs(x.s) && x.s.threads[x.s.current].error == EOK)
  }

  function Successes(x: Sys, k: nat, flag: Flag, ops: seq<Op>): nat
    decreases |ops|
  {
    if ops == [] then 0
    else (if Succeeds(x, ops[0]) then 1 else 0) + Successes(Step(x, k, flag, ops[0]), k, flag, ops[1..])
  }

  function Releases(ops: seq<Op>): nat {
    if ops == [] then 0 else (if ops[0].Release? then 1 else 0) + Releases(ops[1..])
  }

  lemma {:induction false} CountsUnits(x: Sys, k: nat, flag: Flag, ops: seq<Op>)
    ensures var y := Steps(x, k, flag, ops);
            y.granted == x.granted + Successes(x, k, flag, ops) && y.releases == x.releases + Releases(ops)
    decreases |ops|
  {
    if ops != [] {
      CountsUnit(x, k, flag, ops[0]);
      hide Step, Succeeds;
      CountsUnits(Step(x, k, flag, ops[0]), k, flag, ops[1..]);
    }
  }

  lemma CountsUnit(x: Sys, k: nat, flag: Flag, op: Op)
    ensures var y := Step(x, k, flag, op);
            && y.granted == x.granted + (if Succeeds(x, op) then 1 else 0)
            && y.releases == x.releases + (if op.Release? then 1 else 0)
  {
    hide Await, Notify, Schedule, Expire;
  }

  /** Over every run of a new semaphore: value, successful takes and units on their way to woken threads add up to the
      initial value and the releases, and while a thread waits the value is zero. */
  lemma ConservesUnits(x: Sys, k: nat, flag: Flag, ops: seq<Op>)
    requires WF(x.s) && x.s.current != NO_THREAD && At(x.s, Wait(k)) == []
    requires x.pending == {} && x.granted == 0 && x.releases == 0
    ensures var y := Steps(x, k, flag, ops);
            && y.value + Successes(x, k, flag, ops) + |Woken(y.s.threads, At(y.s, Wait(k)), y.pending)| == x.value + Releases(ops)
            && (At(y.s, Wait(k)) != [] ==> y.value == 0)
  {
    hide WF, Steps, Woken;
    Conserves(x, k, flag, ops);
    CountsUnits(x, k, flag, ops);
  }
}
