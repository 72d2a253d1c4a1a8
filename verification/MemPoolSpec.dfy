/** The fixed-block memory pool of mempool.c: free blocks form a chain, callers that find none wait, the last one to
    come first. */
module MemPoolSpec {
  import opened Rings
  import opened Sched
  import opened SchedLaws
  import opened WaitQueue
  import opened Wakeups

  /** Blocks are numbered from the start of the pool. `free` is the chain in link order, `waits` is
      suspend_thread_count. */
  datatype Pool = Pool(total: nat, free: seq<nat>, used: set<nat>, freeCount: nat, waits: int)

  /** A system around one pool whose callers wait on list k. `takes` are the threads inside an allocation that had to
      block; `expired` counts the waits that ended in a timeout. `broken` says that a free has followed the list head
      as if it were a thread. */
  datatype Sys = Sys(s: State, pool: Pool, takes: map<Tid, int>, expired: nat, broken: bool)

  datatype Op = Alloc(time: int) | AllocOn(left: int) | Release(block: nat) | Timeout(t: Tid) | Yield

  predicate Free(x: Sys) {
    Runs(x.s) && x.s.current !in x.takes && x.s.lock == 0
  }

  predicate Resumed(x: Sys) {
    Runs(x.s) && x.s.current in x.takes && x.s.lock == 0
  }

  /** The current thread goes to the front of the wait list. */
  function AwaitFront(s: State, k: nat, time: int): State {
    var t := s.current;
    var s1 := Link(Suspend(SetError(s, t, EOK), t), Wait(k), 0, t);
    Schedule(if time > 0 then Arm(s1, t) else s1)
  }

  /** The loop of rt_mp_alloc: wait, or take the first free block. */
  function Take(x: Sys, k: nat, time: int): Sys {
    var t := x.s.current;
    if x.pool.freeCount == 0 then
      if time == 0 then x.(takes := x.takes - {t})
      else x.(s := AwaitFront(x.s, k, time), pool := x.pool.(waits := x.pool.waits + 1), takes := x.takes[t := time])
    else if x.pool.free == [] then x
    else
      x.(pool := x.pool.(free := x.pool.free[1..], used := x.pool.used + {x.pool.free[0]}, freeCount := x.pool.freeCount - 1),
         takes := x.takes - {t})
  }

  function Step(x: Sys, k: nat, op: Op): Sys {
    var t := x.s.current;
    if x.broken then x
    else
      match op
      case Alloc(time) => if Free(x) then Take(x, k, time) else x
      case AllocOn(left) =>
        if !Resumed(x) || !Remaining(x.takes[t], left) then x
        else if x.s.threads[t].error != EOK then x.(takes := x.takes - {t})
        else Take(x, k, left)
      case Release(b) =>
        if b !in x.pool.used then x
        else
          var p := x.pool.(free := [b] + x.pool.free, used := x.pool.used - {b}, freeCount := x.pool.freeCount + 1);
          if x.pool.waits <= 0 then x.(pool := p)
          else if At(x.s, Wait(k)) == [] then x.(pool := p, broken := true)
          else x.(s := Notify(x.s, k), pool := p.(waits := x.pool.waits - 1))
      case Timeout(u) =>
        if u in x.s.threads && x.s.threads[u].stat == Suspended && x.s.threads[u].timer then
          x.(s := Schedule(Expire(x.s, u)), expired := if u in At(x.s, Wait(k)) then x.expired + 1 else x.expired)
        else x
      case Yield => x.(s := Schedule(x.s))
  }

  function Steps(x: Sys, k: nat, ops: seq<Op>): Sys
    decreases |ops|
  {
    if ops == [] then x else Steps(Step(x, k, ops[0]), k, ops[1..])
  }

  /** Free and used blocks are all blocks, each exactly once. */
  ghost predicate Sound(p: Pool) {
    && Distinct(p.free) && p.freeCount == |p.free|
    && (forall b: nat :: b < p.total <==> b in p.free || b in p.used)
    && (forall b :: b in p.free ==> b !in p.used)
    && |p.free| + |p.used| == p.total
  }

  /** suspend_thread_count counts the waiters and, besides, every wait that has timed out. */
  ghost predicate Inv(x: Sys, k: nat) {
    && WF(x.s) && x.s.current != NO_THREAD && Sound(x.pool)
    && (x.broken ==> x.expired > 0)
    && (!x.broken ==> Solo(x.s, k, x.takes.Keys, x.pool.freeCount) && x.pool.waits == |At(x.s, Wait(k))| + x.expired)
  }

  // ----- steps

  lemma FrontFacts(s: State, k: nat, time: int)
    requires WF(s) && Runs(s)
    ensures var t := s.current;
            var s1 := Link(Suspend(SetError(s, t, EOK), t), Wait(k), 0, t);
            var s2 := if time > 0 then Arm(s1, t) else s1;
            && WF(s2) && s2.current == t && s2.lock == s.lock && t != NO_THREAD
            && t in s2.threads && s2.threads == s.threads[t := s2.threads[t]]
            && s2.threads[t].error == EOK && s2.threads[t].stat == Suspended
            && At(s2, Wait(k)) == InsertAt(At(s, Wait(k)), 0, t) && t !in At(s, Wait(k))
  {
    hide WF, Suspend, Loose, InsertAt;
    var t := s.current;
    NotNull(s, t);
    NotWaiting(s, t, k);
    MarkFacts(s, t, s.threads[t].(error := EOK));
    var s0 := SetError(s, t, EOK);
    SuspendWF(s0, t);
    SuspendWaits(s0, t);
    LinkWF(Suspend(s0, t), Wait(k), 0, t);
    var s1 := Link(Suspend(s0, t), Wait(k), 0, t);
    LinkAt(Suspend(s0, t), Wait(k), 0, t, Wait(k));
    MarkFacts(s1, t, s1.threads[t].(timer := true));
  }

  lemma FrontWaits(s: State, k: nat, time: int, pending: set<Tid>)
    requires WF(s) && Runs(s) && Solo(s, k, pending, 0)
    ensures var s' := AwaitFront(s, k, time);
            && WF(s') && s'.current != NO_THREAD && Solo(s', k, pending + {s.current}, 0)
            && |At(s', Wait(k))| == |At(s, Wait(k))| + 1
  {
    hide WF, Schedule, Side, Woken, Quiet, Suspend, Link;
    var t, q := s.current, At(s, Wait(k));
    FrontFacts(s, k, time);
    var s1 := Link(Suspend(SetError(s, t, EOK), t), Wait(k), 0, t);
    var s2 := if time > 0 then Arm(s1, t) else s1;
    BlockSide(s.threads, s2.threads, q, 0, pending, t);
    ScheduleFacts(s2);
    QuietSide(s2.threads, Schedule(s2).threads, InsertAt(q, 0, t), pending + {t});
  }

  lemma TakeSound(p: Pool)
    requires Sound(p) && p.freeCount > 0
    ensures p.free != []
    ensures Sound(p.(free := p.free[1..], used := p.used + {p.free[0]}, freeCount := p.freeCount - 1))
  {
    var b := p.free[0];
    assert b in p.free;
    RestDistinct(p.free);
    assert |p.used + {b}| == |p.used| + 1;
    hide Distinct;
  }

  lemma ReleaseSound(p: Pool, b: nat)
    requires Sound(p) && b in p.used
    ensures Sound(p.(free := [b] + p.free, used := p.used - {b}, freeCount := p.freeCount + 1))
    ensures b < p.total
  {
    assert |p.used - {b}| == |p.used| - 1;
  }

  lemma SoundWaits(p: Pool, n: int)
    requires Sound(p)
    ensures Sound(p.(waits := n))
  {
  }

  lemma TakeInv(x: Sys, k: nat, time: int)
    requires Inv(x, k) && Runs(x.s) && !x.broken
    ensures Inv(Take(x, k, time), k)
  {
    hide WF, Sound, Solo, AwaitFront;
    var t, y := x.s.current, Take(x, k, time);
    if x.pool.freeCount == 0 && time == 0 {
      SoloLeaves(x.s, k, x.takes.Keys, 0, x.s.threads[t].error);
      SameThread(x.s, t);
      assert y.takes.Keys == x.takes.Keys - {t};
    } else if x.pool.freeCount == 0 {
      FrontWaits(x.s, k, time, x.takes.Keys);
      SoundWaits(x.pool, x.pool.waits + 1);
      assert y.takes.Keys == x.takes.Keys + {t};
    } else {
      SoloTakes(x.s, k, x.takes.Keys, x.pool.freeCount);
      TakeSound(x.pool);
      assert y.takes.Keys == x.takes.Keys - {t};
    }
  }

  lemma ReleaseInv(x: Sys, k: nat, b: nat)
    requires Inv(x, k) && !x.broken && b in x.pool.used
    ensures Inv(Step(x, k, Release(b)), k)
    ensures Step(x, k, Release(b)).broken <==> x.expired > 0 && At(x.s, Wait(k)) == []
  {
    hide WF, Sound, Notify, Side, Woken;
    ReleaseSound(x.pool, b);
    SoundWaits(x.pool.(free := [b] + x.pool.free, used := x.pool.used - {b}, freeCount := x.pool.freeCount + 1), x.pool.waits - 1);
    if At(x.s, Wait(k)) != [] {
      SoloPosts(x.s, k, x.takes.Keys, x.pool.freeCount);
      NotifyFacts(x.s, k);
    }
  }

  lemma TimeoutInv(x: Sys, k: nat, u: Tid)
    requires Inv(x, k) && !x.broken && u in x.s.threads && x.s.threads[u].stat == Suspended
    ensures Inv(Step(x, k, Timeout(u)), k)
  {
    hide WF, Sound, Solo, Schedule, Expire;
    SoloTimeout(x.s, k, x.takes.Keys, x.pool.freeCount, u);
    ExpireFacts(x.s, u);
    ScheduleFacts(Expire(x.s, u));
    WithoutLength(At(x.s, Wait(k)), u);
  }

  lemma WithoutLength(q: seq<Tid>, t: Tid)
    ensures |Without(q, t)| == if t in q then |q| - 1 else |q|
  {
  }

  lemma StepInv(x: Sys, k: nat, op: Op)
    requires Inv(x, k)
    ensures Inv(Step(x, k, op), k)
  {
    if !x.broken {
      match op
      case Alloc(time) => if Free(x) { TakeInv(x, k, time); }
      case AllocOn(left) =>
        if Resumed(x) {
          if x.s.threads[x.s.current].error != EOK { GiveUpInv(x, k); } else { TakeInv(x, k, left); }
        }
      case Release(b) => if b in x.pool.used { ReleaseInv(x, k, b); }
      case Timeout(u) => if u in x.s.threads && x.s.threads[u].stat == Suspended { TimeoutInv(x, k, u); }
      case Yield => YieldInv(x, k);
    }
  }

  lemma GiveUpInv(x: Sys, k: nat)
    requires Inv(x, k) && Runs(x.s) && x.s.threads[x.s.current].error != EOK && !x.broken
    ensures Inv(x.(takes := x.takes - {x.s.current}), k)
  {
    hide WF, Sound, Solo;
    var t := x.s.current;
    SoloLeaves(x.s, k, x.takes.Keys, x.pool.freeCount, x.s.threads[t].error);
    SameThread(x.s, t);
    assert (x.takes - {t}).Keys == x.takes.Keys - {t};
  }

  lemma YieldInv(x: Sys, k: nat)
    requires Inv(x, k) && !x.broken
    ensures Inv(x.(s := Schedule(x.s)), k)
  {
    hide WF, Sound, Solo, Schedule;
    SoloSchedules(x.s, k, x.takes.Keys, x.pool.freeCount);
    ScheduleFacts(x.s);
  }

  lemma {:induction false} RunInv(x: Sys, k: nat, ops: seq<Op>)
    requires Inv(x, k)
    ensures Inv(Steps(x, k, ops), k)
    decreases |ops|
  {
    if ops != [] {
      StepInv(x, k, ops[0]);
      hide Inv, Step;
      RunInv(Step(x, k, ops[0]), k, ops[1..]);
    }
  }

  // ----- results

  /** rt_mp_init chains the blocks in address order. */
  function Forwards(n: nat): (r: seq<nat>)
    ensures |r| == n && forall i :: 0 <= i < n ==> r[i] == i
  {
    seq(n, i requires 0 <= i < n => i)
  }

  ghost predicate Fresh(x: Sys, k: nat, total: nat) {
    && WF(x.s) && x.s.current != NO_THREAD && At(x.s, Wait(k)) == []
    && x.pool == Pool(total, Forwards(total), {}, total, 0) && x.takes == map[] && x.expired == 0 && !x.broken
  }

  lemma FreshInv(x: Sys, k: nat, total: nat)
    requires Fresh(x, k, total)
    ensures Inv(x, k)
  {
    hide WF;
    forall b: nat | b < total ensures b in Forwards(total) { assert Forwards(total)[b] == b; }
  }

  /** In every run: a block is either on the chain, once, or handed out, and block_free_count is the length of the
      chain. */
  lemma BlocksConserved(x: Sys, k: nat, total: nat, ops: seq<Op>)
    requires Fresh(x, k, total)
    ensures var p := Steps(x, k, ops).pool;
            Distinct(p.free) && p.freeCount == |p.free| && |p.free| + |p.used| == p.total
            && (forall b :: b in p.free ==> b !in p.used)
  {
    FreshInv(x, k, total);
    RunInv(x, k, ops);
    hide WF, Steps, Solo;
  }

  /** suspend_thread_count is the length of the wait list exactly as long as no wait has timed out; while a thread
      waits, every free block has a thread already woken for it. */
  lemma CountIsRightIff(x: Sys, k: nat, total: nat, ops: seq<Op>)
    requires Fresh(x, k, total) && !Steps(x, k, ops).broken
    ensures var y := Steps(x, k, ops);
            && (y.pool.waits == |At(y.s, Wait(k))| <==> y.expired == 0)
            && (At(y.s, Wait(k)) != [] ==> y.pool.freeCount <= |Woken(y.s.threads, At(y.s, Wait(k)), y.takes.Keys)|)
  {
    FreshInv(x, k, total);
    RunInv(x, k, ops);
    hide WF, Steps, Side, Woken, Sound;
  }

  /** A free takes the list head for a thread exactly when nobody waits and some wait has timed out before. */
  lemma ReleaseBreaksIff(x: Sys, k: nat, total: nat, ops: seq<Op>, b: nat)
    requires Fresh(x, k, total) && !Steps(x, k, ops).broken && b in Steps(x, k, ops).pool.used
    ensures var y := Steps(x, k, ops);
            Step(y, k, Release(b)).broken <==> y.expired > 0 && At(y.s, Wait(k)) == []
  {
    FreshInv(x, k, total);
    RunInv(x, k, ops);
    hide Inv, Steps, Step;
    ReleaseInv(Steps(x, k, ops), k, b);
  }

  // ----- the count does go wrong

  /** The chain is empty and nobody waits; the caller waits with a time limit, which runs out: from then on giving back
      any block follows the list head. */
  lemma TimedOutWaitBreaks(x: Sys, k: nat, time: int, b: nat)
    requires Inv(x, k) && !x.broken && Free(x) && time > 0
    requires x.pool.freeCount == 0 && At(x.s, Wait(k)) == [] && b in x.pool.used
    ensures var y := Step(Step(x, k, Alloc(time)), k, Timeout(x.s.current));
            !y.broken && y.expired == x.expired + 1 && Step(y, k, Release(b)).broken
  {
    hide WF, Sound, Solo, AwaitFront, Schedule, Expire, Notify;
    var t := x.s.current;
    var x1 := Step(x, k, Alloc(time));
    GoesToWait(x, k, time);
    StepInv(x, k, Alloc(time));
    var x2 := Step(x1, k, Timeout(t));
    ExpireFacts(x1.s, t);
    ScheduleFacts(Expire(x1.s, t));
    assert At(x2.s, Wait(k)) == [] && x2.pool == x1.pool;
    StepInv(x1, k, Timeout(t));
    ReleaseInv(x2, k, b);
  }

  lemma GoesToWait(x: Sys, k: nat, time: int)
    requires WF(x.s) && Runs(x.s) && time > 0 && At(x.s, Wait(k)) == []
    ensures var s', t := AwaitFront(x.s, k, time), x.s.current;
            At(s', Wait(k)) == [t] && t in s'.threads && s'.threads[t].stat == Suspended && s'.threads[t].timer
  {
    hide WF, Schedule, Suspend, Link;
    var t := x.s.current;
    FrontFacts(x.s, k, time);
    var s2 := Arm(Link(Suspend(SetError(x.s, t, EOK), t), Wait(k), 0, t), t);
    ScheduleFacts(s2);
    assert t in s2.threads.Keys;
    assert t in Schedule(s2).threads.Keys;
  }

  lemma StepsFirst(x: Sys, k: nat, op: Op, ops: seq<Op>)
    ensures Steps(x, k, [op] + ops) == Steps(Step(x, k, op), k, ops)
  {
    assert ([op] + ops)[1..] == ops;
  }

  /** It happens from any newly made pool of one block: take the block, wait for another until the limit has passed,
      give the block back. */
  lemma CountGoesWrong(x: Sys, k: nat, time: int)
    requires Fresh(x, k, 1) && Free(x) && time > 0
    ensures var ops := [Alloc(0)] + ([Alloc(time)] + ([Timeout(x.s.current)] + []));
            !Steps(x, k, ops).broken && Steps(x, k, ops).expired == 1 && Step(Steps(x, k, ops), k, Release(0)).broken
  {
    var t, x1 := x.s.current, Step(x, k, Alloc(0));
    FreshInv(x, k, 1);
    StepInv(x, k, Alloc(0));
    assert Free(x1) && x1.expired == 0 && 0 in x1.pool.used;
    hide Step, Inv, Free, Fresh;
    TimedOutWaitBreaks(x1, k, time, 0);
    StepsFirst(x, k, Alloc(0), [Alloc(time)] + ([Timeout(t)] + []));
    StepsFirst(x1, k, Alloc(time), [Timeout(t)] + []);
    StepsFirst(Step(x1, k, Alloc(time)), k, Timeout(t), []);
  }

  /** Such a pool: one thread, of priority 5, runs. */
  const ALONE := Sys(State(map[1 := Thread(Running, 5, 5, BitScan.Mask(5), EOK, false)], map[], 0, 1, 0),
                     Pool(1, Forwards(1), {}, 1, 0), map[], 0, false)

  lemma AlonePoolBreaks()
    ensures Fresh(ALONE, 0, 1) && Free(ALONE)
    ensures Steps(ALONE, 0, [Alloc(0), Alloc(10), Timeout(1), Release(0)]).broken
  {
    hide WF, Step;
    FirstStartWF(ALONE.s.threads, 1);
    CountGoesWrong(ALONE, 0, 10);
    var ops := [Alloc(0)] + ([Alloc(10)] + ([Timeout(1)] + []));
    StepsLast(ALONE, 0, ops, Release(0));
    assert ops + [Release(0)] == [Alloc(0), Alloc(10), Timeout(1), Release(0)];
  }

  lemma {:induction false} StepsLast(x: Sys, k: nat, ops: seq<Op>, op: Op)
    ensures Steps(x, k, ops + [op]) == Step(Steps(x, k, ops), k, op)
    decreases |ops|
  {
    hide Step;
    if ops == [] {
      StepsFirst(x, k, op, []);
    } else {
      StepsLast(Step(x, k, ops[0]), k, ops[1..], op);
      assert ops + [op] == [ops[0]] + (ops[1..] + [op]);
      StepsFirst(x, k, ops[0], ops[1..] + [op]);
    }
  }
}
