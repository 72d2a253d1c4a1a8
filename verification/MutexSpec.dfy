/** The mutex of ipc.c with priority inheritance and hand-off, as a state machine over the sections that run
    with interrupts disabled. */
module MutexSpec {
  import opened Rings
  import opened Sched
  import opened WaitQueue

  datatype Mutex = Mutex(value: nat, owner: Tid, original: nat, hold: nat)

  const NO_PRIORITY := 0xFF

  /** rt_mutex_init */
  const FREE := Mutex(1, NO_THREAD, NO_PRIORITY, 0)

  datatype Outcome = Granted | TimedOut | Blocked

  /** A waiter lends the owner its priority when the owner is less urgent. */
  function Boost(s: State, owner: Tid, p: nat): State {
    if p < T(s, owner).prio then ChangePriority(s, owner, p) else s
  }

  /** rt_mutex_take by the current thread, up to its call of the scheduler. */
  function Take(s: State, m: Mutex, k: nat, flag: Flag, time: int): (State, Mutex, Outcome) {
    var t := s.current;
    var s0 := SetError(s, t, EOK);
    if m.owner == t then (s0, m.(hold := m.hold + 1), Granted)
    else if m.value > 0 then (s0, Mutex(m.value - 1, t, T(s0, t).prio, m.hold + 1), Granted)
    else if time == 0 then (SetError(s0, t, ETIMEOUT), m, TimedOut)
    else
      var s1 := ListSuspend(Boost(s0, m.owner, T(s0, t).prio), k, t, flag);
      (if time > 0 then Arm(s1, t) else s1, m, Blocked)
  }

  /** The owner gets its own priority back. */
  function Restore(s: State, t: Tid, original: nat): State {
    if original != T(s, t).prio then ChangePriority(s, t, original) else s
  }

  datatype Released = Refused | Kept | HandedOver | Freed

  /** rt_mutex_release by the current thread, up to its call of the scheduler. */
  function Release(s: State, m: Mutex, k: nat): (State, Mutex, Released) {
    var t := s.current;
    if t != m.owner then (SetError(s, t, ERROR), m, Refused)
    else if m.hold > 1 then (s, m.(hold := m.hold - 1), Kept)
    else
      var s1 := Restore(s, t, m.original);
      if At(s1, Wait(k)) == [] then (s1, Mutex(m.value + 1, NO_THREAD, NO_PRIORITY, 0), Freed)
      else
        var w := Head(s1, Wait(k));
        (ListResume(s1, k), Mutex(m.value, w, T(s1, w).prio, 1), HandedOver)
  }

  /** The system around one mutex whose waiters are on list k. `pending` are the threads inside a take that
      had to block. */
  datatype Sys = Sys(s: State, m: Mutex, pending: set<Tid>)

  datatype Op = Lock(time: int) | Unlock | Return | Timeout(t: Tid) | Yield | Sleep | Begin(t: Tid)

  /** The current thread runs, and not inside a blocked take. */
  predicate Free(x: Sys) {
    x.s.current in x.s.threads && x.s.threads[x.s.current].stat == Running && x.s.current !in x.pending && x.s.lock == 0
  }

  /** One step of any thread or of the timer; a step that is not possible changes nothing. */
  function Step(x: Sys, k: nat, flag: Flag, op: Op): Sys {
    var t := x.s.current;
    match op
    case Lock(time) =>
      if !Free(x) then x
      else
        var r := Take(x.s, x.m, k, flag, time);
        if r.2 == Blocked then Sys(Schedule(r.0), r.1, x.pending + {t}) else Sys(r.0, r.1, x.pending)
    case Unlock =>
      if !Free(x) then x
      else
        var r := Release(x.s, x.m, k);
        Sys(if r.2 == HandedOver then Schedule(r.0) else r.0, r.1, x.pending)
    case Return =>
      if t in x.s.threads && x.s.threads[t].stat == Running then x.(pending := x.pending - {t}) else x
    case Timeout(u) =>
      if u in x.s.threads && x.s.threads[u].stat == Suspended && x.s.threads[u].timer
      then x.(s := Schedule(Expire(x.s, u))) else x
    case Yield => x.(s := Schedule(x.s))
    case Sleep => if Free(x) then x.(s := Schedule(Arm(Suspend(x.s, t), t))) else x
    case Begin(u) =>
      if u in x.s.threads && x.s.threads[u].stat == Init then x.(s := Schedule(Startup(x.s, u))) else x
  }

  function Steps(x: Sys, k: nat, flag: Flag, ops: seq<Op>): Sys
    decreases |ops|
  {
    if ops == [] then x else Steps(Step(x, k, flag, ops[0]), k, flag, ops[1..])
  }

  // ----- what holds in every state

  /** Owner, value and hold say the same thing. */
  predicate Coherent(m: Mutex) {
    m.value <= 1 && (m.owner != NO_THREAD <==> m.value == 0) && (m.value == 0 <==> m.hold > 0)
  }

  predicate Ranked(th: Thread, base: nat, owns: bool) {
    base < PRIORITY_MAX && if th.stat == Init then th.initPrio == base else if owns then th.prio <= base else th.prio == base
  }

  /** Only the owner may have a priority other than its base, and then a more urgent one. */
  ghost predicate Lent(threads: map<Tid, Thread>, m: Mutex, base: map<Tid, nat>) {
    && (forall t :: t in threads ==> t in base && Ranked(threads[t], base[t], t == m.owner))
    && (m.owner != NO_THREAD ==> m.owner in threads && threads[m.owner].stat != Init && m.original == base[m.owner])
  }

  /** A blocked take that is no longer waiting without an error owns the mutex. */
  ghost predicate Settled(threads: map<Tid, Thread>, q: seq<Tid>, m: Mutex, pending: set<Tid>) {
    && (forall t :: t in q ==> t in pending)
    && (forall t :: t in pending && t !in q ==> t in threads && (threads[t].error == EOK ==> t == m.owner))
  }

  ghost predicate Waited(q: seq<Tid>, m: Mutex) {
    m.owner !in q && (q != [] ==> m.owner != NO_THREAD)
  }

  /** The owner is at least as urgent as every waiter. */
  ghost predicate Inherits(threads: map<Tid, Thread>, q: seq<Tid>, m: Mutex) {
    m.owner in threads ==> forall i :: 0 <= i < |q| ==> q[i] in threads && threads[m.owner].prio <= threads[q[i]].prio
  }

  ghost predicate Core(threads: map<Tid, Thread>, q: seq<Tid>, m: Mutex, pending: set<Tid>, flag: Flag, base: map<Tid, nat>) {
    && Coherent(m) && Lent(threads, m, base) && Settled(threads, q, m, pending) && Waited(q, m)
    && (flag == PRIO ==> Sorted(threads, q))
  }

  ghost predicate Inv(x: Sys, k: nat, flag: Flag, base: map<Tid, nat>) {
    WF(x.s) && x.s.current != NO_THREAD && Core(x.s.threads, At(x.s, Wait(k)), x.m, x.pending, flag, base)
  }

  ghost predicate Inheriting(x: Sys, k: nat) {
    Inherits(x.s.threads, At(x.s, Wait(k)), x.m)
  }

  /** This step hands the mutex to the first waiter. */
  predicate HandsOver(x: Sys, k: nat, op: Op) {
    op == Unlock && Free(x) && x.s.current == x.m.owner && x.m.hold <= 1 && At(x.s, Wait(k)) != []
  }

  /** The first waiter is at least as urgent as the others. */
  ghost predicate HeadMostUrgent(threads: map<Tid, Thread>, q: seq<Tid>) {
    forall i :: 0 <= i < |q| ==> q[0] in threads && q[i] in threads && threads[q[0]].prio <= threads[q[i]].prio
  }
}
