/** Threads, ready lists and the scheduler of scheduler.c and thread.c on values (one core, 32 priorities).
    Each function is one section that runs with interrupts disabled. */
module Sched {
  import opened BitScan
  import opened Rings

  type Tid = int

  const NO_THREAD: Tid := -1
  const PRIORITY_MAX := 32

  /** The lists a thread's tlist node can be on: a ready list, the wait list of an object, or the list of
      closed threads. */
  datatype ListId = Ready(p: nat) | Wait(k: nat) | Defunct

  datatype Stat = Init | Runnable | Suspended | Running | Closed

  datatype Error = EOK | ETIMEOUT | ERROR | EFULL

  datatype Thread = Thread(stat: Stat, prio: nat, initPrio: nat, mask: nat, error: Error, timer: bool)

  datatype State = State(threads: map<Tid, Thread>, lists: map<ListId, seq<Tid>>, group: nat, current: Tid, lock: nat)

  function At(s: State, id: ListId): seq<Tid> {
    if id in s.lists then s.lists[id] else []
  }

  function T(s: State, t: Tid): Thread {
    if t in s.threads then s.threads[t] else Thread(Init, 0, 0, 0, EOK, false)
  }

  function Set(s: State, t: Tid, th: Thread): State {
    s.(threads := s.threads[t := th])
  }

  // ----- lists

  /** rt_list_remove of the thread's node. */
  function Unlink(s: State, t: Tid): State {
    s.(lists := map id | id in s.lists :: Without(s.lists[id], t))
  }

  function Link(s: State, id: ListId, i: nat, t: Tid): State
    requires i <= |At(s, id)|
  {
    s.(lists := s.lists[id := InsertAt(At(s, id), i, t)])
  }

  /** rt_list_insert_before of a list head. */
  function Append(s: State, id: ListId, t: Tid): State {
    Link(s, id, |At(s, id)|, t)
  }

  // ----- scheduler.c

  /** rt_schedule_insert_thread */
  function Insert(s: State, t: Tid): State {
    if t == s.current then Set(s, t, T(s, t).(stat := Running))
    else
      var s1 := Append(Set(s, t, T(s, t).(stat := Runnable)), Ready(T(s, t).prio), t);
      s1.(group := Or(s1.group, T(s, t).mask))
  }

  /** rt_schedule_remove_thread */
  function Remove(s: State, t: Tid): State {
    var s1 := Unlink(s, t);
    if At(s1, Ready(T(s, t).prio)) == [] then s1.(group := AndNot(s1.group, T(s, t).mask)) else s1
  }

  /** Priority that _get_highest_priority_thread reads off the bitmap. */
  function Highest(s: State): int {
    if s.group < WORD then Ffs(s.group) - 1 else -1
  }

  function Head(s: State, id: ListId): Tid {
    if At(s, id) == [] then NO_THREAD else At(s, id)[0]
  }

  /** rt_schedule */
  function Schedule(s: State): State {
    if s.lock != 0 || s.group == 0 || Highest(s) < 0 then s
    else
      var stays := T(s, s.current).stat == Running;
      if stays && T(s, s.current).prio < Highest(s) then
        var s1 := Remove(s, s.current);
        Set(s1, s.current, T(s1, s.current).(stat := Running))
      else
        var to := Head(s, Ready(Highest(s)));
        Switch(s, to, stays)
  }

  /** The switch inside rt_schedule: the thread that was running is queued again if it still wants to run. */
  function Switch(s: State, to: Tid, requeue: bool): State {
    var from := s.current;
    var s1 := s.(current := to);
    var s2 := if requeue then Insert(s1, from) else s1;
    var s3 := Remove(s2, to);
    Set(s3, to, T(s3, to).(stat := Running))
  }

  /** rt_system_scheduler_start */
  function Start(s: State): State {
    var to := Head(s, Ready(if Highest(s) < 0 then 0 else Highest(s)));
    var s1 := Remove(s.(current := to), to);
    Set(s1, to, T(s1, to).(stat := Running))
  }

  /** rt_enter_critical */
  function Enter(s: State): State {
    s.(lock := s.lock + 1)
  }

  /** rt_exit_critical */
  function Exit(s: State): State {
    if s.lock > 1 then s.(lock := s.lock - 1)
    else if s.current == NO_THREAD then s.(lock := 0)
    else Schedule(s.(lock := 0))
  }

  // ----- thread.c

  /** rt_thread_suspend */
  function Suspend(s: State, t: Tid): State {
    if T(s, t).stat != Runnable && T(s, t).stat != Running then s
    else
      var s1 := Remove(s, t);
      Set(s1, t, T(s1, t).(stat := Suspended, timer := false))
  }

  /** rt_thread_resume */
  function Resume(s: State, t: Tid): State {
    if T(s, t).stat != Suspended then s
    else
      var s1 := Unlink(s, t);
      Insert(Set(s1, t, T(s1, t).(timer := false)), t)
  }

  /** rt_thread_timeout, up to its call of the scheduler; the one-shot timer has stopped by itself. */
  function Expire(s: State, t: Tid): State {
    var s1 := Unlink(Set(s, t, T(s, t).(error := ETIMEOUT, timer := false)), t);
    Insert(s1, t)
  }

  /** rt_thread_control with RT_THREAD_CTRL_CHANGE_PRIORITY */
  function ChangePriority(s: State, t: Tid, p: nat): State {
    if T(s, t).stat == Runnable then
      var s1 := Remove(s, t);
      Insert(Set(s1, t, T(s1, t).(prio := p, mask := Mask(p))), t)
    else Set(s, t, T(s, t).(prio := p, mask := Mask(p)))
  }

  /** rt_thread_startup, up to its call of the scheduler. */
  function Startup(s: State, t: Tid): State {
    var th := T(s, t);
    Resume(Set(s, t, th.(prio := th.initPrio, mask := Mask(th.initPrio), stat := Suspended)), t)
  }

  /** rt_thread_detach and rt_thread_delete; with t == s.current also rt_thread_exit up to its call of the
      scheduler. `keep` says that the object stays on the list of closed threads. */
  function Close(s: State, t: Tid, keep: bool): State {
    var s1 := if T(s, t).stat != Init then Remove(s, t) else s;
    var s2 := Set(s1, t, T(s1, t).(stat := Closed, timer := false));
    if keep then Link(s2, Defunct, 0, t) else s2
  }

  /** Starting a thread's timer. */
  function Arm(s: State, t: Tid): State {
    Set(s, t, T(s, t).(timer := true))
  }

  function SetError(s: State, t: Tid, e: Error): State {
    Set(s, t, T(s, t).(error := e))
  }

  // ----- what must agree

  /** Every list has distinct threads, and no thread is on two lists. */
  ghost predicate Linked(s: State) {
    && (forall id, t :: t in At(s, id) ==> t in s.threads)
    && (forall id :: Distinct(At(s, id)))
    && (forall a, b, t :: t in At(s, a) && t in At(s, b) ==> a == b)
  }

  /** The lists a thread is on are those its state names. */
  ghost predicate Queued(s: State) {
    && (forall p, t :: t in At(s, Ready(p)) <==> t in s.threads && s.threads[t].stat == Runnable && s.threads[t].prio == p)
    && (forall k, t :: t in At(s, Wait(k)) ==> t in s.threads && s.threads[t].stat == Suspended)
    && (forall t :: t in At(s, Defunct) ==> t in s.threads && s.threads[t].stat == Closed)
  }

  /** Not started yet, or closed. */
  predicate Idle(st: Stat) {
    st == Init || st == Closed
  }

  /** A thread's mask is the bit of its priority; _rt_thread_init leaves it zero until the thread starts. */
  ghost predicate Prioritised(s: State) {
    forall t :: t in s.threads ==>
      && s.threads[t].prio < PRIORITY_MAX && s.threads[t].initPrio < PRIORITY_MAX
      && (s.threads[t].mask == Mask(s.threads[t].prio) || (s.threads[t].mask == 0 && Idle(s.threads[t].stat)))
  }

  /** Bit p of the group is set iff ready list p has a thread. */
  ghost predicate Grouped(s: State) {
    s.group < WORD && forall p: nat :: Bit(s.group, p) <==> At(s, Ready(p)) != []
  }

  /** Only the current thread can be running, and it is on no ready list. */
  ghost predicate OneRuns(s: State) {
    && (s.current != NO_THREAD ==> s.current in s.threads && s.threads[s.current].stat != Runnable && s.threads[s.current].stat != Init)
    && (forall t :: t in s.threads && s.threads[t].stat == Running ==> t == s.current)
    && NO_THREAD !in s.threads
  }

  ghost predicate WF(s: State) {
    Linked(s) && Queued(s) && Prioritised(s) && Grouped(s) && OneRuns(s)
  }

  /** No ready thread is strictly more urgent than the running one. */
  ghost predicate Urgent(s: State) {
    && s.current in s.threads && s.threads[s.current].stat == Running
    && forall t :: t in s.threads && s.threads[t].stat == Runnable ==> s.threads[s.current].prio <= s.threads[t].prio
  }
}
