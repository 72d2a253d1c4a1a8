/** The mutex object of ipc.c, changed in place together with the kernel it blocks threads in. */
module MutexObject {
  import opened Sched
  import opened SchedLaws
  import opened WaitQueue
  import opened MutexSpec
  import opened MutexLaws
  import opened Scheduler

  class Lock {
    const kernel: Kernel
    const queue: nat
    const flag: Flag
    var value: nat
    var owner: Tid
    var original: nat
    var hold: nat

    ghost function Abs(): Mutex
      reads this
    {
      Mutex(value, owner, original, hold)
    }

    /** The mutex belongs to one of the kernel's wait lists, and system and mutex agree. */
    ghost predicate Valid(pending: set<Tid>, base: map<Tid, nat>)
      reads this, kernel
    {
      && kernel.Valid() && queue < kernel.objects
      && Inv(Sys(kernel.Abs(), Abs(), pending), queue, flag, base)
    }

    /** rt_mutex_init */
    constructor (kernel: Kernel, queue: nat, flag: Flag)
      ensures this.kernel == kernel && this.queue == queue && this.flag == flag && Abs() == FREE
    {
      this.kernel, this.queue, this.flag := kernel, queue, flag;
      value, owner, original, hold := 1, NO_THREAD, NO_PRIORITY, 0;
    }

    /** rt_mutex_take, up to the point where a thread that had to wait runs again. */
    method Take(time: int, ghost pending: set<Tid>, ghost base: map<Tid, nat>) returns (outcome: Outcome)
      requires Valid(pending, base)
      requires Free(Sys(kernel.Abs(), Abs(), pending))
      modifies this, kernel
      ensures outcome == MutexSpec.Take(old(kernel.Abs()), old(Abs()), queue, flag, time).2
      ensures Valid(if outcome == Blocked then pending + {old(kernel.current)} else pending, base)
      ensures Sys(kernel.Abs(), Abs(), if outcome == Blocked then pending + {old(kernel.current)} else pending)
           == Step(Sys(old(kernel.Abs()), old(Abs()), pending), queue, flag, Op.Lock(time))
    {
      hide WF, Core, Inherits, Schedule, WaitQueue.ListSuspend, Sched.ChangePriority, Kernel.Shaped;
      ghost var s, m := kernel.Abs(), Abs();
      ghost var x := Sys(s, m, pending);
      LockInv(x, queue, flag, base, time);
      CurrentKnown(s);
      var t := kernel.current;
      MarkWF(s, t, EOK);
      kernel.SetThread(t, kernel.threads[t].(error := EOK));
      if owner == t {
        hold := hold + 1;
        return Granted;
      }
      if value > 0 {
        value := value - 1;
        owner := t;
        original := kernel.threads[t].prio;
        hold := hold + 1;
        return Granted;
      }
      if time == 0 {
        MarkWF(kernel.Abs(), t, ETIMEOUT);
        kernel.SetThread(t, kernel.threads[t].(error := ETIMEOUT));
        return TimedOut;
      }
      OwnedWhenTaken(s.threads, At(s, Wait(queue)), m, pending, flag, base);
      if kernel.threads[t].prio < kernel.threads[owner].prio {
        ChangePriorityFacts(kernel.Abs(), owner, kernel.threads[t].prio);
        kernel.ChangePriority(owner, kernel.threads[t].prio);
      }
      ListSuspendFacts(kernel.Abs(), queue, t, flag);
      kernel.ListSuspend(queue, t, flag);
      if time > 0 {
        ArmWF(kernel.Abs(), t);
        kernel.SetThread(t, kernel.threads[t].(timer := true));
      }
      kernel.Schedule();
      return Blocked;
    }

    /** The end of rt_mutex_take in a thread that had to wait. */
    method TakeReturns(ghost pending: set<Tid>, ghost base: map<Tid, nat>) returns (r: Error)
      requires Valid(pending, base)
      requires kernel.current in pending && kernel.current in kernel.threads && kernel.threads[kernel.current].stat == Running
      ensures Valid(pending - {kernel.current}, base)
      ensures r == EOK ==> owner == kernel.current
    {
      ReturnInv(Sys(kernel.Abs(), Abs(), pending), queue, flag, base);
      NotWaiting(kernel.Abs(), kernel.current, queue);
      hide WF, Sorted, Lent, Kernel.Shaped;
      r := kernel.threads[kernel.current].error;
    }

    /** rt_mutex_release */
    method Release(ghost pending: set<Tid>, ghost base: map<Tid, nat>) returns (ok: bool)
      requires Valid(pending, base)
      requires Free(Sys(kernel.Abs(), Abs(), pending))
      modifies this, kernel
      ensures ok <==> old(owner) == old(kernel.current)
      ensures Valid(pending, base)
      ensures Sys(kernel.Abs(), Abs(), pending) == Step(Sys(old(kernel.Abs()), old(Abs()), pending), queue, flag, Unlock)
    {
      hide WF, Core, Inherits, Schedule, WaitQueue.ListResume, Sched.ChangePriority, Kernel.Shaped;
      ghost var s, m := kernel.Abs(), Abs();
      ghost var x := Sys(s, m, pending);
      UnlockInv(x, queue, flag, base);
      CurrentKnown(s);
      NullAbsent(s);
      var t := kernel.current;
      if t != owner {
        MarkWF(s, t, ERROR);
        kernel.SetThread(t, kernel.threads[t].(error := ERROR));
        return false;
      }
      OwnerKnown(s.threads, At(s, Wait(queue)), m, pending, flag, base);
      hold := hold - 1;
      ok := true;
      if hold == 0 {
        RestoreInv(x, queue, flag, base);
        BaseSmall(s.threads, At(s, Wait(queue)), m, pending, flag, base);
        if original != kernel.threads[t].prio {
          ChangePriorityFacts(s, t, original);
          kernel.ChangePriority(t, original);
        }
        Pass();
      }
    }

    /** The second half of the last release: the first waiter becomes the owner, or the mutex is free again. */
    method Pass()
      requires kernel.Valid() && queue < kernel.objects && hold == 0 && kernel.current != NO_THREAD
      modifies this, kernel
      ensures kernel.Valid()
      ensures var s := old(kernel.Abs());
              if At(s, Wait(queue)) == [] then
                kernel.Abs() == s && Abs() == Mutex(old(value) + 1, NO_THREAD, NO_PRIORITY, 0)
              else
                var w := Head(s, Wait(queue));
                && kernel.Abs() == Schedule(WaitQueue.ListResume(s, queue))
                && Abs() == Mutex(old(value), w, T(s, w).prio, 1)
    {
      hide WF, Schedule, WaitQueue.ListResume, Kernel.Shaped;
      kernel.WaitList(queue);
      var empty := kernel.IsEmpty(Wait(queue));
      if !empty {
        WaiterKnown(kernel.Abs(), queue);
        ListResumeFacts(kernel.Abs(), queue);
        var w := kernel.First(Wait(queue));
        owner := w;
        original := kernel.threads[w].prio;
        hold := hold + 1;
        kernel.ListResume(queue);
        kernel.Schedule();
      } else {
        value := value + 1;
        owner := NO_THREAD;
        original := NO_PRIORITY;
      }
    }
  }

  lemma MarkWF(s: State, t: Tid, e: Error)
    requires WF(s) && t in s.threads
    ensures WF(Set(s, t, s.threads[t].(error := e)))
  {
    hide WF;
    Known(s, t);
    UpdateWF(s, t, s.threads[t].(error := e));
  }

  lemma ArmWF(s: State, t: Tid)
    requires WF(s) && t in s.threads
    ensures WF(Set(s, t, s.threads[t].(timer := true)))
  {
    hide WF;
    Known(s, t);
    UpdateWF(s, t, s.threads[t].(timer := true));
  }

  lemma BaseSmall(threads: map<Tid, Thread>, q: seq<Tid>, m: Mutex, pending: set<Tid>, flag: Flag, base: map<Tid, nat>)
    requires Core(threads, q, m, pending, flag, base) && m.owner != NO_THREAD
    ensures m.original < PRIORITY_MAX
  {
  }
}
