/** What the blocking calls of ipc.c have in common: suspend the current thread on a list and switch away, and wake
    the first thread of a list. */
module Blocking {
  import opened Sched
  import opened SchedLaws
  import opened WaitQueue
  import opened Wakeups
  import opened Scheduler

  method Suspend(kernel: Kernel, k: nat, flag: Flag, time: int)
    requires kernel.Valid() && k < kernel.objects && Runs(kernel.Abs())
    modifies kernel
    ensures kernel.Valid() && kernel.Abs() == Await(old(kernel.Abs()), k, flag, time)
  {
    hide WF, ListSuspend, Schedule, Kernel.Shaped;
    var t := kernel.current;
    NotNull(kernel.Abs(), t);
    Mark(kernel, t, kernel.threads[t].(error := EOK));
    ListSuspendFacts(kernel.Abs(), k, t, flag);
    kernel.ListSuspend(k, t, flag);
    if time > 0 { Mark(kernel, t, kernel.threads[t].(timer := true)); }
    kernel.Schedule();
  }

  method WakeFirst(kernel: Kernel, k: nat)
    requires kernel.Valid() && k < kernel.objects && kernel.current != NO_THREAD
    modifies kernel
    ensures kernel.Valid() && kernel.Abs() == Notify(old(kernel.Abs()), k)
  {
    hide WF, ListResume, Schedule, Kernel.Shaped;
    kernel.WaitList(k);
    var empty := kernel.IsEmpty(Wait(k));
    if !empty {
      ListResumeFacts(kernel.Abs(), k);
      kernel.ListResume(k);
      kernel.Schedule();
    }
  }

  /** Changes a thread's error or timer. */
  method Mark(kernel: Kernel, t: Tid, th: Thread)
    requires kernel.Valid() && t in kernel.threads && th == kernel.threads[t].(error := th.error, timer := th.timer)
    modifies kernel
    ensures kernel.Valid() && kernel.Abs() == Set(old(kernel.Abs()), t, th)
  {
    hide WF, Kernel.Shaped;
    MarkFacts(kernel.Abs(), t, th);
    kernel.SetThread(t, th);
  }
}
