/** rt_tick and the remaining ticks of each thread, updated by every clock interrupt. */
module ClockTick {
  import opened BitScan
  import opened Sched
  import opened RoundRobin
  import WaitQueue
  import opened Scheduler

  class Ticker {
    const kernel: Kernel
    var tick: nat
    var init: map<Tid, nat>
    var remaining: map<Tid, nat>

    ghost function Abs(): Clock
      reads this, kernel
    {
      Clock(kernel.Abs(), map t | t in init && t in remaining :: Slice(init[t], remaining[t]), tick)
    }

    ghost predicate Valid()
      reads this, kernel
    {
      kernel.Valid() && Sliced(Abs()) && tick < WORD
    }

    constructor (kernel: Kernel, slices: map<Tid, nat>)
      requires kernel.Valid()
      requires forall t :: t in kernel.threads ==> t in slices && slices[t] >= 1
      ensures this.kernel == kernel && Valid() && tick == 0
    {
      this.kernel := kernel;
      tick, init, remaining := 0, slices, slices;
    }

    /** rt_tick_increase, without the timers it checks */
    method Increase()
      requires Valid() && kernel.current != NO_THREAD
      modifies this, kernel
      ensures Valid() && Abs() == Tick(old(Abs()))
      ensures tick == if old(tick) == 0xFFFF_FFFF then 0 else old(tick) + 1
    {
      hide WF, Schedule, Kernel.Shaped;
      ghost var c := Abs();
      Keeps(kernel.Abs());
      tick := (tick + 1) % WORD;
      var t := kernel.current;
      remaining := remaining[t := if remaining[t] == 0 then WORD - 1 else remaining[t] - 1];
      if remaining[t] == 0 {
        remaining := remaining[t := init[t]];
        kernel.Schedule();
      }
      assert Abs().slices == Tick(c).slices;
    }
  }

  lemma Keeps(s: State)
    requires WF(s) && s.current != NO_THREAD
    ensures s.current in s.threads && Schedule(s).threads.Keys == s.threads.Keys
    ensures forall t :: t in Schedule(s).threads <==> t in s.threads
  {
    WaitQueue.ScheduleFacts(s);
    assert forall t :: t in Schedule(s).threads.Keys <==> t in s.threads.Keys;
  }
}
