/** The mailbox object of ipc.c: a ring buffer in an array, changed in place. A call that has to block ends in
    `Blocked`; its thread goes on with the matching method when it is switched to again. */
module MailboxObject {
  import opened Sched
  import opened SchedLaws
  import opened WaitQueue
  import opened Wakeups
  import opened MailboxSpec
  import opened MailboxLaws
  import opened MailboxAnswers
  import opened Scheduler
  import Blocking

  datatype Outcome = Done | Refused(error: Error) | Blocked

  class Mailbox {
    const kernel: Kernel
    const receivers: nat
    const senders: nat
    const flag: Flag
    const pool: array<nat>
    var entry: nat
    var input: nat
    var output: nat

    ghost function Abs(): Box
      reads this, pool
    {
      Box(pool[..], entry, input, output)
    }

    ghost function Place(): Setup {
      Setup(receivers, senders, flag)
    }

    /** The system around this mailbox is x. */
    ghost predicate Stands(x: Sys)
      reads this, pool, kernel
    {
      && kernel.Valid() && receivers < kernel.objects && senders < kernel.objects
      && x.s == kernel.Abs() && x.box == Abs() && Inv(x, Place())
    }

    /** rt_mb_init */
    constructor (kernel: Kernel, receivers: nat, senders: nat, size: nat, flag: Flag)
      requires size > 0
      ensures this.kernel == kernel && this.receivers == receivers && this.senders == senders && this.flag == flag
      ensures Fits(Abs()) && |Abs().pool| == size && Contents(Abs()) == []
    {
      this.kernel, this.receivers, this.senders, this.flag := kernel, receivers, senders, flag;
      pool := new nat[size];
      entry, input, output := 0, 0, 0;
    }

    /** One round of the loop of rt_mb_send_wait. */
    method TrySend(value: nat, time: int, ghost x: Sys) returns (r: Outcome)
      requires Stands(x) && MaySend(x) && pool.Length > 0
      modifies this, pool, kernel
      ensures Stands(Deliver(x, Place(), value, time))
      ensures r == if x.box.entry < |x.box.pool| then Done else if time == 0 then Refused(EFULL) else Blocked
    {
      hide WF, Await, Notify, Pair, Kernel.Shaped, Contents;
      DeliverInv(x, Place(), value, time);
      if entry == pool.Length {
        if time == 0 {
          var t := kernel.current;
          Blocking.Mark(kernel, t, kernel.threads[t].(error := EOK));
          return Refused(EFULL);
        }
        Blocking.Suspend(kernel, senders, flag, time);
        return Blocked;
      }
      PutContents(x.box, value);
      pool[input] := value;
      input := input + 1;
      if input >= pool.Length { input := 0; }
      entry := entry + 1;
      Blocking.WakeFirst(kernel, receivers);
      return Done;
    }

    /** One round of the loop of rt_mb_recv. */
    method TryReceive(time: int, ghost x: Sys) returns (r: Outcome, value: nat)
      requires Stands(x) && MayReceive(x) && pool.Length > 0
      modifies this, pool, kernel
      ensures Stands(Fetch(x, Place(), time))
      ensures r == if x.box.entry > 0 then Done else if time == 0 then Refused(ETIMEOUT) else Blocked
      ensures r == Done ==> Contents(x.box) != [] && value == Contents(x.box)[0]
    {
      hide WF, Await, Notify, Pair, Kernel.Shaped, Contents;
      FetchInv(x, Place(), time);
      value := 0;
      if entry == 0 {
        if time == 0 {
          var t := kernel.current;
          Blocking.Mark(kernel, t, kernel.threads[t].(error := ETIMEOUT));
          return Refused(ETIMEOUT), 0;
        }
        Blocking.Suspend(kernel, receivers, flag, time);
        return Blocked, 0;
      }
      TakeContents(x.box);
      value := pool[output];
      output := output + 1;
      if output >= pool.Length { output := 0; }
      entry := entry - 1;
      Blocking.WakeFirst(kernel, senders);
      r := Done;
    }

    /** rt_mb_send_wait, up to the first switch to another thread. */
    method Send(value: nat, time: int, ghost x: Sys) returns (r: Outcome)
      requires Stands(x) && Free(x) && pool.Length > 0
      modifies this, pool, kernel
      ensures Stands(Step(x, Place(), Op.Send(value, time)))
      ensures r == Done <==> EventOf(x, Op.Send(value, time)) == Entered(value)
      ensures r == if x.box.entry < |x.box.pool| then Done else if time == 0 then Refused(EFULL) else Blocked
    {
      hide WF, Pair, Deliver, Kernel.Shaped, Contents;
      if entry == pool.Length && time == 0 { return Refused(EFULL); }
      r := TrySend(value, time, x);
    }

    /** rt_mb_recv, up to the first switch to another thread. */
    method Receive(time: int, ghost x: Sys) returns (r: Outcome, value: nat)
      requires Stands(x) && Free(x) && pool.Length > 0
      modifies this, pool, kernel
      ensures Stands(Step(x, Place(), Op.Receive(time)))
      ensures r == Done <==> EventOf(x, Op.Receive(time)) == Left
      ensures r == if x.box.entry > 0 then Done else if time == 0 then Refused(ETIMEOUT) else Blocked
      ensures r == Done ==> Contents(x.box) != [] && value == Contents(x.box)[0]
    {
      hide WF, Pair, Fetch, Kernel.Shaped, Contents;
      if entry == 0 && time == 0 { return Refused(ETIMEOUT), 0; }
      r, value := TryReceive(time, x);
    }

    /** rt_mb_send_wait after a switch back to its thread. */
    method SendOn(value: nat, left: int, ghost x: Sys) returns (r: Outcome)
      requires Stands(x) && Resumed(x, x.sends.Keys) && Remaining(x.sends[x.s.current].time, left) && pool.Length > 0
      requires value == x.sends[x.s.current].value
      modifies this, pool, kernel
      ensures Stands(Step(x, Place(), Op.SendOn(left)))
      ensures r == Done <==> EventOf(x, Op.SendOn(left)) == Entered(value)
      ensures var e := x.s.threads[x.s.current].error;
              r == if e != EOK then Refused(e) else if x.box.entry < |x.box.pool| then Done else if left == 0 then Refused(EFULL) else Blocked
    {
      hide WF, Deliver, Pair, Kernel.Shaped, Contents;
      StepInv(x, Place(), Op.SendOn(left));
      MailboxLaws.Apart(x, Place());
      var e := kernel.threads[kernel.current].error;
      if e != EOK { return Refused(e); }
      r := TrySend(value, left, x);
    }

    /** rt_mb_recv after a switch back to its thread. */
    method ReceiveOn(left: int, ghost x: Sys) returns (r: Outcome, value: nat)
      requires Stands(x) && Resumed(x, x.receives.Keys) && Remaining(x.receives[x.s.current], left) && pool.Length > 0
      modifies this, pool, kernel
      ensures Stands(Step(x, Place(), Op.ReceiveOn(left)))
      ensures r == Done <==> EventOf(x, Op.ReceiveOn(left)) == Left
      ensures var e := x.s.threads[x.s.current].error;
              r == if e != EOK then Refused(e) else if x.box.entry > 0 then Done else if left == 0 then Refused(ETIMEOUT) else Blocked
      ensures r == Done ==> Contents(x.box) != [] && value == Contents(x.box)[0]
    {
      hide WF, Fetch, Pair, Kernel.Shaped, Contents;
      StepInv(x, Place(), Op.ReceiveOn(left));
      MailboxLaws.Apart(x, Place());
      var e := kernel.threads[kernel.current].error;
      if e != EOK { return Refused(e), 0; }
      r, value := TryReceive(left, x);
    }
  }
}
