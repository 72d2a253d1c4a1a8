/** What each step of a mailbox does, decided from the state before it and the operation alone: which value enters or
    leaves the box, who waits and who is woken. */
module MailboxAnswers {
  import opened Sched
  import opened SchedLaws
  import opened WaitQueue
  import opened Wakeups
  import opened Waiting
  import opened MailboxSpec
  import opened MailboxLaws

  /** The call that goes on in this step, with the time it may still wait; a call that was woken with an error
      does not go on. */
  datatype Call = Sending(value: nat, left: int) | Receiving(left: int) | Nothing

  function Going(x: Sys, op: Op): Call {
    var t := x.s.current;
    match op
    case Send(value, time) => if Free(x) then Sending(value, time) else Nothing
    case SendOn(left) =>
      if Resumed(x, x.sends.Keys) && Remaining(x.sends[t].time, left) && x.s.threads[t].error == EOK
      then Sending(x.sends[t].value, left) else Nothing
    case Receive(time) => if Free(x) then Receiving(time) else Nothing
    case ReceiveOn(left) =>
      if Resumed(x, x.receives.Keys) && Remaining(x.receives[t], left) && x.s.threads[t].error == EOK
      then Receiving(left) else Nothing
    case _ => Nothing
  }

  datatype Event = Entered(value: nat) | Left | Silent

  /** A value enters when a sender that goes on, or an interrupt handler, finds room; one leaves when a receiver that
      goes on finds mail. */
  function EventOf(x: Sys, op: Op): Event {
    var room := x.box.entry < |x.box.pool|;
    match Going(x, op)
    case Sending(value, _) => if room then Entered(value) else Silent
    case Receiving(_) => if x.box.entry > 0 then Left else Silent
    case Nothing => if op.Post? && room then Entered(op.value) else Silent
  }

  /** The contents of the box follow the events and nothing else. */
  lemma StepOrder(x: Sys, u: Setup, op: Op)
    requires Inv(x, u)
    ensures var y := Step(x, u, op);
            && Fits(y.box) && |y.box.pool| == |x.box.pool|
            && match EventOf(x, op)
               case Entered(v) => Contents(y.box) == Contents(x.box) + [v] && y.sent == x.sent + [v] && y.received == x.received
               case Left =>
                 Contents(x.box) != [] && Contents(y.box) == Contents(x.box)[1..]
                 && y.received == x.received + [Contents(x.box)[0]] && y.sent == x.sent
               case Silent => Contents(y.box) == Contents(x.box) && y.sent == x.sent && y.received == x.received
  {
    hide WF, Pair, Notify, Await, Contents, Schedule, Expire;
    if x.box.entry < |x.box.pool| { PutContents(x.box, ValueOf(x, op)); }
    if x.box.entry > 0 {
      TakeContents(x.box);
      assert ([x.box.pool[x.box.output]] + Contents(Take(x.box)))[1..] == Contents(Take(x.box));
    }
  }

  function ValueOf(x: Sys, op: Op): nat {
    match EventOf(x, op) case Entered(v) => v case _ => 0
  }

  /** A sender that goes on: with room it is done and the first waiting receiver is woken; without, it gives up when it
      may not wait, and else waits for room with its value. */
  lemma SendAnswers(x: Sys, u: Setup, op: Op)
    requires Inv(x, u) && Going(x, op).Sending?
    ensures var (y, t, c) := (Step(x, u, op), x.s.current, Going(x, op));
            && y.receives == x.receives
            && if x.box.entry < |x.box.pool| then FirstWoken(x.s, y.s, u.rq) && y.sends == x.sends - {t}
               else if c.left == 0 then
                 y.box == x.box && y.sends == x.sends - {t} && (y.s == if op.Send? then x.s else Set(x.s, t, x.s.threads[t].(error := EOK)))
               else y.box == x.box && WaitsOn(x.s, y.s, u.sq, u.flag, c.left) && y.sends == x.sends[t := Letter(c.value, c.left)]
  {
    hide WF, Pair, Contents, Notify, Await, WaitsOn, FirstWoken;
    NotifyWakes(x.s, u.rq);
    AwaitWaits(x.s, u.sq, u.flag, Going(x, op).left);
    assert x.s.current !in x.sends ==> x.sends - {x.s.current} == x.sends;
  }

  /** A receiver that goes on: with mail it is done and the first waiting sender is woken; without, it gives up with a
      timeout when it may not wait, and else waits for mail. */
  lemma ReceiveAnswers(x: Sys, u: Setup, op: Op)
    requires Inv(x, u) && Going(x, op).Receiving?
    ensures var (y, t, c) := (Step(x, u, op), x.s.current, Going(x, op));
            && y.sends == x.sends
            && if x.box.entry > 0 then FirstWoken(x.s, y.s, u.sq) && y.receives == x.receives - {t}
               else if c.left == 0 then
                 y.box == x.box && y.receives == x.receives - {t} && (y.s == if op.Receive? then x.s else Set(x.s, t, x.s.threads[t].(error := ETIMEOUT)))
               else y.box == x.box && WaitsOn(x.s, y.s, u.rq, u.flag, c.left) && y.receives == x.receives[t := c.left]
  {
    hide WF, Pair, Contents, Notify, Await, WaitsOn, FirstWoken;
    NotifyWakes(x.s, u.sq);
    AwaitWaits(x.s, u.rq, u.flag, Going(x, op).left);
    assert x.s.current !in x.receives ==> x.receives - {x.s.current} == x.receives;
  }

  /** Every other step: an interrupt handler's send wakes a receiver when there is room; a caller woken with an error ends
      its call; a timeout and a yield touch no call. */
  lemma OtherAnswers(x: Sys, u: Setup, op: Op)
    requires Inv(x, u) && Going(x, op) == Nothing
    ensures var (y, t) := (Step(x, u, op), x.s.current);
            && (op.Post? ==> y.sends == x.sends && y.receives == x.receives
                             && if x.box.entry < |x.box.pool| then FirstWoken(x.s, y.s, u.rq) else y.s == x.s)
            && (op.SendOn? && Resumed(x, x.sends.Keys) && x.s.threads[t].error != EOK && Remaining(x.sends[t].time, op.left) ==>
                  y == x.(sends := x.sends - {t}))
            && (op.ReceiveOn? && Resumed(x, x.receives.Keys) && x.s.threads[t].error != EOK && Remaining(x.receives[t], op.left) ==>
                  y == x.(receives := x.receives - {t}))
            && (op.Timeout? || op.Yield? ==> y == x.(s := y.s))
            && (op.Timeout? ==> if MayExpire(x.s, op.t) then TimedOut(x.s, y.s, op.t) else y == x)
  {
    hide WF, Pair, Contents, Notify, Await, FirstWoken, Schedule, Expire, TimedOut;
    if op.Timeout? && MayExpire(x.s, op.t) { ExpireTimesOut(x.s, op.t); }
    NotifyWakes(x.s, u.rq);
  }
}
