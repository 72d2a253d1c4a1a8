/** What each section of a message queue call does: which buffer moves where, who holds it, who waits and who is
    woken. */
module MessageQueueAnswers {
  import opened Rings
  import opened Sched
  import opened SchedLaws
  import opened WaitQueue
  import opened Wakeups
  import opened Waiting
  import opened MessageQueueSpec
  import opened MessageQueueLaws

  /** Neither the threads nor the waiting receivers have changed. */
  predicate NobodyMoves(x: Sys, y: Sys) {
    y.s == x.s && y.receives == x.receives
  }

  /** First section of a send: it is accepted exactly when the message is not empty, fits a buffer and a buffer is free;
      the caller then holds one buffer that was free, for this message and with this urgency. */
  lemma GrabAnswers(x: Sys, k: nat, flag: Flag, c: Caller, message: Message, urgent: bool)
    requires Inv(x, k) && c !in x.flights && c !in x.receives
    ensures var y := Step(x, k, flag, Grab(c, message, urgent));
            && NobodyMoves(x, y) && y.q.queue == x.q.queue && y.q.messages == x.q.messages && y.q.bodies == x.q.bodies
            && if message != [] && |x.q.bodies| > 0 && |message| <= |x.q.bodies[0]| && x.q.free != [] then
                 exists n :: x.q.free == [n] + y.q.free && y.flights == x.flights[c := Filling(n, message, urgent)]
               else y == x
  {
    hide WF, Solo, Sound;
    if x.q.free != [] { assert x.q.free == [x.q.free[0]] + x.q.free[1..]; }
  }

  /** The copy into the buffer: it begins with the message afterwards, and no other byte of any buffer changes. */
  lemma CopyInAnswers(x: Sys, k: nat, flag: Flag, c: Caller)
    requires Inv(x, k) && c in x.flights && x.flights[c].Filling?
    ensures var (y, f) := (Step(x, k, flag, CopyIn(c)), x.flights[c]);
            && NobodyMoves(x, y) && y.q == x.q.(bodies := y.q.bodies)
            && y.flights == x.flights[c := Filled(f.node, f.message, f.urgent)]
            && |y.q.bodies| == |x.q.bodies| && f.node < |x.q.bodies| && |y.q.bodies[f.node]| == |x.q.bodies[f.node]|
            && f.message <= y.q.bodies[f.node]
            && (forall i :: |f.message| <= i < |x.q.bodies[f.node]| ==> y.q.bodies[f.node][i] == x.q.bodies[f.node][i])
            && (forall i :: 0 <= i < |x.q.bodies| && i != f.node ==> y.q.bodies[i] == x.q.bodies[i])
  {
    FillsOne(x, k, c);
    hide WF, Solo, Sound;
  }

  lemma FillsOne(x: Sys, k: nat, c: Caller)
    requires Inv(x, k) && c in x.flights && x.flights[c].Filling?
    ensures x.flights[c].node < |x.q.bodies| && |x.flights[c].message| <= |x.q.bodies[x.flights[c].node]|
  {
    hide WF, Solo;
    FlyingApart(x.q, x.flights, c);
    hide Partition, Carried, Counted;
  }

  /** Second section of a send: the caller's buffer is linked at its end of the queue, and the first waiting receiver is
      woken. */
  lemma PublishAnswers(x: Sys, k: nat, flag: Flag, c: Caller)
    requires Inv(x, k) && c in x.flights && x.flights[c].Filled?
    ensures var (y, f) := (Step(x, k, flag, Publish(c)), x.flights[c]);
            && FirstWoken(x.s, y.s, k) && y.receives == x.receives && y.flights == x.flights - {c}
            && y.q.free == x.q.free && y.q.bodies == x.q.bodies
            && (f.urgent ==> y.q.queue == [f.node] + x.q.queue && y.q.messages == [f.message] + x.q.messages)
            && (!f.urgent ==> y.q.queue == x.q.queue + [f.node] && y.q.messages == x.q.messages + [f.message])
  {
    hide WF, Solo, Sound, Notify, FirstWoken;
    NotifyWakes(x.s, k);
  }

  /** The receive that goes on in this step, with the size of its buffer and the time it may still wait. */
  datatype Call = Receiving(size: nat, left: int) | Nothing

  function Going(x: Sys, op: Op): Call {
    match op
    case Receive(size, time) => if Free(x) && size > 0 then Receiving(size, time) else Nothing
    case ReceiveOn(size, left) =>
      if Resumed(x) && size > 0 && Remaining(x.receives[x.s.current], left) && x.s.threads[x.s.current].error == EOK
      then Receiving(size, left) else Nothing
    case _ => Nothing
  }

  /** First section of a receive: with a message queued the caller holds its buffer; without, it gives up with a timeout
      when it may not wait, and else waits. */
  lemma ReceiveAnswers(x: Sys, k: nat, flag: Flag, op: Op)
    requires Inv(x, k) && Going(x, op).Receiving?
    ensures var (y, t, c) := (Step(x, k, flag, op), x.s.current, Going(x, op));
            && y.q.free == x.q.free && y.q.bodies == x.q.bodies
            && if x.q.queue != [] then
                 && y.s == x.s && y.receives == x.receives - {t} && x.q.messages != []
                 && y.flights == x.flights[t := Draining(x.q.queue[0], x.q.messages[0], c.size)]
                 && y.q.queue == x.q.queue[1..] && y.q.messages == x.q.messages[1..]
               else
                 && y.q == x.q && y.flights == x.flights
                 && if c.left == 0 then
                      y.receives == x.receives - {t}
                      && (y.s == if op.Receive? then x.s else Set(x.s, t, x.s.threads[t].(error := ETIMEOUT)))
                    else WaitsOn(x.s, y.s, k, flag, c.left) && y.receives == x.receives[t := c.left]
  {
    hide WF, Solo, Sound, Await, WaitsOn;
    QueueLengths(x.q, x.flights);
    AwaitWaits(x.s, k, flag, Going(x, op).left);
    assert x.s.current !in x.receives ==> x.receives - {x.s.current} == x.receives;
  }

  /** The copy out of the buffer and the last section of a receive: the caller gets the bytes stored, cut to its size, and
      its buffer becomes the first free one. */
  lemma DrainAnswers(x: Sys, k: nat, flag: Flag, c: Caller)
    requires Inv(x, k) && c in x.flights
    ensures var (y, z, f) := (Step(x, k, flag, CopyOut(c)), Step(x, k, flag, PutBack(c)), x.flights[c]);
            && (f.Draining? ==>
                  && NobodyMoves(x, y) && y.q == x.q && c in y.flights && y.flights[c].Drained? && y.flights[c].node == f.node
                  && y.flights == x.flights[c := y.flights[c]] && f.node < |x.q.bodies|
                  && |y.flights[c].message| == (if f.size < |x.q.bodies[f.node]| then f.size else |x.q.bodies[f.node]|)
                  && y.flights[c].message <= x.q.bodies[f.node])
            && (f.Drained? ==>
                  && NobodyMoves(x, z) && z.q == x.q.(free := [f.node] + x.q.free) && z.flights == x.flights - {c})
  {
    hide WF, Solo, Sound;
    FlyingApart(x.q, x.flights, c);
  }

  /** A reset: every queued buffer is free again, buffers in flight stay with their callers, and every waiting receiver
      is awake with an error. */
  lemma ResetAnswers(x: Sys, k: nat, flag: Flag)
    requires Inv(x, k)
    ensures var y := Step(x, k, flag, Reset);
            && y.q.queue == [] && y.q.messages == [] && y.q.bodies == x.q.bodies && y.flights == x.flights && y.receives == x.receives
            && (forall n :: n in y.q.free <==> n in x.q.free || n in x.q.queue)
            && At(y.s, Wait(k)) == []
            && (exists m :: Failed(x.s.threads, m, At(x.s, Wait(k))) && Quiet(m, y.s.threads))
  {
    hide WF, Solo, Sound, ResumeAll, Schedule, Failed, Quiet, Reversed;
    SideThere(x, k);
    FailAll(x.s, k, x.receives.Keys);
    ScheduleFacts(ResumeAll(x.s, k));
    ReversedMembers(x.q.queue);
  }

  lemma SideThere(x: Sys, k: nat)
    requires Inv(x, k)
    ensures Side(x.s.threads, At(x.s, Wait(k)), x.receives.Keys)
  {
  }

  lemma {:induction false} ReversedMembers(q: seq<nat>)
    ensures forall n :: n in Reversed(q) <==> n in q
  {
    if q != [] { ReversedMembers(q[1..]); }
  }

  /** A receiver woken with an error ends its call; a timeout wakes its thread with one; no buffer moves. */
  lemma OtherAnswers(x: Sys, k: nat, flag: Flag, op: Op)
    requires Inv(x, k) && (op.ReceiveOn? || op.Timeout? || op.Yield?) && Going(x, op) == Nothing
    ensures var (y, t) := (Step(x, k, flag, op), x.s.current);
            && y.q == x.q && y.flights == x.flights
            && (op.ReceiveOn? && Resumed(x) && op.size > 0 && Remaining(x.receives[t], op.left) ==> y == x.(receives := x.receives - {t}))
            && (op.Timeout? ==> y.receives == x.receives && if MayExpire(x.s, op.t) then TimedOut(x.s, y.s, op.t) else y.s == x.s)
  {
    hide WF, Solo, Sound, Schedule, Expire, TimedOut;
    if op.Timeout? && MayExpire(x.s, op.t) { ExpireTimesOut(x.s, op.t); }
  }

  /** While a receiver waits, every queued message has a receiver already woken for it, in every run. */
  lemma NoLostWakeup(x: Sys, k: nat, n: nat, flag: Flag, ops: seq<Op>)
    requires Fresh(x, k, n)
    ensures var y := Steps(x, k, flag, ops);
            At(y.s, Wait(k)) != [] ==> |y.q.queue| <= |Woken(y.s.threads, At(y.s, Wait(k)), y.receives.Keys)|
  {
    FreshInv(x, k, n);
    RunInv(x, k, flag, ops);
    var y := Steps(x, k, flag, ops);
    hide WF, Steps, Woken, Side, Partition, Carried, Sized, Counted;
    QueueLengths(y.q, y.flights);
  }
}
