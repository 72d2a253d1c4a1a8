/** The mailbox of ipc.c: a ring of values with senders that wait for room and receivers that wait for mail. */
module MailboxSpec {
  import opened Sched
  import opened WaitQueue
  import opened Wakeups

  datatype Box = Box(pool: seq<nat>, entry: nat, input: nat, output: nat)

  function Advance(i: nat, size: nat): nat {
    if i + 1 >= size then 0 else i + 1
  }

  predicate Fits(b: Box) {
    |b.pool| > 0 && b.entry <= |b.pool| && b.output < |b.pool| && b.input == (b.output + b.entry) % |b.pool|
  }

  /** The mail in the box, oldest first. */
  function Contents(b: Box): seq<nat>
    requires Fits(b)
  {
    seq(b.entry, i requires 0 <= i < b.entry => b.pool[(b.output + i) % |b.pool|])
  }

  function Put(b: Box, v: nat): Box
    requires b.input < |b.pool|
  {
    Box(b.pool[b.input := v], b.entry + 1, Advance(b.input, |b.pool|), b.output)
  }

  function Take(b: Box): Box
    requires b.entry > 0
  {
    Box(b.pool, b.entry - 1, b.input, Advance(b.output, |b.pool|))
  }

  datatype Letter = Letter(value: nat, time: int)

  /** A system around one mailbox: receivers wait on list `rq`, senders on list `sq`. `sends` and `receives` are
      the threads inside calls that had to block, with the time they have left; `sent` and `received` are the
      values that entered and left the box so far. */
  datatype Sys = Sys(s: State, box: Box, sends: map<Tid, Letter>, receives: map<Tid, int>, sent: seq<nat>, received: seq<nat>)

  datatype Setup = Setup(rq: nat, sq: nat, flag: Flag)

  datatype Op =
    | Send(value: nat, time: int)
    | SendOn(left: int)
    | Receive(time: int)
    | ReceiveOn(left: int)
    | Post(value: nat)
    | Timeout(t: Tid)
    | Yield

  // Send and Receive start a call, SendOn and ReceiveOn go on with one that had to block and has been switched
  // to again, and Post is rt_mb_send in an interrupt handler.

  /** The current thread runs and is not inside a blocked call. */
  predicate Free(x: Sys) {
    && x.s.current in x.s.threads && x.s.threads[x.s.current].stat == Running && x.s.lock == 0
    && x.s.current !in x.sends && x.s.current !in x.receives
  }

  /** The current thread has just been switched to inside a blocked call. */
  predicate Resumed(x: Sys, pending: set<Tid>) {
    x.s.current in pending && x.s.current in x.s.threads && x.s.threads[x.s.current].stat == Running && x.s.lock == 0
  }

  /** The loop of rt_mb_send_wait: block, or put the value in and wake a receiver. */
  function Deliver(x: Sys, u: Setup, value: nat, time: int): Sys {
    var t := x.s.current;
    if x.box.entry == |x.box.pool| then
      if time == 0 then x.(s := SetError(x.s, t, EOK), sends := x.sends - {t})
      else x.(s := Await(x.s, u.sq, u.flag, time), sends := x.sends[t := Letter(value, time)])
    else if x.box.input < |x.box.pool| then
      x.(s := Notify(x.s, u.rq), box := Put(x.box, value), sends := x.sends - {t}, sent := x.sent + [value])
    else x
  }

  /** The loop of rt_mb_recv. */
  function Fetch(x: Sys, u: Setup, time: int): Sys {
    var t := x.s.current;
    if x.box.entry == 0 then
      if time == 0 then x.(s := SetError(x.s, t, ETIMEOUT), receives := x.receives - {t})
      else x.(s := Await(x.s, u.rq, u.flag, time), receives := x.receives[t := time])
    else if x.box.output < |x.box.pool| then
      x.(s := Notify(x.s, u.sq), box := Take(x.box), receives := x.receives - {t},
         received := x.received + [x.box.pool[x.box.output]])
    else x
  }

  function Step(x: Sys, u: Setup, op: Op): Sys {
    var t := x.s.current;
    match op
    case Send(value, time) =>
      if !Free(x) || (x.box.entry == |x.box.pool| && time == 0) then x else Deliver(x, u, value, time)
    case SendOn(left) =>
      if !Resumed(x, x.sends.Keys) || !Remaining(x.sends[t].time, left) then x
      else if x.s.threads[t].error != EOK then x.(sends := x.sends - {t})
      else Deliver(x, u, x.sends[t].value, left)
    case Receive(time) =>
      if !Free(x) || (x.box.entry == 0 && time == 0) then x else Fetch(x, u, time)
    case ReceiveOn(left) =>
      if !Resumed(x, x.receives.Keys) || !Remaining(x.receives[t], left) then x
      else if x.s.threads[t].error != EOK then x.(receives := x.receives - {t})
      else Fetch(x, u, left)
    case Post(value) =>
      if x.box.entry < |x.box.pool| && x.box.input < |x.box.pool|
      then x.(s := Notify(x.s, u.rq), box := Put(x.box, value), sent := x.sent + [value]) else x
    case Timeout(v) =>
      if v in x.s.threads && x.s.threads[v].stat == Suspended && x.s.threads[v].timer then x.(s := Schedule(Expire(x.s, v))) else x
    case Yield => x.(s := Schedule(x.s))
  }

  function Steps(x: Sys, u: Setup, ops: seq<Op>): Sys
    decreases |ops|
  {
    if ops == [] then x else Steps(Step(x, u, ops[0]), u, ops[1..])
  }

  ghost predicate Inv(x: Sys, u: Setup) {
    && WF(x.s) && x.s.current != NO_THREAD && u.rq != u.sq
    && Fits(x.box) && x.sent == x.received + Contents(x.box)
    && Pair(x.s, u.rq, x.receives.Keys, x.box.entry, u.sq, x.sends.Keys, |x.box.pool| - x.box.entry)
  }
}
