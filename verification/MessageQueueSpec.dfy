/** The message queue of ipc.c. A message buffer is free, queued, or in flight: taken off one list by a caller that
    copies its bytes with interrupts enabled and has not put it on the other list yet. */
module MessageQueueSpec {
  import opened Sched
  import opened WaitQueue
  import opened Wakeups
  import Rings

  type Byte = bv8
  type Message = seq<Byte>
  type Caller = int

  /** What a caller is doing with the buffer it holds. `message` is what it sends or has received. */
  datatype Flight =
    | Filling(node: nat, message: Message, urgent: bool)
    | Filled(node: nat, message: Message, urgent: bool)
    | Draining(node: nat, message: Message, size: nat)
    | Drained(node: nat, message: Message)

  /** `bodies` are the bytes behind each buffer's link, `free` and `queue` the two lists in link order. `messages`
      says what was sent in each queued buffer. */
  datatype Queue = Queue(bodies: seq<Message>, free: seq<nat>, queue: seq<nat>, entry: nat, messages: seq<Message>)

  /** rt_mq_init links the buffers so that the last one is the first free one. */
  function Backwards(n: nat): (r: seq<nat>)
    ensures |r| == n && forall i :: 0 <= i < n ==> r[i] == n - 1 - i
  {
    seq(n, i requires 0 <= i < n => n - 1 - i)
  }

  /** A system around one queue whose receivers wait on list k. */
  datatype Sys = Sys(s: State, q: Queue, flights: map<Caller, Flight>, receives: map<Tid, int>)

  datatype Op =
    | Grab(c: Caller, message: Message, urgent: bool)
    | CopyIn(c: Caller)
    | Publish(c: Caller)
    | Receive(size: nat, time: int)
    | ReceiveOn(size: nat, left: int)
    | CopyOut(c: Caller)
    | PutBack(c: Caller)
    | Reset
    | Timeout(t: Tid)
    | Yield

  predicate Free(x: Sys) {
    Runs(x.s) && x.s.current !in x.receives && x.s.current !in x.flights && x.s.lock == 0
  }

  predicate Resumed(x: Sys) {
    Runs(x.s) && x.s.current in x.receives && x.s.current !in x.flights && x.s.lock == 0
  }

  /** rt_memcpy of a message to the start of a buffer. */
  function Written(body: Message, message: Message): Message {
    if |message| <= |body| then message + body[|message|..] else message
  }

  /** The bytes rt_mq_recv copies out. */
  function Read(body: Message, size: nat): Message {
    if size > |body| then body else body[..size]
  }

  /** First section of rt_mq_send and rt_mq_urgent. */
  function GrabNode(x: Sys, c: Caller, message: Message, urgent: bool): Sys {
    if x.q.free == [] then x
    else x.(q := x.q.(free := x.q.free[1..]), flights := x.flights[c := Filling(x.q.free[0], message, urgent)])
  }

  /** Second section: an ordinary message goes to the end of the queue, an urgent one to its front. */
  function PublishNode(x: Sys, k: nat, c: Caller, f: Flight): Sys
    requires f.Filled?
  {
    var q := x.q.(
      queue := if f.urgent then [f.node] + x.q.queue else x.q.queue + [f.node],
      messages := if f.urgent then [f.message] + x.q.messages else x.q.messages + [f.message],
      entry := x.q.entry + 1);
    x.(s := Notify(x.s, k), q := q, flights := x.flights - {c})
  }

  /** The loop and the first section of rt_mq_recv in the current thread. */
  function TakeNode(x: Sys, k: nat, flag: Flag, size: nat, time: int): Sys {
    var t := x.s.current;
    if x.q.entry == 0 then
      if time == 0 then x.(s := SetError(x.s, t, ETIMEOUT), receives := x.receives - {t})
      else x.(s := Await(x.s, k, flag, time), receives := x.receives[t := time])
    else if x.q.queue == [] || x.q.messages == [] then x
    else
      x.(q := x.q.(queue := x.q.queue[1..], messages := x.q.messages[1..], entry := x.q.entry - 1),
         flights := x.flights[t := Draining(x.q.queue[0], x.q.messages[0], size)],
         receives := x.receives - {t})
  }

  function Reversed(q: seq<nat>): (r: seq<nat>)
    ensures |r| == |q|
  {
    if q == [] then [] else Reversed(q[1..]) + [q[0]]
  }

  /** rt_mq_control with RT_IPC_CMD_RESET: the queued buffers go to the front of the free list one by one. */
  function ResetQueue(q: Queue): Queue {
    q.(free := Reversed(q.queue) + q.free, queue := [], messages := [], entry := 0)
  }

  function Step(x: Sys, k: nat, flag: Flag, op: Op): Sys {
    var t := x.s.current;
    match op
    case Grab(c, message, urgent) =>
      if c in x.flights || c in x.receives || message == [] || |x.q.bodies| == 0 || |message| > |x.q.bodies[0]| then x
      else GrabNode(x, c, message, urgent)
    case CopyIn(c) =>
      if c in x.flights && x.flights[c].Filling? && x.flights[c].node < |x.q.bodies| then
        var f := x.flights[c];
        x.(q := x.q.(bodies := x.q.bodies[f.node := Written(x.q.bodies[f.node], f.message)]),
           flights := x.flights[c := Filled(f.node, f.message, f.urgent)])
      else x
    case Publish(c) =>
      if c in x.flights && x.flights[c].Filled? then PublishNode(x, k, c, x.flights[c]) else x
    case Receive(size, time) =>
      if !Free(x) || size == 0 || (x.q.entry == 0 && time == 0) then x else TakeNode(x, k, flag, size, time)
    case ReceiveOn(size, left) =>
      if !Resumed(x) || size == 0 || !Remaining(x.receives[t], left) then x
      else if x.s.threads[t].error != EOK then x.(receives := x.receives - {t})
      else TakeNode(x, k, flag, size, left)
    case CopyOut(c) =>
      if c in x.flights && x.flights[c].Draining? && x.flights[c].node < |x.q.bodies| then
        var f := x.flights[c];
        x.(flights := x.flights[c := Drained(f.node, Read(x.q.bodies[f.node], f.size))])
      else x
    case PutBack(c) =>
      if c in x.flights && x.flights[c].Drained? then
        x.(q := x.q.(free := [x.flights[c].node] + x.q.free), flights := x.flights - {c})
      else x
    case Reset => x.(s := Schedule(ResumeAll(x.s, k)), q := ResetQueue(x.q))
    case Timeout(u) =>
      if u in x.s.threads && x.s.threads[u].stat == Suspended && x.s.threads[u].timer then x.(s := Schedule(Expire(x.s, u))) else x
    case Yield => x.(s := Schedule(x.s))
  }

  function Steps(x: Sys, k: nat, flag: Flag, ops: seq<Op>): Sys
    decreases |ops|
  {
    if ops == [] then x else Steps(Step(x, k, flag, ops[0]), k, flag, ops[1..])
  }

  // ----- what must agree

  /** Buffer n is in flight. */
  ghost predicate Flies(flights: map<Caller, Flight>, n: nat) {
    exists c :: c in flights && flights[c].node == n
  }

  ghost predicate Disjoint(free: seq<nat>, queue: seq<nat>, flights: map<Caller, Flight>) {
    && (forall n :: n in free ==> n !in queue && !Flies(flights, n))
    && (forall n :: n in queue ==> !Flies(flights, n))
    && (forall c, d :: c in flights && d in flights && c != d ==> flights[c].node != flights[d].node)
  }

  /** Free, queued and in-flight buffers are all buffers, each exactly once. */
  ghost predicate Partition(q: Queue, flights: map<Caller, Flight>) {
    && Rings.Distinct(q.free) && Rings.Distinct(q.queue) && Disjoint(q.free, q.queue, flights)
    && (forall n: nat :: n < |q.bodies| <==> n in q.free || n in q.queue || Flies(flights, n))
  }

  /** The bytes of a message are those at the start of the buffer that carries it. */
  ghost predicate Carried(q: Queue, flights: map<Caller, Flight>) {
    && |q.messages| == |q.queue| == q.entry
    && (forall i :: 0 <= i < |q.queue| ==> q.queue[i] < |q.bodies| && q.messages[i] <= q.bodies[q.queue[i]])
    && (forall c :: c in flights && (flights[c].Filled? || flights[c].Draining?) ==>
          flights[c].node < |q.bodies| && flights[c].message <= q.bodies[flights[c].node])
  }

  ghost predicate Sized(q: Queue, flights: map<Caller, Flight>) {
    && (forall i, j :: 0 <= i < |q.bodies| && 0 <= j < |q.bodies| ==> |q.bodies[i]| == |q.bodies[j]|)
    && (forall c :: c in flights && flights[c].Filling? ==>
          |q.bodies| > 0 && |flights[c].message| <= |q.bodies[0]|)
  }

  ghost predicate Counted(q: Queue, flights: map<Caller, Flight>) {
    |q.free| + |q.queue| + |flights| == |q.bodies|
  }

  /** What holds of the buffers alone. */
  ghost predicate Sound(q: Queue, flights: map<Caller, Flight>) {
    Partition(q, flights) && Carried(q, flights) && Sized(q, flights) && Counted(q, flights)
  }

  ghost predicate Inv(x: Sys, k: nat) {
    WF(x.s) && x.s.current != NO_THREAD && Sound(x.q, x.flights) && Solo(x.s, k, x.receives.Keys, x.q.entry)
  }
}
