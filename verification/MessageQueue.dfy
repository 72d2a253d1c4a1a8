/** The message queue object of ipc.c: two singly linked lists through the message buffers, changed in place. The
    buffers' links are one store, a map from buffer to next buffer. Each method is one section that runs with interrupts
    disabled, or one copy that runs with interrupts enabled. */
module MessageQueueObject {
  import opened Rings
  import opened Chains
  import opened Sched
  import opened SchedLaws
  import opened WaitQueue
  import opened Wakeups
  import opened MessageQueueSpec
  import opened MessageQueueLaws
  import opened Scheduler
  import Blocking

  function Zeros(n: nat): (m: Message)
    ensures |m| == n
  {
    seq(n, _ => 0)
  }

  /** An ordinary message that is ready to be linked ends the list it will be linked to. */
  ghost predicate Ending(next: map<int, int>, flights: map<Caller, Flight>) {
    forall c :: c in flights && flights[c].Filled? && !flights[c].urgent ==> flights[c].node in next && next[flights[c].node] == NULL
  }

  datatype Outcome = Taken(msg: nat) | Refused(error: Error) | Blocked

  class MessageQueue {
    const kernel: Kernel
    const waiters: nat
    const flag: Flag
    const size: nat
    var next: map<int, int>
    var bodies: array<Message>
    var head: int
    var tail: int
    var free: int
    var entry: nat

    ghost predicate Linked(x: Sys)
      reads this, bodies
    {
      && bodies[..] == x.q.bodies && entry == x.q.entry
      && Chain(next, free, x.q.free) && Chain(next, head, x.q.queue) && tail == Last(x.q.queue)
      && Ending(next, x.flights)
      && forall i :: 0 <= i < bodies.Length ==> |bodies[i]| == size
    }

    /** The system around this queue is x. */
    ghost predicate Stands(x: Sys)
      reads this, bodies, kernel
    {
      kernel.Valid() && waiters < kernel.objects && x.s == kernel.Abs() && Inv(x, waiters) && Linked(x)
    }

    /** rt_mq_init, for `count` buffers of `size` bytes. */
    constructor (kernel: Kernel, waiters: nat, size: nat, count: nat, flag: Flag)
      requires kernel.Valid() && waiters < kernel.objects && kernel.current != NO_THREAD && At(kernel.Abs(), Wait(waiters)) == []
      ensures this.kernel == kernel && this.waiters == waiters && this.flag == flag && this.size == size
      ensures Stands(Sys(kernel.Abs(), Queue(bodies[..], Backwards(count), [], 0, []), map[], map[]))
      ensures fresh(bodies) && bodies.Length == count
    {
      hide Kernel.Valid, Chain, Stands, Backwards;
      this.kernel, this.waiters, this.size, this.flag := kernel, waiters, size, flag;
      next, bodies := map[], new Message[count](_ => Zeros(size));
      head, tail, free, entry := NULL, NULL, NULL, 0;
      new;
      ThreadFill();
      Initialised();
    }

    lemma Initialised()
      requires kernel.Valid() && waiters < kernel.objects && kernel.current != NO_THREAD && At(kernel.Abs(), Wait(waiters)) == []
      requires Chain(next, free, Backwards(bodies.Length))
      requires head == NULL && tail == NULL && entry == 0 && forall i :: 0 <= i < bodies.Length ==> |bodies[i]| == size
      ensures Stands(Sys(kernel.Abs(), Queue(bodies[..], Backwards(bodies.Length), [], 0, []), map[], map[]))
    {
      hide Kernel.Valid, Chain, WF, Inv, Backwards;
      ghost var x := Sys(kernel.Abs(), Queue(bodies[..], Backwards(bodies.Length), [], 0, []), map[], map[]);
      KernelWF(kernel);
      FreshInv(x, waiters, bodies.Length);
      EmptyChain(next);
    }

    /** The loop that threads the free list through the buffers. */
    method ThreadFill()
      requires free == NULL
      modifies this`next, this`free
      ensures Chain(next, free, Backwards(bodies.Length))
    {
      hide Chain, Distinct;
      EmptyChain(next);
      var temp := 0;
      while temp < bodies.Length
        invariant 0 <= temp <= bodies.Length && Chain(next, free, Backwards(temp))
      {
        BackwardsNext(temp);
        ChainPush(next, free, Backwards(temp), temp);
        next := next[temp := free];
        free := temp;
        temp := temp + 1;
      }
    }

    /** First section of rt_mq_send and rt_mq_urgent. */
    method Grab(ghost c: Caller, ghost message: Message, ghost urgent: bool, length: nat, ghost x: Sys) returns (r: Error, msg: int)
      requires Stands(x) && c !in x.flights && c !in x.receives && length == |message| > 0
      modifies this`free
      ensures Stands(Step(x, waiters, flag, Op.Grab(c, message, urgent)))
      ensures r == if length > size then ERROR else if x.q.free == [] then EFULL else EOK
      ensures r == EOK ==> x.q.free != [] && msg == x.q.free[0]
    {
      hide WF, Solo, Sound, Kernel.Shaped, Chain;
      StepInv(x, waiters, flag, Op.Grab(c, message, urgent));
      if length > size { return ERROR, NULL; }
      msg := free;
      ChainHead(next, free, x.q.free);
      if msg == NULL { return EFULL, NULL; }
      ChainTail(next, free, x.q.free);
      FirstFits(x.q, x.flights);
      free := next[msg];
      return EOK, msg;
    }

    /** The copy between the two sections of a send. */
    method CopyIn(c: Caller, msg: nat, message: Message, urgent: bool, ghost x: Sys)
      requires Stands(x) && c in x.flights && x.flights[c] == Filling(msg, message, urgent)
      modifies this`next, bodies
      ensures Stands(Step(x, waiters, flag, Op.CopyIn(c)))
    {
      hide WF, Solo, Kernel.Shaped, Chain, Distinct, Sound;
      StepInv(x, waiters, flag, Op.CopyIn(c));
      CopyInSound(x.q, x.flights, c);
      FlyingApart(x.q, x.flights, c);
      FlyingElsewhere(x.q, x.flights, c);
      FillingFits(x.q, x.flights, c);
      if !urgent {
        ChainFrame(next, free, x.q.free, msg, NULL);
        ChainFrame(next, head, x.q.queue, msg, NULL);
        next := next[msg := NULL];
      }
      WrittenLength(bodies[msg], message);
      bodies[msg] := Written(bodies[msg], message);
    }

    /** Second section of rt_mq_send and rt_mq_urgent. */
    method Publish(c: Caller, msg: nat, ghost x: Sys, urgent: bool)
      requires Stands(x) && c in x.flights && x.flights[c].Filled? && x.flights[c].node == msg && x.flights[c].urgent == urgent
      modifies this, kernel
      ensures Stands(Step(x, waiters, flag, Op.Publish(c))) && bodies == old(bodies)
    {
      hide WF, Solo, Sound, Kernel.Shaped, Chain, Ending, Notify;
      StepInv(x, waiters, flag, Op.Publish(c));
      LinkBuffer(msg, urgent, x, c);
      entry := entry + 1;
      Blocking.WakeFirst(kernel, waiters);
    }

    /** Links a filled buffer to the end of the queue, or to its front when it is urgent. */
    method LinkBuffer(msg: nat, urgent: bool, ghost x: Sys, ghost c: Caller)
      requires Linked(x) && Sound(x.q, x.flights)
      requires c in x.flights && x.flights[c].Filled? && x.flights[c].node == msg && x.flights[c].urgent == urgent
      modifies this`head, this`tail, this`next
      ensures var q' := if urgent then [msg] + x.q.queue else x.q.queue + [msg];
              Chain(next, head, q') && tail == Last(q') && Chain(next, free, x.q.free) && Ending(next, x.flights - {c})
    {
      hide Sound, Chain, Distinct;
      FlyingApart(x.q, x.flights, c);
      FlyingElsewhere(x.q, x.flights, c);
      QueueFacts(x.q, x.flights);
      LastOf(x.q.queue, msg);
      ChainHead(next, head, x.q.queue);
      if urgent {
        ChainFrame(next, free, x.q.free, msg, head);
        ChainPush(next, head, x.q.queue, msg);
        next := next[msg := head];
        head := msg;
        if tail == NULL { tail := msg; }
      } else {
        ChainAppend(next, head, x.q.queue, msg);
        if tail != NULL {
          LastApart(x.q, x.flights);
          ChainFrame(next, free, x.q.free, tail, msg);
          next := next[tail := msg];
        }
        tail := msg;
        if head == NULL { head := msg; }
      }
    }

    /** One round of the loop of rt_mq_recv and, when there is a message, the section that takes it. */
    method TryTake(ghost length: nat, time: int, ghost x: Sys) returns (r: Outcome)
      requires Stands(x) && Runs(x.s) && x.s.current !in x.flights
      modifies this, kernel
      ensures Stands(TakeNode(x, waiters, flag, length, time)) && bodies == old(bodies)
      ensures r == if x.q.entry > 0 && x.q.queue != [] then Taken(x.q.queue[0]) else if time == 0 then Refused(ETIMEOUT) else Blocked
    {
      hide WF, Solo, Sound, Kernel.Shaped, Chain, Distinct, Await;
      TakeInv(x, waiters, flag, length, time);
      QueueFacts(x.q, x.flights);
      if entry == 0 {
        if time == 0 {
          Blocking.Mark(kernel, kernel.current, kernel.threads[kernel.current].(error := ETIMEOUT));
          return Refused(ETIMEOUT);
        }
        Blocking.Suspend(kernel, waiters, flag, time);
        return Blocked;
      }
      ChainTail(next, head, x.q.queue);
      LastTail(x.q.queue);
      var msg := head;
      head := next[msg];
      if tail == msg { tail := NULL; }
      entry := entry - 1;
      return Taken(msg);
    }

    /** rt_mq_recv, up to the first switch to another thread or the end of its first section. */
    method Receive(length: nat, time: int, ghost x: Sys) returns (r: Outcome)
      requires Stands(x) && Free(x) && length > 0
      modifies this, kernel
      ensures Stands(Step(x, waiters, flag, Op.Receive(length, time))) && bodies == old(bodies)
      ensures r == if x.q.entry > 0 && x.q.queue != [] then Taken(x.q.queue[0]) else if time == 0 then Refused(ETIMEOUT) else Blocked
    {
      hide Stands, TakeNode, Inv;
      SameEntry(x);
      if entry == 0 && time == 0 { return Refused(ETIMEOUT); }
      r := TryTake(length, time, x);
    }

    lemma SameEntry(x: Sys)
      requires Stands(x)
      ensures entry == x.q.entry && x.s == kernel.Abs()
    {
    }

    /** rt_mq_recv after a switch back to its thread. */
    method ReceiveOn(length: nat, left: int, ghost x: Sys) returns (r: Outcome)
      requires Stands(x) && Resumed(x) && Remaining(x.receives[x.s.current], left) && length > 0
      modifies this, kernel
      ensures Stands(Step(x, waiters, flag, Op.ReceiveOn(length, left))) && bodies == old(bodies)
      ensures r.Taken? <==> x.s.threads[x.s.current].error == EOK && x.q.entry > 0 && x.q.queue != []
    {
      hide WF, Solo, Sound, Kernel.Shaped, Chain, TakeNode;
      StepInv(x, waiters, flag, Op.ReceiveOn(length, left));
      var e := kernel.threads[kernel.current].error;
      if e != EOK { return Refused(e); }
      r := TryTake(length, left, x);
    }

    /** The copy between the two sections of a receive. */
    method CopyOut(c: Caller, msg: nat, length: nat, ghost x: Sys) returns (buffer: Message)
      requires Stands(x) && c in x.flights && x.flights[c].Draining? && x.flights[c].node == msg && x.flights[c].size == length
      ensures Stands(Step(x, waiters, flag, Op.CopyOut(c)))
      ensures msg < |x.q.bodies| && buffer == Read(x.q.bodies[msg], length)
    {
      hide WF, Solo, Sound, Kernel.Shaped, Chain;
      StepInv(x, waiters, flag, Op.CopyOut(c));
      FlyingApart(x.q, x.flights, c);
      buffer := if length > size then bodies[msg] else bodies[msg][..length];
    }

    /** Second section of rt_mq_recv. */
    method PutBack(c: Caller, msg: nat, ghost x: Sys)
      requires Stands(x) && c in x.flights && x.flights[c].Drained? && x.flights[c].node == msg
      modifies this`free, this`next
      ensures Stands(Step(x, waiters, flag, Op.PutBack(c)))
    {
      hide WF, Solo, Sound, Kernel.Shaped, Chain, Distinct;
      StepInv(x, waiters, flag, Op.PutBack(c));
      FlyingApart(x.q, x.flights, c);
      FlyingElsewhere(x.q, x.flights, c);
      ChainFrame(next, head, x.q.queue, msg, free);
      ChainPush(next, free, x.q.free, msg);
      next := next[msg := free];
      free := msg;
    }

    /** rt_mq_control with RT_IPC_CMD_RESET */
    method Reset(ghost x: Sys)
      requires Stands(x)
      modifies this, kernel
      ensures Stands(Step(x, waiters, flag, Op.Reset)) && bodies == old(bodies)
    {
      hide WF, Solo, Sound, Kernel.Shaped, Chain, Distinct, Schedule, ResumeAll, Reversed;
      StepInv(x, waiters, flag, Op.Reset);
      ResumeAllCurrent(x, waiters);
      kernel.ListResumeAll(waiters);
      DrainQueue(x);
      entry := 0;
      kernel.Schedule();
    }

    /** The loop of the reset: the queued buffers go to the front of the free list one by one. */
    method DrainQueue(ghost x: Sys)
      requires Linked(x) && Sound(x.q, x.flights)
      modifies this`head, this`tail, this`free, this`next
      ensures Chain(next, free, Reversed(x.q.queue) + x.q.free) && Chain(next, head, []) && tail == NULL
      ensures Ending(next, x.flights)
    {
      hide Chain, Distinct, Reversed, Sound, Ending;
      ghost var rest, done := x.q.queue, x.q.free;
      QueueFacts(x.q, x.flights);
      ReversedNil(done);
      while head != NULL
        invariant Chain(next, free, done) && Chain(next, head, rest) && tail == Last(rest) && Ending(next, x.flights)
        invariant Distinct(rest) && Apart(rest, done, x.flights)
        invariant Reversed(rest) + done == Reversed(x.q.queue) + x.q.free
        decreases |rest|
      {
        ChainHead(next, head, rest);
        ChainTail(next, head, rest);
        DrainStep(next, rest, done, x.flights, free);
        var msg := head;
        ghost var next0 := next;
        head := next[msg];
        if tail == msg { tail := NULL; }
        ChainFrame(next0, head, rest[1..], msg, free);
        ChainPush(next0, free, done, msg);
        next := next[msg := free];
        free := msg;
        rest, done := rest[1..], [rest[0]] + done;
      }
      ChainHead(next, head, rest);
      ReversedNil(done);
    }
  }

  lemma BackwardsNext(n: nat)
    ensures Backwards(n + 1) == [n] + Backwards(n)
    ensures n !in Backwards(n) && Backwards(0) == []
  {
  }

  lemma KernelWF(kernel: Kernel)
    requires kernel.Valid()
    ensures WF(kernel.Abs())
  {
  }

  lemma FlyingElsewhere(q: Queue, flights: map<Caller, Flight>, c: Caller)
    requires Sound(q, flights) && c in flights
    ensures forall d :: d in flights && d != c ==> flights[d].node != flights[c].node
  {
  }

  lemma FillingFits(q: Queue, flights: map<Caller, Flight>, c: Caller)
    requires Sound(q, flights) && c in flights && flights[c].Filling?
    ensures flights[c].node < |q.bodies| && |flights[c].message| <= |q.bodies[flights[c].node]|
  {
    FlyingApart(q, flights, c);
  }

  lemma FirstFits(q: Queue, flights: map<Caller, Flight>)
    requires Sound(q, flights) && q.free != []
    ensures q.free[0] < |q.bodies|
  {
    assert q.free[0] in q.free;
  }

  lemma WrittenLength(body: Message, message: Message)
    requires |message| <= |body|
    ensures |Written(body, message)| == |body|
  {
  }

  lemma QueueFacts(q: Queue, flights: map<Caller, Flight>)
    requires Sound(q, flights)
    ensures Distinct(q.queue) && Distinct(q.free) && |q.messages| == |q.queue| == q.entry && Apart(q.queue, q.free, flights)
  {
    forall c | c in flights ensures flights[c].node !in q.queue { FliesAt(flights, c); }
  }

  /** The last queued buffer is neither free nor held by a caller. */
  lemma LastApart(q: Queue, flights: map<Caller, Flight>)
    requires Sound(q, flights) && q.queue != []
    ensures Last(q.queue) >= 0 && Last(q.queue) !in q.free && forall c :: c in flights ==> flights[c].node != Last(q.queue)
  {
    var n := q.queue[|q.queue| - 1];
    assert n in q.queue;
    QueueFacts(q, flights);
  }

  /** The buffers still queued are neither free nor in flight. */
  ghost predicate Apart(rest: seq<nat>, done: seq<nat>, flights: map<Caller, Flight>) {
    && (forall n :: n in rest ==> n !in done)
    && (forall c :: c in flights ==> flights[c].node !in rest)
  }

  lemma DrainStep(next: map<int, int>, rest: seq<nat>, done: seq<nat>, flights: map<Caller, Flight>, v: int)
    requires rest != [] && Distinct(rest) && Apart(rest, done, flights) && Ending(next, flights) && rest[0] in next
    ensures rest[0] !in done && rest[0] !in rest[1..] && Distinct(rest[1..])
    ensures Apart(rest[1..], [rest[0]] + done, flights) && Ending(next[rest[0] := v], flights)
    ensures Reversed(rest[1..]) + ([rest[0]] + done) == Reversed(rest) + done
    ensures Last(rest[1..]) == if Last(rest) == rest[0] then NULL else Last(rest)
  {
    Tail(rest);
    assert rest[0] in rest;
    assert Reversed(rest) == Reversed(rest[1..]) + [rest[0]];
    LastTail(rest);
  }

  lemma ReversedNil(done: seq<nat>)
    ensures Reversed([]) + done == done
  {
  }

  lemma ResumeAllCurrent(x: Sys, k: nat)
    requires Inv(x, k)
    ensures ResumeAll(x.s, k).current != NO_THREAD
  {
    FailAll(x.s, k, x.receives.Keys);
  }

  lemma LastOf(q: seq<nat>, n: nat)
    ensures Last(q) == NULL <==> q == []
    ensures q == [] ==> q + [n] == [n]
    ensures Last(q + [n]) == n && Last([n] + q) == if q == [] then n else Last(q)
  {
  }

  lemma LastTail(q: seq<nat>)
    requires Distinct(q) && q != []
    ensures Last(q[1..]) == if Last(q) == q[0] then NULL else Last(q)
  {
    if |q| > 1 { assert q[|q| - 1] != q[0]; }
  }
}
