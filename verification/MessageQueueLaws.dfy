/** Buffers are conserved, messages keep their bytes and their order, and no receiver misses a message. */
module MessageQueueLaws {
  import opened Rings
  import opened Sched
  import opened SchedLaws
  import opened WaitQueue
  import opened Wakeups
  import opened MessageQueueSpec

  /** Facts about lists that lose or gain their first element. */
  lemma Tail(q: seq<nat>)
    requires q != [] && Distinct(q)
    ensures Distinct(q[1..]) && forall n :: n in q[1..] <==> n in q && n != q[0]
  {
    forall n | n in q && n != q[0] ensures n in q[1..] {
      var i :| 0 <= i < |q| && q[i] == n;
      assert q[1..][i - 1] == n;
    }
  }

  lemma Put(q: seq<nat>, n: nat)
    requires Distinct(q) && n !in q
    ensures Distinct([n] + q) && Distinct(q + [n])
    ensures forall m :: m in [n] + q <==> m in q || m == n
    ensures forall m :: m in q + [n] <==> m in q || m == n
  {
  }

  lemma FlightGone(flights: map<Caller, Flight>, c: Caller)
    requires c in flights && forall a, b :: a in flights && b in flights && a != b ==> flights[a].node != flights[b].node
    ensures var f' := flights - {c};
            && (forall n :: Flies(f', n) <==> Flies(flights, n) && n != flights[c].node)
            && |f'| == |flights| - 1
  {
    var f' := flights - {c};
    forall n | Flies(flights, n) && n != flights[c].node ensures Flies(f', n) {
      var d :| d in flights && flights[d].node == n;
      assert d in f';
    }
    forall n | Flies(f', n) ensures Flies(flights, n) && n != flights[c].node {
      var d :| d in f' && f'[d].node == n;
      assert d in flights;
    }
    assert f'.Keys == flights.Keys - {c};
    assert |f'.Keys| == |flights.Keys| - 1;
  }

  lemma FlightNew(flights: map<Caller, Flight>, c: Caller, f: Flight)
    requires c !in flights
    ensures var f' := flights[c := f];
            && (forall n :: Flies(f', n) <==> Flies(flights, n) || n == f.node)
            && |f'| == |flights| + 1
  {
    var f' := flights[c := f];
    assert f'[c].node == f.node;
    forall n | Flies(flights, n) ensures Flies(f', n) {
      var d :| d in flights && flights[d].node == n;
      assert d in f' && f'[d].node == n;
    }
    assert f'.Keys == flights.Keys + {c};
  }

  lemma FlightSame(flights: map<Caller, Flight>, c: Caller, f: Flight)
    requires c in flights && f.node == flights[c].node
    ensures var f' := flights[c := f];
            && (forall n :: Flies(f', n) <==> Flies(flights, n)) && |f'| == |flights|
  {
    var f' := flights[c := f];
    forall n | Flies(flights, n) ensures Flies(f', n) {
      var d :| d in flights && flights[d].node == n;
      assert d in f' && f'[d].node == n;
    }
    forall n | Flies(f', n) ensures Flies(flights, n) {
      var d :| d in f' && f'[d].node == n;
      assert d in flights && flights[d].node == n;
    }
    assert f'.Keys == flights.Keys;
  }

  // ----- buffers move between the lists

  lemma GrabSound(q: Queue, flights: map<Caller, Flight>, c: Caller, message: Message, urgent: bool)
    requires Sound(q, flights) && c !in flights && q.free != [] && |q.bodies| > 0 && |message| <= |q.bodies[0]|
    ensures Sound(q.(free := q.free[1..]), flights[c := Filling(q.free[0], message, urgent)])
  {
    var n := q.free[0];
    assert n in q.free;
    Tail(q.free);
    FlightNew(flights, c, Filling(n, message, urgent));
    hide Flies, Distinct;
    assert forall d :: d in flights ==> Flies(flights, flights[d].node) by {
      forall d | d in flights ensures Flies(flights, flights[d].node) { FliesAt(flights, d); }
    }
  }

  lemma FliesAt(flights: map<Caller, Flight>, c: Caller)
    requires c in flights
    ensures Flies(flights, flights[c].node)
  {
  }

  lemma FlyingApart(q: Queue, flights: map<Caller, Flight>, c: Caller)
    requires Sound(q, flights) && c in flights
    ensures flights[c].node < |q.bodies| && flights[c].node !in q.queue && flights[c].node !in q.free
    ensures forall i :: 0 <= i < |q.queue| ==> q.queue[i] != flights[c].node
  {
    FliesAt(flights, c);
    var n := flights[c].node;
    assert n !in q.queue;
  }

  lemma WrittenStarts(body: Message, message: Message)
    requires |message| <= |body|
    ensures message <= Written(body, message) && |Written(body, message)| == |body|
  {
  }

  lemma CopyInSound(q: Queue, flights: map<Caller, Flight>, c: Caller)
    requires Sound(q, flights) && c in flights && flights[c].Filling?
    ensures var f := flights[c];
            && f.node < |q.bodies|
            && Sound(q.(bodies := q.bodies[f.node := Written(q.bodies[f.node], f.message)]), flights[c := Filled(f.node, f.message, f.urgent)])
  {
    var f := flights[c];
    FlyingApart(q, flights, c);
    FlightSame(flights, c, Filled(f.node, f.message, f.urgent));
    WrittenStarts(q.bodies[f.node], f.message);
    hide Flies, Distinct, Written;
  }

  lemma PublishSound(q: Queue, flights: map<Caller, Flight>, c: Caller, q': Queue)
    requires Sound(q, flights) && c in flights && flights[c].Filled?
    requires var f := flights[c];
             q' == q.(queue := if f.urgent then [f.node] + q.queue else q.queue + [f.node],
                      messages := if f.urgent then [f.message] + q.messages else q.messages + [f.message],
                      entry := q.entry + 1)
    ensures Sound(q', flights - {c})
  {
    PublishPartition(q, flights, c, q');
    PublishCarried(q, flights, c, q');
    FlightGone(flights, c);
    hide Partition, Carried;
  }

  lemma PublishPartition(q: Queue, flights: map<Caller, Flight>, c: Caller, q': Queue)
    requires Sound(q, flights) && c in flights && q'.bodies == q.bodies && q'.free == q.free
    requires q'.queue == [flights[c].node] + q.queue || q'.queue == q.queue + [flights[c].node]
    ensures Partition(q', flights - {c})
  {
    FlyingApart(q, flights, c);
    FlightGone(flights, c);
    Put(q.queue, flights[c].node);
    hide Flies, Distinct, Carried, Sized, Counted;
  }

  lemma PublishCarried(q: Queue, flights: map<Caller, Flight>, c: Caller, q': Queue)
    requires Sound(q, flights) && c in flights && flights[c].Filled? && q'.bodies == q.bodies && q'.entry == q.entry + 1
    requires var f := flights[c];
             && q'.queue == (if f.urgent then [f.node] + q.queue else q.queue + [f.node])
             && q'.messages == (if f.urgent then [f.message] + q.messages else q.messages + [f.message])
    ensures Carried(q', flights - {c})
  {
    hide Partition, Sized, Counted;
    var f := flights[c];
    forall i | 0 <= i < |q'.queue| ensures q'.queue[i] < |q.bodies| && q'.messages[i] <= q.bodies[q'.queue[i]] {
      if f.urgent && i > 0 {
        assert q'.queue[i] == q.queue[i - 1] && q'.messages[i] == q.messages[i - 1];
      }
    }
  }

  lemma TakeSound(q: Queue, flights: map<Caller, Flight>, c: Caller, size: nat)
    requires Sound(q, flights) && c !in flights && q.entry > 0
    ensures q.queue != [] && q.messages != []
    ensures Sound(q.(queue := q.queue[1..], messages := q.messages[1..], entry := q.entry - 1),
                  flights[c := Draining(q.queue[0], q.messages[0], size)])
  {
    var n := q.queue[0];
    assert n in q.queue;
    Tail(q.queue);
    FlightNew(flights, c, Draining(n, q.messages[0], size));
    hide Flies, Distinct;
    forall d | d in flights ensures flights[d].node != n { FliesAt(flights, d); }
  }

  lemma CopyOutSound(q: Queue, flights: map<Caller, Flight>, c: Caller, message: Message)
    requires Sound(q, flights) && c in flights && flights[c].Draining?
    ensures flights[c].node < |q.bodies| && Sound(q, flights[c := Drained(flights[c].node, message)])
  {
    FlightSame(flights, c, Drained(flights[c].node, message));
    hide Flies, Distinct;
  }

  lemma PutBackSound(q: Queue, flights: map<Caller, Flight>, c: Caller)
    requires Sound(q, flights) && c in flights && flights[c].Drained?
    ensures Sound(q.(free := [flights[c].node] + q.free), flights - {c})
  {
    FlyingApart(q, flights, c);
    FlightGone(flights, c);
    Put(q.free, flights[c].node);
    hide Flies, Distinct;
  }

  lemma {:induction false} ReversedMembers(q: seq<nat>)
    requires Distinct(q)
    ensures Distinct(Reversed(q)) && forall n :: n in Reversed(q) <==> n in q
  {
    if q != [] {
      Tail(q);
      ReversedMembers(q[1..]);
      Put(Reversed(q[1..]), q[0]);
    }
  }

  lemma JoinDistinct(a: seq<nat>, b: seq<nat>)
    requires Distinct(a) && Distinct(b) && forall n :: n in a ==> n !in b
    ensures Distinct(a + b)
  {
    forall i, j | 0 <= i < j < |a + b| ensures (a + b)[i] != (a + b)[j] {
      if i < |a| <= j { assert a[i] in a && b[j - |a|] in b; }
    }
  }

  lemma ResetSound(q: Queue, flights: map<Caller, Flight>)
    requires Sound(q, flights)
    ensures Sound(ResetQueue(q), flights)
  {
    ReversedMembers(q.queue);
    JoinDistinct(Reversed(q.queue), q.free);
    hide Flies, Distinct, Reversed;
  }

  // ----- steps

  lemma TakeInv(x: Sys, k: nat, flag: Flag, size: nat, time: int)
    requires Inv(x, k) && Runs(x.s) && x.s.current !in x.flights
    ensures Inv(TakeNode(x, k, flag, size, time), k)
  {
    hide WF, Sound, Solo, Await;
    var t := x.s.current;
    var y := TakeNode(x, k, flag, size, time);
    if x.q.entry == 0 && time == 0 {
      SoloLeaves(x.s, k, x.receives.Keys, 0, ETIMEOUT);
      assert y.receives.Keys == x.receives.Keys - {t};
    } else if x.q.entry == 0 {
      SoloWaits(x.s, k, flag, time, x.receives.Keys);
      assert y.receives.Keys == x.receives.Keys + {t};
    } else {
      SoloTakes(x.s, k, x.receives.Keys, x.q.entry);
      TakeSound(x.q, x.flights, t, size);
      assert y.receives.Keys == x.receives.Keys - {t};
    }
  }

  lemma ResetInv(x: Sys, k: nat, flag: Flag)
    requires Inv(x, k)
    ensures Inv(Step(x, k, flag, Reset), k)
  {
    hide WF, Sound, Schedule, ResumeAll, Side;
    FailAll(x.s, k, x.receives.Keys);
    var s1 := ResumeAll(x.s, k);
    SoloSchedules(s1, k, x.receives.Keys, 0);
    ResetSound(x.q, x.flights);
  }

  /** Every section of every call keeps the buffers partitioned, their messages intact and every receiver that can
      be served awake. */
  lemma StepInv(x: Sys, k: nat, flag: Flag, op: Op)
    requires Inv(x, k)
    ensures Inv(Step(x, k, flag, op), k)
  {
    hide WF, Sound, Solo, Schedule, Expire, Notify, TakeNode, Written, ResumeAll, ResetQueue;
    var t := x.s.current;
    match op
    case Grab(c, message, urgent) =>
      if c !in x.flights && x.q.free != [] && |x.q.bodies| > 0 && |message| <= |x.q.bodies[0]| {
        GrabSound(x.q, x.flights, c, message, urgent);
      }
    case CopyIn(c) => if c in x.flights && x.flights[c].Filling? { CopyInSound(x.q, x.flights, c); }
    case Publish(c) =>
      if c in x.flights && x.flights[c].Filled? {
        PublishSound(x.q, x.flights, c, Step(x, k, flag, op).q);
        SoloPosts(x.s, k, x.receives.Keys, x.q.entry);
      }
    case Receive(size, time) => if Free(x) { TakeInv(x, k, flag, size, time); }
    case ReceiveOn(size, left) =>
      if Resumed(x) {
        if x.s.threads[t].error != EOK {
          SoloLeaves(x.s, k, x.receives.Keys, x.q.entry, x.s.threads[t].error);
          SameThread(x.s, t);
          assert (x.receives - {t}).Keys == x.receives.Keys - {t};
        } else {
          TakeInv(x, k, flag, size, left);
        }
      }
    case CopyOut(c) =>
      if c in x.flights && x.flights[c].Draining? && x.flights[c].node < |x.q.bodies| {
        CopyOutSound(x.q, x.flights, c, Read(x.q.bodies[x.flights[c].node], x.flights[c].size));
      }
    case PutBack(c) => if c in x.flights && x.flights[c].Drained? { PutBackSound(x.q, x.flights, c); }
    case Reset => ResetInv(x, k, flag);
    case Timeout(u) =>
      if u in x.s.threads && x.s.threads[u].stat == Suspended { SoloTimeout(x.s, k, x.receives.Keys, x.q.entry, u); }
    case Yield => SoloSchedules(x.s, k, x.receives.Keys, x.q.entry);
  }

  lemma {:induction false} RunInv(x: Sys, k: nat, flag: Flag, ops: seq<Op>)
    requires Inv(x, k)
    ensures Inv(Steps(x, k, flag, ops), k)
    decreases |ops|
  {
    if ops != [] {
      StepInv(x, k, flag, ops[0]);
      hide Inv, Step;
      RunInv(Step(x, k, flag, ops[0]), k, flag, ops[1..]);
    }
  }

  /** rt_mq_init over n buffers of the same size. */
  ghost predicate Fresh(x: Sys, k: nat, n: nat) {
    && WF(x.s) && x.s.current != NO_THREAD && At(x.s, Wait(k)) == [] && x.flights == map[] && x.receives == map[]
    && |x.q.bodies| == n && x.q.free == Backwards(n) && x.q.queue == [] && x.q.messages == [] && x.q.entry == 0
    && forall i, j :: 0 <= i < n && 0 <= j < n ==> |x.q.bodies[i]| == |x.q.bodies[j]|
  }

  lemma BackwardsAll(n: nat)
    ensures Distinct(Backwards(n)) && forall i: nat :: i in Backwards(n) <==> i < n
  {
    var s := Backwards(n);
    forall i: nat | i < n ensures i in s { assert s[n - 1 - i] == i; }
  }

  lemma FreshInv(x: Sys, k: nat, n: nat)
    requires Fresh(x, k, n)
    ensures Inv(x, k)
  {
    BackwardsAll(n);
    hide WF, Backwards;
    assert forall i :: !Flies(x.flights, i);
  }

  /** In every state a run reaches, each buffer is on exactly one of the two lists or held by exactly one caller, and
      the number of messages is the length of the queue. */
  lemma BuffersConserved(x: Sys, k: nat, n: nat, flag: Flag, ops: seq<Op>)
    requires Fresh(x, k, n)
    ensures var y := Steps(x, k, flag, ops);
            && Partition(y.q, y.flights) && y.q.entry == |y.q.queue|
            && |y.q.free| + |y.q.queue| + |y.flights| == |y.q.bodies|
  {
    FreshInv(x, k, n);
    RunInv(x, k, flag, ops);
    hide WF, Steps, Solo, Partition;
  }

  /** A receiver copies out what was sent in the buffer it took, though other callers run between its sections. */
  lemma DeliversWhatWasSent(x: Sys, k: nat, n: nat, flag: Flag, ops: seq<Op>, c: Caller)
    requires Fresh(x, k, n)
    ensures var y := Steps(x, k, flag, ops);
            c in y.flights && y.flights[c].Draining? ==>
              var f, z := y.flights[c], Step(y, k, flag, CopyOut(c));
              && c in z.flights && z.flights[c].Drained?
              && (f.size >= |f.message| ==> f.message <= z.flights[c].message)
              && (f.size < |f.message| ==> z.flights[c].message == f.message[..f.size])
  {
    FreshInv(x, k, n);
    RunInv(x, k, flag, ops);
    hide Inv, Steps, Step;
    var y := Steps(x, k, flag, ops);
    if c in y.flights && y.flights[c].Draining? { CopyOutDelivers(y, k, flag, c); }
  }

  lemma CopyOutDelivers(y: Sys, k: nat, flag: Flag, c: Caller)
    requires Inv(y, k) && c in y.flights && y.flights[c].Draining?
    ensures var f, z := y.flights[c], Step(y, k, flag, CopyOut(c));
            && c in z.flights && z.flights[c].Drained?
            && (f.size >= |f.message| ==> f.message <= z.flights[c].message)
            && (f.size < |f.message| ==> z.flights[c].message == f.message[..f.size])
  {
    hide WF, Solo, Sound, Read;
    DrainsWhatWasSent(y.q, y.flights, c);
  }

  lemma DrainsWhatWasSent(q: Queue, flights: map<Caller, Flight>, c: Caller)
    requires Sound(q, flights) && c in flights && flights[c].Draining?
    ensures var f := flights[c];
            && f.node < |q.bodies|
            && (f.size >= |f.message| ==> f.message <= Read(q.bodies[f.node], f.size))
            && (f.size < |f.message| ==> Read(q.bodies[f.node], f.size) == f.message[..f.size])
  {
    hide Partition, Sized, Counted;
  }

  // ----- order

  /** What a step does to the messages, told from the state before it and without looking into the queue. */
  datatype Event = Sent(m: Message) | SentUrgently(m: Message) | Received | Dropped | Silent

  /** The current thread finds a message: its call starts with one there, or goes on with one there after a wakeup. */
  predicate Finds(x: Sys, op: Op) {
    match op
    case Receive(size, time) => Free(x) && size > 0 && x.q.entry > 0
    case ReceiveOn(size, left) =>
      && Resumed(x) && size > 0 && Remaining(x.receives[x.s.current], left)
      && x.s.threads[x.s.current].error == EOK && x.q.entry > 0
    case _ => false
  }

  function EventOf(x: Sys, op: Op): Event {
    if op.Publish? && op.c in x.flights && x.flights[op.c].Filled? then
      if x.flights[op.c].urgent then SentUrgently(x.flights[op.c].message) else Sent(x.flights[op.c].message)
    else if Finds(x, op) then Received
    else if op.Reset? then Dropped
    else Silent
  }

  /** The message the current thread holds after this step and did not hold before. */
  function Got(x: Sys, k: nat, flag: Flag, op: Op): seq<Message> {
    var t, y := x.s.current, Step(x, k, flag, op);
    if (op.Receive? || op.ReceiveOn?) && t !in x.flights && t in y.flights && y.flights[t].Draining?
    then [y.flights[t].message] else []
  }

  /** An ordinary message goes behind all queued ones, an urgent one ahead of them; a receiver gets the first one;
      a reset drops all; no other step touches them. */
  lemma StepOrder(x: Sys, k: nat, flag: Flag, op: Op)
    requires Inv(x, k)
    ensures var before, after := x.q.messages, Step(x, k, flag, op).q.messages;
            match EventOf(x, op)
            case Sent(m) => after == before + [m] && Got(x, k, flag, op) == []
            case SentUrgently(m) => after == [m] + before && Got(x, k, flag, op) == []
            case Received => before == Got(x, k, flag, op) + after && |Got(x, k, flag, op)| == 1
            case Dropped => after == [] && Got(x, k, flag, op) == []
            case Silent => after == before && Got(x, k, flag, op) == []
  {
    hide WF, Sound, Solo, Schedule, Expire, Notify, TakeNode, Written;
    QueueLengths(x.q, x.flights);
    if op.Receive? {
      TakeOrder(x, k, flag, op.size, op.time);
    } else if op.ReceiveOn? {
      TakeOrder(x, k, flag, op.size, op.left);
    }
  }

  lemma QueueLengths(q: Queue, flights: map<Caller, Flight>)
    requires Sound(q, flights)
    ensures |q.messages| == |q.queue| == q.entry
  {
  }

  lemma TakeOrder(x: Sys, k: nat, flag: Flag, size: nat, time: int)
    requires |x.q.messages| == |x.q.queue| == x.q.entry
    ensures var t, y := x.s.current, TakeNode(x, k, flag, size, time);
            if x.q.entry > 0 then
              && t in y.flights && y.flights[t].Draining? && x.q.messages == [y.flights[t].message] + y.q.messages
            else y.flights == x.flights && y.q == x.q
  {
    hide Await;
  }

  /** The messages sent and not received yet, the urgent ones with the latest first, the ordinary ones with the
      oldest first; those received so far, and the ordinary ones among them. */
  datatype Pending = Pending(urgent: seq<Message>, ordinary: seq<Message>, received: seq<Message>, inOrder: seq<Message>)

  /** The reference: a receiver gets the latest urgent message while there is one, else the oldest ordinary one. */
  function After(p: Pending, e: Event): Pending {
    match e
    case Sent(m) => p.(ordinary := p.ordinary + [m])
    case SentUrgently(m) => p.(urgent := [m] + p.urgent)
    case Received =>
      if p.urgent != [] then p.(urgent := p.urgent[1..], received := p.received + [p.urgent[0]])
      else if p.ordinary != [] then
        p.(ordinary := p.ordinary[1..], received := p.received + [p.ordinary[0]], inOrder := p.inOrder + [p.ordinary[0]])
      else p
    case Dropped => p.(urgent := [], ordinary := [])
    case Silent => p
  }

  function AfterAll(p: Pending, events: seq<Event>): Pending
    decreases |events|
  {
    if events == [] then p else AfterAll(After(p, events[0]), events[1..])
  }

  function Events(x: Sys, k: nat, flag: Flag, ops: seq<Op>): seq<Event>
    decreases |ops|
  {
    if ops == [] then [] else [EventOf(x, ops[0])] + Events(Step(x, k, flag, ops[0]), k, flag, ops[1..])
  }

  function AllGot(x: Sys, k: nat, flag: Flag, ops: seq<Op>): seq<Message>
    decreases |ops|
  {
    if ops == [] then [] else Got(x, k, flag, ops[0]) + AllGot(Step(x, k, flag, ops[0]), k, flag, ops[1..])
  }

  lemma AfterStep(x: Sys, k: nat, flag: Flag, op: Op, p: Pending)
    requires Inv(x, k) && x.q.messages == p.urgent + p.ordinary
    ensures var p' := After(p, EventOf(x, op));
            && Step(x, k, flag, op).q.messages == p'.urgent + p'.ordinary
            && p'.received == p.received + Got(x, k, flag, op)
  {
    hide Inv, Step, EventOf, Got;
    StepOrder(x, k, flag, op);
    var m, got := Step(x, k, flag, op).q.messages, Got(x, k, flag, op);
    match EventOf(x, op)
    case Received =>
      assert got[0] == x.q.messages[0] && m == x.q.messages[1..];
    case SentUrgently(n) => assert [n] + (p.urgent + p.ordinary) == ([n] + p.urgent) + p.ordinary;
    case Sent(n) => assert (p.urgent + p.ordinary) + [n] == p.urgent + (p.ordinary + [n]);
    case _ =>
  }

  /** Over every interleaving of senders, urgent senders, receivers, timeouts and resets: what is queued, and what the
      receivers get in which order, is what the reference says. */
  lemma {:induction false} RunOrder(x: Sys, k: nat, flag: Flag, ops: seq<Op>, p: Pending)
    requires Inv(x, k) && x.q.messages == p.urgent + p.ordinary
    ensures var r := AfterAll(p, Events(x, k, flag, ops));
            && Steps(x, k, flag, ops).q.messages == r.urgent + r.ordinary
            && r.received == p.received + AllGot(x, k, flag, ops)
    decreases |ops|
  {
    if ops == [] {
      assert p.received + [] == p.received;
    } else {
      hide Inv, Step, EventOf, Got, After, Steps, Events, AllGot, AfterAll;
      var y, e := Step(x, k, flag, ops[0]), EventOf(x, ops[0]);
      StepInv(x, k, flag, ops[0]);
      AfterStep(x, k, flag, ops[0], p);
      RunOrder(y, k, flag, ops[1..], After(p, e));
      FirstStep(x, k, flag, ops, p);
      Associate(p.received, Got(x, k, flag, ops[0]), AllGot(y, k, flag, ops[1..]));
    }
  }

  /** A run is its first step and the rest. */
  lemma FirstStep(x: Sys, k: nat, flag: Flag, ops: seq<Op>, p: Pending)
    requires ops != []
    ensures var y, e := Step(x, k, flag, ops[0]), EventOf(x, ops[0]);
            && Steps(x, k, flag, ops) == Steps(y, k, flag, ops[1..])
            && AllGot(x, k, flag, ops) == Got(x, k, flag, ops[0]) + AllGot(y, k, flag, ops[1..])
            && AfterAll(p, Events(x, k, flag, ops)) == AfterAll(After(p, e), Events(y, k, flag, ops[1..]))
  {
    hide Step, EventOf, Got, After;
    var es := Events(Step(x, k, flag, ops[0]), k, flag, ops[1..]);
    assert Events(x, k, flag, ops) == [EventOf(x, ops[0])] + es;
    assert ([EventOf(x, ops[0])] + es)[1..] == es;
  }

  lemma Associate(a: seq<Message>, b: seq<Message>, c: seq<Message>)
    ensures (a + b) + c == a + (b + c)
  {
  }

  function OrdinarySent(events: seq<Event>): seq<Message> {
    if events == [] then [] else (if events[0].Sent? then [events[0].m] else []) + OrdinarySent(events[1..])
  }

  /** Urgent messages do not disturb the others: until a reset, the ordinary messages are received in the order in
      which they were sent. */
  lemma {:induction false} OrdinaryFifo(p: Pending, events: seq<Event>)
    requires forall i :: 0 <= i < |events| ==> !events[i].Dropped?
    ensures var r := AfterAll(p, events); p.inOrder + p.ordinary + OrdinarySent(events) == r.inOrder + r.ordinary
    decreases |events|
  {
    if events != [] {
      var e, p' := events[0], After(p, events[0]);
      OrdinaryFifo(p', events[1..]);
      var rest := OrdinarySent(events[1..]);
      if e.Sent? {
        assert p.inOrder + p.ordinary + ([e.m] + rest) == p.inOrder + (p.ordinary + [e.m]) + rest;
      } else {
        assert [] + rest == rest;
        assert p'.inOrder + p'.ordinary == p.inOrder + p.ordinary;
      }
    }
  }
}
