/** FIFO delivery and no lost wakeup, for every interleaving of senders, receivers and timeouts. */
module MailboxLaws {
  import opened Rings
  import opened Sched
  import opened SchedLaws
  import opened WaitQueue
  import opened Wakeups
  import opened MailboxSpec

  // ----- the ring

  lemma WrapIs(a: nat, n: nat)
    requires n > 0 && a < 2 * n
    ensures a % n == if a >= n then a - n else a
  {
  }

  /** Putting appends to the contents. */
  lemma PutContents(b: Box, v: nat)
    requires Fits(b) && b.entry < |b.pool|
    ensures b.input < |b.pool| && Fits(Put(b, v)) && Contents(Put(b, v)) == Contents(b) + [v]
  {
    var n := |b.pool|;
    WrapIs(b.output + b.entry, n);
    WrapIs(b.output + b.entry + 1, n);
    forall i | 0 <= i < b.entry ensures Contents(Put(b, v))[i] == Contents(b)[i] {
      WrapIs(b.output + i, n);
    }
  }

  /** Taking removes the oldest value. */
  lemma TakeContents(b: Box)
    requires Fits(b) && b.entry > 0
    ensures Fits(Take(b)) && Contents(b) == [b.pool[b.output]] + Contents(Take(b))
  {
    var n := |b.pool|;
    WrapIs(b.output + b.entry, n);
    WrapIs(b.output, n);
    WrapIs(Take(b).output + Take(b).entry, n);
    forall i | 0 <= i < b.entry - 1 ensures Contents(Take(b))[i] == Contents(b)[i + 1] {
      WrapIs(Take(b).output + i, n);
      WrapIs(b.output + i + 1, n);
    }
  }


  // ----- steps

  /** The current thread may go on with a send: it is not receiving, and a blocked send was woken properly. */
  ghost predicate MaySend(x: Sys) {
    Runs(x.s) && x.s.current !in x.receives && (x.s.current in x.sends ==> x.s.threads[x.s.current].error == EOK)
  }

  ghost predicate MayReceive(x: Sys) {
    Runs(x.s) && x.s.current !in x.sends && (x.s.current in x.receives ==> x.s.threads[x.s.current].error == EOK)
  }

  lemma DeliverInv(x: Sys, u: Setup, value: nat, time: int)
    requires Inv(x, u) && MaySend(x)
    ensures Inv(Deliver(x, u, value, time), u)
  {
    hide WF, Pair, Notify, Await, Contents;
    var t, room := x.s.current, |x.box.pool| - x.box.entry;
    PairTurns(x.s, u.rq, x.receives.Keys, x.box.entry, u.sq, x.sends.Keys, room);
    var y := Deliver(x, u, value, time);
    if room == 0 && time == 0 {
      PairLeaves(x.s, u.sq, x.sends.Keys, room, u.rq, x.receives.Keys, x.box.entry, EOK);
      assert y.sends.Keys == x.sends.Keys - {t};
    } else if room == 0 {
      PairWaits(x.s, u.sq, x.sends.Keys, u.rq, x.receives.Keys, x.box.entry, u.flag, time);
      assert y.sends.Keys == x.sends.Keys + {t};
    } else {
      PairMoves(x.s, u.sq, x.sends.Keys, room, u.rq, x.receives.Keys, x.box.entry);
      PutContents(x.box, value);
      assert y.sends.Keys == x.sends.Keys - {t};
    }
    PairTurns(y.s, u.rq, y.receives.Keys, y.box.entry, u.sq, y.sends.Keys, |y.box.pool| - y.box.entry);
  }

  lemma FetchInv(x: Sys, u: Setup, time: int)
    requires Inv(x, u) && MayReceive(x)
    ensures Inv(Fetch(x, u, time), u)
  {
    hide WF, Pair, Notify, Await, Contents;
    var t, room := x.s.current, |x.box.pool| - x.box.entry;
    var y := Fetch(x, u, time);
    if x.box.entry == 0 && time == 0 {
      PairLeaves(x.s, u.rq, x.receives.Keys, 0, u.sq, x.sends.Keys, room, ETIMEOUT);
      assert y.receives.Keys == x.receives.Keys - {t};
    } else if x.box.entry == 0 {
      PairWaits(x.s, u.rq, x.receives.Keys, u.sq, x.sends.Keys, room, u.flag, time);
      assert y.receives.Keys == x.receives.Keys + {t};
    } else {
      PairMoves(x.s, u.rq, x.receives.Keys, x.box.entry, u.sq, x.sends.Keys, room);
      TakeContents(x.box);
      assert x.received + Contents(x.box) == y.received + Contents(y.box);
      assert y.receives.Keys == x.receives.Keys - {t};
    }
  }

  lemma PostInv(x: Sys, u: Setup, value: nat)
    requires Inv(x, u) && x.box.entry < |x.box.pool|
    ensures Inv(Step(x, u, Post(value)), u)
  {
    hide WF, Pair, Notify, Contents;
    var room := |x.box.pool| - x.box.entry;
    PairTurns(x.s, u.rq, x.receives.Keys, x.box.entry, u.sq, x.sends.Keys, room);
    PairPosts(x.s, u.sq, x.sends.Keys, room, u.rq, x.receives.Keys, x.box.entry);
    PutContents(x.box, value);
    PairTurns(Notify(x.s, u.rq), u.rq, x.receives.Keys, x.box.entry + 1, u.sq, x.sends.Keys, room - 1);
  }

  lemma GiveUpInv(x: Sys, u: Setup)
    requires Inv(x, u) && Runs(x.s) && x.s.threads[x.s.current].error != EOK
    ensures x.s.current !in x.receives ==> Inv(x.(sends := x.sends - {x.s.current}), u)
    ensures x.s.current !in x.sends ==> Inv(x.(receives := x.receives - {x.s.current}), u)
  {
    hide WF, Pair, Contents;
    var t, room := x.s.current, |x.box.pool| - x.box.entry;
    assert Set(x.s, t, x.s.threads[t].(error := x.s.threads[t].error)) == x.s;
    if t !in x.receives {
      PairTurns(x.s, u.rq, x.receives.Keys, x.box.entry, u.sq, x.sends.Keys, room);
      PairLeaves(x.s, u.sq, x.sends.Keys, room, u.rq, x.receives.Keys, x.box.entry, x.s.threads[t].error);
      PairTurns(x.s, u.rq, x.receives.Keys, x.box.entry, u.sq, x.sends.Keys - {t}, room);
      assert (x.sends - {t}).Keys == x.sends.Keys - {t};
    }
    if t !in x.sends {
      PairLeaves(x.s, u.rq, x.receives.Keys, x.box.entry, u.sq, x.sends.Keys, room, x.s.threads[t].error);
      assert (x.receives - {t}).Keys == x.receives.Keys - {t};
    }
  }

  lemma Apart(x: Sys, u: Setup)
    requires Inv(x, u)
    ensures x.receives.Keys !! x.sends.Keys
  {
  }

  /** Every step of a sender, a receiver, the timer or the scheduler keeps the contents in order and loses no
      wakeup. */
  lemma StepInv(x: Sys, u: Setup, op: Op)
    requires Inv(x, u)
    ensures Inv(Step(x, u, op), u)
  {
    hide WF, Pair, Notify, Await, Contents, Schedule, Expire, Deliver, Fetch;
    Apart(x, u);
    var t, room := x.s.current, |x.box.pool| - x.box.entry;
    match op
    case Send(value, time) => if Free(x) { DeliverInv(x, u, value, time); }
    case SendOn(left) =>
      if Resumed(x, x.sends.Keys) {
        if x.s.threads[t].error != EOK { GiveUpInv(x, u); } else { DeliverInv(x, u, x.sends[t].value, left); }
      }
    case Receive(time) => if Free(x) { FetchInv(x, u, time); }
    case ReceiveOn(left) =>
      if Resumed(x, x.receives.Keys) {
        if x.s.threads[t].error != EOK { GiveUpInv(x, u); } else { FetchInv(x, u, left); }
      }
    case Post(value) =>
      if room > 0 { PostInv(x, u, value); }
    case Timeout(v) =>
      if v in x.s.threads && x.s.threads[v].stat == Suspended {
        PairTimeout(x.s, u.rq, x.receives.Keys, x.box.entry, u.sq, x.sends.Keys, room, v);
      }
    case Yield => PairSchedules(x.s, u.rq, x.receives.Keys, x.box.entry, u.sq, x.sends.Keys, room);
  }

  lemma {:induction false} RunInv(x: Sys, u: Setup, ops: seq<Op>)
    requires Inv(x, u)
    ensures Inv(Steps(x, u, ops), u)
    decreases |ops|
  {
    if ops != [] {
      StepInv(x, u, ops[0]);
      hide Inv, Step;
      RunInv(Step(x, u, ops[0]), u, ops[1..]);
    }
  }

  /** A new mailbox: empty, with nobody waiting. */
  ghost predicate Fresh(x: Sys, u: Setup) {
    && WF(x.s) && x.s.current != NO_THREAD && u.rq != u.sq && At(x.s, Wait(u.rq)) == [] && At(x.s, Wait(u.sq)) == []
    && |x.box.pool| > 0 && x.box.entry == 0 && x.box.input == 0 && x.box.output == 0
    && x.sends == map[] && x.receives == map[] && x.sent == [] && x.received == []
  }

  lemma FreshInv(x: Sys, u: Setup)
    requires Fresh(x, u)
    ensures Inv(x, u)
  {
    hide WF;
    assert Contents(x.box) == [];
  }

  /** Over every run the values received are the first of the values sent, in the same order; what is missing is in
      the box. */
  lemma Fifo(x: Sys, u: Setup, ops: seq<Op>)
    requires Fresh(x, u)
    ensures var y := Steps(x, u, ops);
            && y.received <= y.sent && Fits(y.box) && y.sent == y.received + Contents(y.box)
  {
    FreshInv(x, u);
    RunInv(x, u, ops);
    hide Steps, Contents, WF, Pair;
  }

  /** While a receiver waits, every value in the box has a receiver already woken for it; while a sender waits, every
      free place has a sender already woken for it. */
  lemma NoLostWakeup(x: Sys, u: Setup, ops: seq<Op>)
    requires Fresh(x, u)
    ensures var y := Steps(x, u, ops);
            && (At(y.s, Wait(u.rq)) != [] ==> y.box.entry <= |Woken(y.s.threads, At(y.s, Wait(u.rq)), y.receives.Keys)|)
            && (At(y.s, Wait(u.sq)) != [] ==> |y.box.pool| - y.box.entry <= |Woken(y.s.threads, At(y.s, Wait(u.sq)), y.sends.Keys)|)
  {
    FreshInv(x, u);
    RunInv(x, u, ops);
    hide Steps, Contents, WF, Woken, Side;
  }
}
