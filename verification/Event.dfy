/** The event object of ipc.c, changed in place. */
module EventObject {
  import opened Sched
  import opened SchedLaws
  import opened ThreadLists
  import opened WaitQueue
  import opened Wakeups
  import opened EventSpec
  import opened EventLaws
  import opened EventBits
  import opened EventAnswers
  import opened Scheduler
  import Blocking

  datatype Outcome = Received(bits: Bits) | Refused(error: Error) | Blocked

  class Event {
    const kernel: Kernel
    const queue: nat
    const flag: Flag
    var events: Bits
    var want: map<Tid, Want>

    ghost function Abs(pending: set<Tid>): Sys
      reads this, kernel
    {
      Sys(kernel.Abs(), events, want, pending)
    }

    ghost predicate Valid(pending: set<Tid>)
      reads this, kernel
    {
      kernel.Valid() && queue < kernel.objects && Inv(Abs(pending), queue)
    }

    /** rt_event_init */
    constructor (kernel: Kernel, queue: nat, flag: Flag)
      ensures this.kernel == kernel && this.queue == queue && this.flag == flag && events == 0 && want == map[]
    {
      this.kernel, this.queue, this.flag := kernel, queue, flag;
      events, want := 0, map[];
    }

    /** rt_event_send */
    method Send(bits: Bits, ghost pending: set<Tid>) returns (r: Error)
      requires Valid(pending)
      modifies this, kernel
      ensures Valid(pending) && Abs(pending) == Step(old(Abs(pending)), queue, flag, Op.Send(bits))
      ensures r == if bits == 0 then ERROR else EOK
    {
      hide Inv, Search, Wakes, Kernel.Valid, Midway, Schedule, Joined;
      if bits == 0 { return ERROR; }
      ghost var x := Abs(pending);
      StepInv(x, queue, flag, Op.Send(bits));
      MoreBits(x, queue, bits);
      events := Joined(events, bits);
      var needSchedule := ServeAll(At(kernel.Abs(), Wait(queue)), pending);
      if needSchedule { kernel.Schedule(); }
      return EOK;
    }

    /** The search over the waiting threads. */
    method ServeAll(ghost q: seq<Tid>, ghost pending: set<Tid>) returns (needSchedule: bool)
      requires kernel.Valid() && queue < kernel.objects && q == At(kernel.Abs(), Wait(queue)) && Midway(Abs(pending), queue, [], q)
      modifies this, kernel
      ensures kernel.Valid() && kernel.current != NO_THREAD && Abs(pending) == Search(old(Abs(pending)), q)
      ensures needSchedule == Wakes(old(Abs(pending)), q)
    {
      hide WF, Side, Unmet, Search, Wakes, Kernel.Valid, Visit, Midway;
      ghost var x1 := Abs(pending);
      ghost var i, kept := 0, [];
      needSchedule := false;
      var head := Anchor(Wait(queue));
      var n := FirstNode(q);
      assert q[0..] == q;
      MidwayStarted(x1, queue, kept, q);
      while n != head
        invariant kernel.Valid() && queue < kernel.objects && i <= |q| && kernel.current != NO_THREAD
        invariant Midway(Abs(pending), queue, kept, q[i..])
        invariant n == if i < |q| then Node.Link(q[i]) else head
        invariant Search(Abs(pending), q[i..]) == Search(x1, q)
        invariant Wakes(x1, q) == (needSchedule || Wakes(Abs(pending), q[i..]))
        decreases |q| - i
      {
        ghost var y := Abs(pending);
        assert q[i..][0] == q[i] && q[i..][1..] == q[i + 1..];
        SearchStep(y, q[i..]);
        VisitKeeps(y, queue, kept, q[i..]);
        MidwayThere(y, queue, kept, q[i..]);
        var t := n.t;
        n := NextNode(n, kept, q[i..]);
        var ok := Serve(t, pending);
        needSchedule := needSchedule || ok;
        kept := Kept(y, kept, t);
        i := i + 1;
      }
      SearchDone(Abs(pending), q[i..]);
    }

    /** The first node of the list. */
    method FirstNode(ghost q: seq<Tid>) returns (n: Node)
      requires kernel.Valid() && queue < kernel.objects && At(kernel.Abs(), Wait(queue)) == q
      ensures n == if q != [] then Node.Link(q[0]) else Anchor(Wait(queue))
    {
      kernel.WaitList(queue);
      hide WF, Linking, Linked;
      LinksOf(kernel.next, kernel.prev, kernel.Abs(), Wait(queue), 0);
      n := kernel.next[Anchor(Wait(queue))];
    }

    /** The node behind the first of q. */
    method NextNode(n: Node, ghost kept: seq<Tid>, ghost q: seq<Tid>) returns (m: Node)
      requires kernel.Valid() && queue < kernel.objects && At(kernel.Abs(), Wait(queue)) == kept + q && q != [] && n == Node.Link(q[0])
      ensures m == if |q| > 1 then Node.Link(q[1]) else Anchor(Wait(queue))
    {
      kernel.WaitList(queue);
      hide WF, Linking, Linked;
      LinksOf(kernel.next, kernel.prev, kernel.Abs(), Wait(queue), |kept| + 1);
      assert (kept + q)[|kept|] == q[0];
      m := kernel.next[n];
    }

    /** The body of the search: wakes the thread if its condition holds. */
    method Serve(t: Tid, ghost pending: set<Tid>) returns (ok: bool)
      requires kernel.Valid() && t in kernel.threads && t in want
      modifies this, kernel
      ensures kernel.Valid() && Abs(pending) == Visit(old(Abs(pending)), t)
      ensures ok == Matches(old(events), old(want)[t])
    {
      hide WF, Kernel.Shaped, Resume, HasAll, HasAny, Both, Cleared;
      var w := want[t];
      ok := false;
      if w.all {
        if HasAll(events, w.bits) { ok := true; }
      } else if w.any {
        if HasAny(events, w.bits) {
          want := want[t := w.(bits := Both(w.bits, events))];
          ok := true;
        }
      }
      if ok {
        if want[t].clear { events := Cleared(events, want[t].bits); }
        var _ := kernel.Resume(t);
      }
      assert ok && w.all ==> want == want[t := w];
    }

    /** rt_event_recv, up to the point where a thread that had to wait runs again. */
    method Receive(w: Want, time: int, ghost pending: set<Tid>) returns (r: Outcome)
      requires Valid(pending) && Free(Abs(pending)) && (w.all || w.any)
      modifies this, kernel
      ensures Abs(if r == Blocked then pending + {old(kernel.current)} else pending)
           == Step(old(Abs(pending)), queue, flag, Op.Receive(w, time))
      ensures Valid(if r == Blocked then pending + {old(kernel.current)} else pending)
      ensures r == if w.bits == 0 then Refused(ERROR)
                   else if Matches(old(events), w) then Received(FastReceived(old(events), w))
                   else if time == 0 then Refused(ETIMEOUT) else Blocked
      ensures w.bits != 0 ==> (r.Received? <==> Content(SetOf(old(events)), w))
      ensures r.Received? ==> SetOf(r.bits) == SetOf(old(events)) * SetOf(w.bits)
    {
      hide WF, Side, Unmet, Kernel.Shaped, Await, HasAll, HasAny, Both, Cleared, SetOf, Content;
      ghost var x := Abs(pending);
      ContentIff(events, w);
      FastSets(events, w);
      StepInv(x, queue, flag, Op.Receive(w, time));
      if w.bits == 0 { return Refused(ERROR); }
      var t := kernel.current;
      if if w.all then HasAll(events, w.bits) else HasAny(events, w.bits) {
        Blocking.Mark(kernel, t, kernel.threads[t].(error := EOK));
        r := Received(Both(events, w.bits));
        if w.clear { events := Cleared(events, w.bits); }
      } else if time == 0 {
        Blocking.Mark(kernel, t, kernel.threads[t].(error := ETIMEOUT));
        r := Refused(ETIMEOUT);
      } else {
        want := want[t := w];
        Blocking.Suspend(kernel, queue, flag, time);
        r := Blocked;
      }
    }

    /** The end of rt_event_recv in a thread that had to wait. */
    method ReceiveOn(ghost pending: set<Tid>) returns (r: Outcome)
      requires Valid(pending) && kernel.current in pending && Runs(kernel.Abs())
      ensures Valid(pending - {kernel.current})
      ensures r == if kernel.threads[kernel.current].error != EOK then Refused(kernel.threads[kernel.current].error)
                   else Received(WantOf(Abs(pending), kernel.current).bits)
    {
      hide WF, Side, Unmet, Kernel.Shaped;
      LeaveInv(Abs(pending), queue);
      var e := kernel.threads[kernel.current].error;
      if e != EOK { return Refused(e); }
      r := Received(if kernel.current in want then want[kernel.current].bits else 0);
    }
  }

  lemma MidwayStarted(x: Sys, k: nat, kept: seq<Tid>, q: seq<Tid>)
    requires Midway(x, k, kept, q)
    ensures x.s.current != NO_THREAD
  {
  }

  lemma SearchStep(x: Sys, q: seq<Tid>)
    requires q != []
    ensures Search(x, q) == Search(Visit(x, q[0]), q[1..])
    ensures Wakes(x, q) == (Matches(x.bits, WantOf(x, q[0])) || Wakes(Visit(x, q[0]), q[1..]))
  {
  }

  lemma SearchDone(x: Sys, q: seq<Tid>)
    requires q == []
    ensures Search(x, q) == x && !Wakes(x, q)
  {
  }

  lemma MidwayThere(x: Sys, k: nat, kept: seq<Tid>, q: seq<Tid>)
    requires Midway(x, k, kept, q) && q != []
    ensures At(x.s, Wait(k)) == kept + q && q[0] in x.s.threads && q[0] in x.want
  {
    hide Matches, Side, Unmet;
    assert (kept + q)[|kept|] == q[0];
    var t := q[0];
    assert t in At(x.s, Wait(k));
  }
}
