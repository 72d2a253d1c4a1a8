/** Event sets of ipc.c: receivers wait for all or for any of the bits they name and may consume them. */
module EventSpec {
  import opened Sched
  import opened WaitQueue
  import opened Wakeups

  type Bits = bv32

  /** A thread's event_set and event_info: the bits it waits for, RT_EVENT_FLAG_AND, RT_EVENT_FLAG_OR and
      RT_EVENT_FLAG_CLEAR. */
  datatype Want = Want(bits: Bits, all: bool, any: bool, clear: bool)

  predicate HasAll(events: Bits, bits: Bits) {
    events & bits == bits
  }

  predicate HasAny(events: Bits, bits: Bits) {
    events & bits != 0
  }

  function Joined(events: Bits, bits: Bits): Bits {
    events | bits
  }

  function Both(events: Bits, bits: Bits): Bits {
    events & bits
  }

  function Cleared(events: Bits, bits: Bits): Bits {
    events & !bits
  }

  /** The condition of a receiver; AND takes precedence over OR. */
  predicate Matches(events: Bits, w: Want) {
    if w.all then HasAll(events, w.bits) else w.any && HasAny(events, w.bits)
  }

  /** A receiver that finds its condition true at once: what it receives and what it leaves. */
  function FastReceived(events: Bits, w: Want): Bits {
    Both(events, w.bits)
  }

  function FastLeaves(events: Bits, w: Want): Bits {
    if w.clear then Cleared(events, w.bits) else events
  }

  /** What the search in rt_event_send stores in the thread it wakes: for OR the bits that are set, for AND the
      bits it waited for. */
  function Stored(events: Bits, w: Want): Bits {
    if w.all then w.bits else Both(w.bits, events)
  }

  function SendLeaves(events: Bits, w: Want): Bits {
    if w.clear then Cleared(events, Stored(events, w)) else events
  }

  /** `want` is each thread's event_set and event_info; `pending` are the threads inside a receive that had to
      block. */
  datatype Sys = Sys(s: State, bits: Bits, want: map<Tid, Want>, pending: set<Tid>)

  function WantOf(x: Sys, t: Tid): Want {
    if t in x.want then x.want[t] else Want(0, false, false, false)
  }

  /** One turn of the search in rt_event_send. */
  function Visit(x: Sys, t: Tid): Sys {
    var w := WantOf(x, t);
    if Matches(x.bits, w) then
      Sys(Resume(x.s, t), SendLeaves(x.bits, w), x.want[t := w.(bits := Stored(x.bits, w))], x.pending)
    else x
  }

  /** The search over the threads of a list, in list order. */
  function Search(x: Sys, q: seq<Tid>): Sys
    decreases |q|
  {
    if q == [] then x else Search(Visit(x, q[0]), q[1..])
  }

  /** The search wakes somebody. */
  predicate Wakes(x: Sys, q: seq<Tid>)
    decreases |q|
  {
    q != [] && (Matches(x.bits, WantOf(x, q[0])) || Wakes(Visit(x, q[0]), q[1..]))
  }

  datatype Op =
    | Send(bits: Bits)
    | Receive(w: Want, time: int)
    | Return
    | Timeout(t: Tid)
    | Yield

  predicate Free(x: Sys) {
    Runs(x.s) && x.s.current !in x.pending && x.s.lock == 0
  }

  /** rt_event_send, rt_event_recv up to its call of the scheduler, and the end of a receive that had to wait. */
  function Step(x: Sys, k: nat, flag: Flag, op: Op): Sys {
    var t := x.s.current;
    match op
    case Send(bits) =>
      if bits == 0 then x
      else
        var y := Search(x.(bits := Joined(x.bits, bits)), At(x.s, Wait(k)));
        if Wakes(x.(bits := Joined(x.bits, bits)), At(x.s, Wait(k))) then y.(s := Schedule(y.s)) else y
    case Receive(w, time) =>
      if w.bits == 0 || !Free(x) || !(w.all || w.any) then x
      else if Matches(x.bits, w) then Sys(SetError(x.s, t, EOK), FastLeaves(x.bits, w), x.want, x.pending)
      else if time == 0 then x.(s := SetError(x.s, t, ETIMEOUT))
      else Sys(Await(x.s, k, flag, time), x.bits, x.want[t := w], x.pending + {t})
    case Return => if t in x.pending && Runs(x.s) then x.(pending := x.pending - {t}) else x
    case Timeout(u) =>
      if u in x.s.threads && x.s.threads[u].stat == Suspended && x.s.threads[u].timer then x.(s := Schedule(Expire(x.s, u))) else x
    case Yield => x.(s := Schedule(x.s))
  }

  function Steps(x: Sys, k: nat, flag: Flag, ops: seq<Op>): Sys
    decreases |ops|
  {
    if ops == [] then x else Steps(Step(x, k, flag, ops[0]), k, flag, ops[1..])
  }

  /** No thread of q waits for something that is already there. */
  ghost predicate Unmet(bits: Bits, want: map<Tid, Want>, q: seq<Tid>) {
    forall i :: 0 <= i < |q| ==> q[i] in want && !Matches(bits, want[q[i]])
  }

  ghost predicate Inv(x: Sys, k: nat) {
    && WF(x.s) && x.s.current != NO_THREAD
    && Side(x.s.threads, At(x.s, Wait(k)), x.pending)
    && Unmet(x.bits, x.want, At(x.s, Wait(k)))
  }

  /** The same waiters as receivers that call again, in list order, without waiting. */
  function Poll(bits: Bits, ws: seq<Want>): (Bits, seq<Bits>)
    decreases |ws|
  {
    if ws == [] then (bits, [])
    else if Matches(bits, ws[0]) then
      var r := Poll(FastLeaves(bits, ws[0]), ws[1..]);
      (r.0, [FastReceived(bits, ws[0])] + r.1)
    else
      var r := Poll(bits, ws[1..]);
      (r.0, [ws[0].bits] + r.1)
  }

  /** What the threads of q wait for or have received. */
  function Wants(x: Sys, q: seq<Tid>): seq<Want> {
    seq(|q|, i requires 0 <= i < |q| => WantOf(x, q[i]))
  }

  function BitsOf(x: Sys, q: seq<Tid>): seq<Bits> {
    seq(|q|, i requires 0 <= i < |q| => WantOf(x, q[i]).bits)
  }
}
