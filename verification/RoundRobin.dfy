/** Time slices of clock.c: threads of the same priority take turns. */
module RoundRobin {
  import opened BitScan
  import opened Rings
  import opened Sched
  import opened SchedLaws
  import opened WaitQueue

  /** Ticks a thread gets in one turn, and those left of the present one. */
  datatype Slice = Slice(init: nat, left: nat)

  datatype Clock = Clock(s: State, slices: map<Tid, Slice>, tick: nat)

  /** rt_tick_increase, without the timers it checks. */
  function Tick(c: Clock): Clock {
    var t := c.s.current;
    var now := (c.tick + 1) % WORD;
    if t !in c.slices then c.(tick := now)
    else if c.slices[t].left == 1 then
      Clock(Schedule(c.s), c.slices[t := c.slices[t].(left := c.slices[t].init)], now)
    else Clock(c.s, c.slices[t := c.slices[t].(left := if c.slices[t].left == 0 then WORD - 1 else c.slices[t].left - 1)], now)
  }

  function Ticks(c: Clock, n: nat): Clock
    decreases n
  {
    if n == 0 then c else Ticks(Tick(c), n - 1)
  }

  ghost predicate Sliced(c: Clock) {
    forall t :: t in c.s.threads ==> t in c.slices && c.slices[t].init >= 1 && c.slices[t].left >= 1
  }

  /** The running thread has the top priority p; the threads of q wait for their turn at that priority. */
  ghost predicate Turn(c: Clock, p: nat, cur: Tid, q: seq<Tid>) {
    && WF(c.s) && Sliced(c) && c.s.lock == 0 && c.s.current == cur && Urgent(c.s) && cur in c.s.threads
    && c.s.threads[cur].prio == p && At(c.s, Ready(p)) == q
  }

  function Left(c: Clock, t: Tid): nat {
    if t in c.slices then c.slices[t].left else 0
  }

  function Sum(c: Clock, q: seq<Tid>): nat {
    if q == [] then 0 else Left(c, q[0]) + Sum(c, q[1..])
  }

  lemma {:induction false} TicksAdd(c: Clock, a: nat, b: nat)
    ensures Ticks(c, a + b) == Ticks(Ticks(c, a), b)
    decreases a
  {
    if a > 0 {
      TicksAdd(Tick(c), a - 1, b);
      assert a + b - 1 == a - 1 + b;
    }
  }

  /** Within a turn only the slice of the running thread changes. */
  lemma {:induction false} WithinTurn(c: Clock, p: nat, cur: Tid, q: seq<Tid>, n: nat)
    requires Turn(c, p, cur, q) && n < Left(c, cur)
    ensures Turn(Ticks(c, n), p, cur, q)
    ensures Ticks(c, n).slices == c.slices[cur := c.slices[cur].(left := c.slices[cur].left - n)]
    decreases n
  {
    if n > 0 {
      hide WF, Schedule, Urgent;
      WithinTurn(Tick(c), p, cur, q, n - 1);
    }
  }

  /** The last tick of a turn: the next thread runs, the old one goes to the end of the list. */
  lemma Rotate(s: State, p: nat, q: seq<Tid>)
    requires WF(s) && s.lock == 0 && Urgent(s) && s.current in s.threads && s.threads[s.current].prio == p
    requires At(s, Ready(p)) == q && q != []
    ensures var s' := Schedule(s);
            && WF(s') && s'.lock == 0 && Urgent(s') && s'.current == q[0] && At(s', Ready(p)) == q[1..] + [s.current]
            && s'.threads.Keys == s.threads.Keys && q[0] in s'.threads && s'.threads[q[0]].prio == p
  {
    hide Insert, Remove, WF, Highest, Urgent;
    ScheduleKeepsUrgent(s);
    TopIsHighest(s, p);
    FirstReadyOther(s, p);
    var from, to := s.current, q[0];
    SwitchThreads(s, to, true);
    SwitchCurrent(s, to);
    RotateList(s, p, q);
  }

  lemma ScheduleKeepsUrgent(s: State)
    requires WF(s) && s.lock == 0 && Urgent(s)
    ensures s.current in s.threads && s.threads[s.current].stat == Running && s.current != NO_THREAD
    ensures Schedule(s).current != NO_THREAD && WF(Schedule(s)) && Urgent(Schedule(s)) && Schedule(s).lock == 0
  {
    ScheduleFacts(s);
    ScheduleUrgent(s);
  }

  lemma SwitchCurrent(s: State, to: Tid)
    requires WF(s) && to in s.threads && s.threads[to].stat == Runnable && s.current in s.threads && s.threads[s.current].stat == Running
    ensures Switch(s, to, true).current == to
  {
  }

  lemma FirstReadyOther(s: State, p: nat)
    requires WF(s) && At(s, Ready(p)) != []
    ensures var t := At(s, Ready(p))[0]; t in s.threads && s.threads[t].stat == Runnable && s.threads[t].prio == p && t != s.current
  {
    FirstReady(s, p);
  }

  lemma TopIsHighest(s: State, p: nat)
    requires WF(s) && Urgent(s) && s.threads[s.current].prio == p && At(s, Ready(p)) != []
    ensures s.group != 0 && Highest(s) == p
  {
    hide Ffs, Bit, Mask, Highest;
    FirstReady(s, p);
    HighestIs(s);
    HeadIs(s);
  }

  lemma RotateList(s: State, p: nat, q: seq<Tid>)
    requires WF(s) && s.current in s.threads && s.threads[s.current].stat == Running && s.threads[s.current].prio == p
    requires At(s, Ready(p)) == q && q != [] && q[0] != s.current
    ensures At(Switch(s, q[0], true), Ready(p)) == q[1..] + [s.current]
  {
    hide WF, Remove, Or, Without;
    var s1 := Insert(s.(current := q[0]), s.current);
    assert At(s1, Ready(p)) == q + [s.current];
    RemovedAt(s1, q[0], Ready(p));
    WithoutFirst(q + [s.current]);
    assert (q + [s.current])[1..] == q[1..] + [s.current];
  }

  lemma LastTick(c: Clock, p: nat, cur: Tid, q: seq<Tid>)
    requires Turn(c, p, cur, q) && q != [] && Left(c, cur) == 1
    ensures Turn(Tick(c), p, q[0], q[1..] + [cur])
    ensures Tick(c).slices == c.slices[cur := c.slices[cur].(left := c.slices[cur].init)]
  {
    hide WF, Schedule, Urgent;
    Rotate(c.s, p, q);
    forall t | t in Tick(c).s.threads ensures t in Tick(c).slices && Tick(c).slices[t].init >= 1 && Tick(c).slices[t].left >= 1 {
      assert t in c.s.threads.Keys;
    }
  }

  lemma TurnEnds(c: Clock, p: nat, cur: Tid, q: seq<Tid>)
    requires Turn(c, p, cur, q) && q != []
    ensures var c' := Ticks(c, Left(c, cur));
            && cur in c.slices && Turn(c', p, q[0], q[1..] + [cur])
            && c'.slices == c.slices[cur := c.slices[cur].(left := c.slices[cur].init)]
  {
    hide Turn, Tick, Ticks, Distinct;
    TurnMembers(c, p, cur, q);
    var n := Left(c, cur) - 1;
    WithinTurn(c, p, cur, q, n);
    OneMore(c, n);
    LastTick(Ticks(c, n), p, cur, q);
  }

  lemma OneMore(c: Clock, n: nat)
    ensures Ticks(c, n + 1) == Tick(Ticks(c, n))
  {
    hide Tick;
    TicksAdd(c, n, 1);
    assert Ticks(Tick(Ticks(c, n)), 0) == Tick(Ticks(c, n));
  }

  lemma {:induction false} SumFrame(c: Clock, c': Clock, q: seq<Tid>)
    requires forall i :: 0 <= i < |q| ==> Left(c', q[i]) == Left(c, q[i])
    ensures Sum(c', q) == Sum(c, q)
  {
    if q != [] {
      forall i | 0 <= i < |q[1..]| ensures Left(c', q[1..][i]) == Left(c, q[1..][i]) { assert q[1..][i] == q[i + 1]; }
      SumFrame(c, c', q[1..]);
    }
  }

  lemma TurnMembers(c: Clock, p: nat, cur: Tid, q: seq<Tid>)
    requires Turn(c, p, cur, q)
    ensures Distinct(q) && forall i :: 0 <= i < |q| ==> q[i] != cur && Left(c, q[i]) >= 1
    ensures cur in c.slices && Left(c, cur) >= 1
  {
    forall i | 0 <= i < |q| ensures q[i] != cur && Left(c, q[i]) >= 1 {
      var t := q[i];
      assert t in At(c.s, Ready(p));
    }
    assert Distinct(At(c.s, Ready(p)));
  }

  /** A ready thread of the top priority runs after exactly the ticks left to the running thread and to those
      ahead of it, and at no tick before. */
  lemma {:induction false} RoundRobinBound(c: Clock, p: nat, cur: Tid, q: seq<Tid>, k: nat)
    requires Turn(c, p, cur, q) && k < |q|
    ensures var n := Left(c, cur) + Sum(c, q[..k]);
            && Ticks(c, n).s.current == q[k] && Left(Ticks(c, n), q[k]) == Left(c, q[k])
            && forall m :: 0 <= m < n ==> Ticks(c, m).s.current != q[k]
    decreases k
  {
    hide Turn, Tick;
    TurnMembers(c, p, cur, q);
    var n1 := Left(c, cur);
    var c1 := Ticks(c, n1);
    TurnEnds(c, p, cur, q);
    forall m | 0 <= m < n1 ensures Ticks(c, m).s.current != q[k] {
      WithinTurn(c, p, cur, q, m);
      TurnCurrent(Ticks(c, m), p, cur, q);
    }
    if k == 0 {
      TurnCurrent(c1, p, q[0], q[1..] + [cur]);
      assert q[..0] == [];
    } else {
      var q1 := q[1..] + [cur];
      RoundRobinBound(c1, p, q[0], q1, k - 1);
      assert q1[k - 1] == q[k];
      assert q1[..k - 1] == q[1..][..k - 1] == q[..k][1..];
      SumFrame(c, c1, q[1..][..k - 1]);
      assert q[..k][0] == q[0];
      var n2 := Left(c1, q[0]) + Sum(c1, q1[..k - 1]);
      assert n2 == Sum(c, q[..k]);
      TicksAdd(c, n1, n2);
      forall m | n1 <= m < n1 + n2 ensures Ticks(c, m).s.current != q[k] {
        TicksAdd(c, n1, m - n1);
      }
    }
  }

  lemma TurnCurrent(c: Clock, p: nat, cur: Tid, q: seq<Tid>)
    requires Turn(c, p, cur, q)
    ensures c.s.current == cur
  {
  }
}
