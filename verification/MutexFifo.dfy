/** A mutex whose waiters queue in arrival order loses the priority inheritance: the history that does it. */
module MutexFifo {
  import opened Rings
  import opened Sched
  import opened SchedLaws
  import opened WaitQueue
  import opened Wakeups
  import opened MutexSpec
  import opened MutexLaws

  /** The scheduler runs the one thread that is more urgent than every other that wants to run. */
  lemma Picks(s: State, t: Tid)
    requires WF(s) && s.current != NO_THREAD && s.lock == 0 && t in s.threads && Awake(s.threads[t].stat)
    requires forall u :: u in s.threads && u != t && Awake(s.threads[u].stat) ==> s.threads[t].prio < s.threads[u].prio
    ensures var s' := Schedule(s);
            && WF(s') && SameWaits(s, s') && s'.lock == 0 && s'.current == t && s'.threads.Keys == s.threads.Keys
            && forall u :: u in s.threads ==>
                 s'.threads[u] == s.threads[u].(stat := if u == t then Running else if Awake(s.threads[u].stat) then Runnable else s.threads[u].stat)
  {
    ScheduleFacts(s);
    ScheduleUrgent(s);
    OnlyCurrentRuns(s);
    var s' := Schedule(s);
    OnlyCurrentRuns(s');
    hide WF, Schedule;
    assert t in s'.threads.Keys;
    assert s'.current in s.threads.Keys;
    forall u | u in s.threads ensures u in s'.threads && (u == t || s'.threads[u].stat != Running) {
      assert u in s'.threads.Keys;
    }
  }

  lemma OnlyCurrentRuns(s: State)
    requires WF(s)
    ensures forall t :: t in s.threads && s.threads[t].stat == Running ==> t == s.current
  {
  }

  /** The threads that want to run are these. */
  ghost predicate AwakeAre(threads: map<Tid, Thread>, ts: set<Tid>) {
    forall t :: t in ts <==> t in threads && Awake(threads[t].stat)
  }

  /** Nothing has happened to the threads outside ts. */
  ghost predicate Untouched(a: map<Tid, Thread>, b: map<Tid, Thread>, ts: set<Tid>) {
    a.Keys == b.Keys && forall t :: t in a && t !in ts ==> b[t] == a[t]
  }

  /** Thread `a` runs alone; a more urgent thread `b` is started and takes over. */
  lemma Starts(x: Sys, k: nat, base: map<Tid, nat>, a: Tid, b: Tid)
    requires Inv(x, k, FIFO, base) && Inheriting(x, k) && x.s.lock == 0 && x.s.current == a && AwakeAre(x.s.threads, {a})
    requires b in x.s.threads && x.s.threads[b].stat == Init && a in x.s.threads && base[b] < x.s.threads[a].prio
    ensures var y := Step(x, k, FIFO, Begin(b));
            && Inv(y, k, FIFO, base) && Inheriting(y, k) && y.s.lock == 0 && y.s.current == b && AwakeAre(y.s.threads, {a, b})
            && y.m == x.m && y.pending == x.pending && At(y.s, Wait(k)) == At(x.s, Wait(k))
            && Untouched(x.s.threads, y.s.threads, {a, b})
            && y.s.threads[b].stat == Running && y.s.threads[b].prio == base[b] && y.s.threads[a].prio == x.s.threads[a].prio
  {
    hide WF, Core, Inherits, Startup, Schedule, HeadMostUrgent;
    StepInv(x, k, FIFO, base, Begin(b));
    InitRank(x, k, base, b);
    StartupFacts(x.s, b);
    var s1 := Startup(x.s, b);
    assert s1.threads.Keys == x.s.threads.Keys;
    Picks(s1, b);
  }

  lemma InitRank(x: Sys, k: nat, base: map<Tid, nat>, b: Tid)
    requires Inv(x, k, FIFO, base) && b in x.s.threads && x.s.threads[b].stat == Init
    ensures b in base && x.s.threads[b].initPrio == base[b] && b != x.m.owner
  {
  }

  /** The more urgent thread `b` waits for the mutex of `a`, which runs on with the priority it is lent. */
  lemma Blocks(x: Sys, k: nat, base: map<Tid, nat>, a: Tid, b: Tid)
    requires Inv(x, k, FIFO, base) && Inheriting(x, k) && x.s.lock == 0 && x.s.current == b && AwakeAre(x.s.threads, {a, b})
    requires x.m.owner == a && a != b && b !in x.pending && a in x.s.threads && b in x.s.threads
    requires x.s.threads[b].stat == Running && x.s.threads[b].prio < x.s.threads[a].prio
    ensures var y := Step(x, k, FIFO, Lock(-1));
            && Inv(y, k, FIFO, base) && Inheriting(y, k) && y.s.lock == 0 && y.s.current == a && AwakeAre(y.s.threads, {a})
            && y.m == x.m && y.pending == x.pending + {b} && At(y.s, Wait(k)) == At(x.s, Wait(k)) + [b]
            && Untouched(x.s.threads, y.s.threads, {a, b})
            && y.s.threads[a].stat == Running
            && y.s.threads[a].prio == x.s.threads[b].prio && y.s.threads[b].prio == x.s.threads[b].prio
  {
    hide WF, Core, Inherits, Schedule, HeadMostUrgent, Take;
    StepInv(x, k, FIFO, base, Lock(-1));
    OwnedValue(x, k, base);
    TakeBlocks(x.s, x.m, k);
    Picks(Take(x.s, x.m, k, FIFO, -1).0, a);
  }

  lemma TakeBlocks(s: State, m: Mutex, k: nat)
    requires WF(s) && m.owner in s.threads && m.owner != s.current && m.value == 0 && s.current in s.threads
    requires s.threads[s.current].stat == Running && s.threads[s.current].prio < s.threads[m.owner].prio < PRIORITY_MAX
    ensures var r, b := Take(s, m, k, FIFO, -1), s.current;
            && r.2 == Blocked && r.1 == m && WF(r.0) && r.0.current == b && r.0.lock == s.lock
            && Untouched(s.threads, r.0.threads, {m.owner, b})
            && r.0.threads[b].prio == s.threads[b].prio && r.0.threads[b].stat == Suspended
            && r.0.threads[m.owner].prio == s.threads[b].prio && r.0.threads[m.owner].stat == s.threads[m.owner].stat
            && At(r.0, Wait(k)) == At(s, Wait(k)) + [b]
  {
    hide WF, ChangePriority, ListSuspend;
    var a, b, p := m.owner, s.current, s.threads[s.current].prio;
    MarkFacts(s, b, s.threads[b].(error := EOK));
    var s0 := SetError(s, b, EOK);
    ChangePriorityFacts(s0, a, p);
    var s1 := ChangePriority(s0, a, p);
    assert s1.threads.Keys == s.threads.Keys;
    ListSuspendFacts(s1, k, b, FIFO);
    assert InsertAt(At(s, Wait(k)), |At(s, Wait(k))|, b) == At(s, Wait(k)) + [b];
  }

  lemma OwnedValue(x: Sys, k: nat, base: map<Tid, nat>)
    requires Inv(x, k, FIFO, base) && x.m.owner in x.s.threads
    ensures x.m.value == 0 && x.m.owner != NO_THREAD
    ensures forall t :: t in x.s.threads ==> x.s.threads[t].prio < PRIORITY_MAX
  {
  }

  /** The only running thread takes the free mutex. */
  lemma Owns(x: Sys, k: nat, base: map<Tid, nat>, a: Tid)
    requires Fresh(x, k, base) && x.s.lock == 0 && x.s.current == a && AwakeAre(x.s.threads, {a})
    requires a in x.s.threads && x.s.threads[a].stat == Running
    ensures var y := Step(x, k, FIFO, Lock(0));
            && Inv(y, k, FIFO, base) && Inheriting(y, k) && y.s.lock == 0 && y.s.current == a && AwakeAre(y.s.threads, {a})
            && y.m.owner == a && y.m.hold == 1 && y.pending == {} && At(y.s, Wait(k)) == []
            && Untouched(x.s.threads, y.s.threads, {a})
            && y.s.threads[a].stat == Running && y.s.threads[a].prio == base[a]
  {
    FreshInv(x, k, FIFO, base);
    hide WF, Core, Inherits, Schedule, HeadMostUrgent;
    StepInv(x, k, FIFO, base, Lock(0));
  }

  /** From any fresh mutex: `a` takes it, two more urgent threads start and wait for it, the less urgent one first,
      and `a` releases it. Up to the release the owner is at least as urgent as its waiters; after it, it is not. */
  lemma FifoLosesInheritance(x: Sys, k: nat, base: map<Tid, nat>, a: Tid, b: Tid, c: Tid)
    requires Fresh(x, k, base) && x.s.lock == 0 && x.s.current == a && AwakeAre(x.s.threads, {a})
    requires {a, b, c} <= x.s.threads.Keys && x.s.threads[a].stat == Running && x.s.threads[b].stat == x.s.threads[c].stat == Init
    requires base[c] < base[b] < base[a]
    ensures var y := Steps(x, k, FIFO, [Lock(0)] + ([Begin(b)] + ([Lock(-1)] + ([Begin(c)] + ([Lock(-1)] + [])))));
            && y.m.owner == y.s.current == a && At(y.s, Wait(k)) == [b, c]
            && Inheriting(y, k) && !Inheriting(Step(y, k, FIFO, Unlock), k)
  {
    hide Fresh, Inv, Inheriting, Step;
    Owns(x, k, base, a);
    var x1 := Step(x, k, FIFO, Lock(0));
    StepsFirst(x, k, Lock(0), [Begin(b)] + ([Lock(-1)] + ([Begin(c)] + ([Lock(-1)] + []))));
    assert b in x1.s.threads.Keys && c in x1.s.threads.Keys;
    Starts(x1, k, base, a, b);
    var x2 := Step(x1, k, FIFO, Begin(b));
    StepsFirst(x1, k, Begin(b), [Lock(-1)] + ([Begin(c)] + ([Lock(-1)] + [])));
    assert a in x2.s.threads.Keys && b in x2.s.threads.Keys;
    Blocks(x2, k, base, a, b);
    var x3 := Step(x2, k, FIFO, Lock(-1));
    StepsFirst(x2, k, Lock(-1), [Begin(c)] + ([Lock(-1)] + []));
    assert c in x3.s.threads.Keys && a in x3.s.threads.Keys;
    Starts(x3, k, base, a, c);
    var x4 := Step(x3, k, FIFO, Begin(c));
    StepsFirst(x3, k, Begin(c), [Lock(-1)] + []);
    assert c in x4.s.threads.Keys && a in x4.s.threads.Keys;
    Blocks(x4, k, base, a, c);
    var x5 := Step(x4, k, FIFO, Lock(-1));
    StepsFirst(x4, k, Lock(-1), []);
    assert b in x5.s.threads.Keys && c in x5.s.threads.Keys && a in x5.s.threads.Keys;
    LosesIt(x5, k, base, b, c);
  }

  lemma LosesIt(x: Sys, k: nat, base: map<Tid, nat>, b: Tid, c: Tid)
    requires Inv(x, k, FIFO, base) && Inheriting(x, k) && x.s.lock == 0 && At(x.s, Wait(k)) == [b, c]
    requires x.m.owner == x.s.current && x.s.current in x.s.threads && x.s.threads[x.s.current].stat == Running
    requires x.s.current !in x.pending && x.m.hold == 1
    requires b in x.s.threads && c in x.s.threads && x.s.threads[c].prio < x.s.threads[b].prio
    ensures !Inheriting(Step(x, k, FIFO, Unlock), k)
  {
    hide Inv, Inheriting, Step;
    StepInv(x, k, FIFO, base, Unlock);
    assert At(x.s, Wait(k))[1] == c;
  }

  lemma StepsFirst(x: Sys, k: nat, op: Op, ops: seq<Op>)
    ensures Steps(x, k, FIFO, [op] + ops) == Steps(Step(x, k, FIFO, op), k, FIFO, ops)
  {
    hide Step;
    assert ([op] + ops)[1..] == ops;
  }

  /** Such a system: thread 1 runs, threads 2 and 3 have not been started. */
  const THREE := Sys(
    State(map[1 := Thread(Running, 20, 20, BitScan.Mask(20), EOK, false),
              2 := Thread(Init, 10, 10, 0, EOK, false),
              3 := Thread(Init, 5, 5, 0, EOK, false)],
          map[], 0, 1, 0),
    FREE, {})

  lemma ThreeLoseInheritance()
    ensures var base: map<Tid, nat> := map[1 := 20, 2 := 10, 3 := 5];
            Fresh(THREE, 0, base) && AwakeAre(THREE.s.threads, {1}) && base[3] < base[2] < base[1]
    ensures var y := Steps(THREE, 0, FIFO, [Lock(0)] + ([Begin(2)] + ([Lock(-1)] + ([Begin(3)] + ([Lock(-1)] + [])))));
            Inheriting(y, 0) && !Inheriting(Step(y, 0, FIFO, Unlock), 0)
  {
    hide WF, Step, Inheriting, Steps;
    FirstStartWF(THREE.s.threads, 1);
    FifoLosesInheritance(THREE, 0, map[1 := 20, 2 := 10, 3 := 5], 1, 2, 3);
  }
}
