/** Mutual exclusion, priority inheritance and priority restoration over every run. */
module MutexLaws {
  import opened Rings
  import opened Sched
  import opened SchedLaws
  import opened WaitQueue
  import opened MutexSpec

  // ----- threads and lists change, the mutex does not

  /** Priorities are the same, and no thread starts. */
  ghost predicate SameRanks(a: map<Tid, Thread>, b: map<Tid, Thread>) {
    && a.Keys == b.Keys
    && forall t :: t in a ==>
         b[t].prio == a[t].prio && b[t].initPrio == a[t].initPrio && (b[t].stat == Init <==> a[t].stat == Init)
  }

  lemma RankAt(a: map<Tid, Thread>, b: map<Tid, Thread>, t: Tid)
    requires SameRanks(a, b)
    ensures t in a <==> t in b
    ensures t in a ==> a[t].prio == b[t].prio
  {
    assert t in a.Keys <==> t in b.Keys;
  }

  lemma RanksLent(a: map<Tid, Thread>, b: map<Tid, Thread>, m: Mutex, base: map<Tid, nat>)
    requires Lent(a, m, base) && SameRanks(a, b)
    ensures Lent(b, m, base)
  {
  }

  lemma RanksSorted(a: map<Tid, Thread>, b: map<Tid, Thread>, q: seq<Tid>)
    requires SameRanks(a, b)
    ensures Sorted(a, q) <==> Sorted(b, q)
  {
    forall i | 0 <= i < |q| ensures q[i] in a <==> q[i] in b ensures q[i] in a ==> a[q[i]].prio == b[q[i]].prio {
      RankAt(a, b, q[i]);
    }
  }

  lemma RanksInherits(a: map<Tid, Thread>, b: map<Tid, Thread>, q: seq<Tid>, m: Mutex)
    requires SameRanks(a, b)
    ensures Inherits(a, q, m) <==> Inherits(b, q, m)
  {
    forall i | 0 <= i < |q| ensures q[i] in a <==> q[i] in b ensures q[i] in a ==> a[q[i]].prio == b[q[i]].prio {
      RankAt(a, b, q[i]);
    }
  }

  lemma RanksCore(a: map<Tid, Thread>, b: map<Tid, Thread>, q: seq<Tid>, m: Mutex, pending: set<Tid>, flag: Flag, base: map<Tid, nat>)
    requires Core(a, q, m, pending, flag, base) && SameRanks(a, b)
    requires Settled(b, q, m, pending)
    ensures Core(b, q, m, pending, flag, base)
    ensures Inherits(a, q, m) <==> Inherits(b, q, m)
  {
    hide SameRanks, Settled, Sorted, Lent, Inherits;
    RanksLent(a, b, m, base);
    RanksSorted(a, b, q);
    RanksInherits(a, b, q, m);
  }

  lemma QuietCore(a: map<Tid, Thread>, b: map<Tid, Thread>, q: seq<Tid>, m: Mutex, pending: set<Tid>, flag: Flag, base: map<Tid, nat>)
    requires Core(a, q, m, pending, flag, base) && Quiet(a, b)
    ensures Core(b, q, m, pending, flag, base)
    ensures Inherits(b, q, m) <==> Inherits(a, q, m)
  {
    assert SameRanks(a, b);
    assert Settled(b, q, m, pending);
    hide SameRanks, Settled, Core, Inherits;
    RanksCore(a, b, q, m, pending, flag, base);
  }

  /** A thread leaves the wait list. */
  lemma LeavesCore(threads: map<Tid, Thread>, q: seq<Tid>, t: Tid, m: Mutex, pending: set<Tid>, flag: Flag, base: map<Tid, nat>)
    requires Core(threads, q, m, pending, flag, base) && Distinct(q)
    requires t in threads && (threads[t].error != EOK || t == m.owner || t !in pending)
    ensures Core(threads, Without(q, t), m, pending, flag, base)
    ensures Inherits(threads, q, m) ==> Inherits(threads, Without(q, t), m)
  {
    hide Lent, Distinct, Without, Sorted, Inherits;
    WithoutMembers(q, t);
    if flag == PRIO { SortedRemove(threads, q, t); }
    if Inherits(threads, q, m) { InheritsRemove(threads, q, t, m); }
  }

  lemma InheritsRemove(threads: map<Tid, Thread>, q: seq<Tid>, t: Tid, m: Mutex)
    requires Inherits(threads, q, m)
    ensures Inherits(threads, Without(q, t), m)
  {
  }

  lemma ScheduleInv(x: Sys, s: State, k: nat, flag: Flag, base: map<Tid, nat>)
    requires Inv(x.(s := s), k, flag, base)
    ensures Inv(x.(s := Schedule(s)), k, flag, base)
    ensures Inheriting(x.(s := Schedule(s)), k) <==> Inheriting(x.(s := s), k)
  {
    hide WF, Core, Schedule, Quiet;
    ScheduleFacts(s);
    QuietCore(s.threads, Schedule(s).threads, At(s, Wait(k)), x.m, x.pending, flag, base);
  }

  lemma FailedSettled(a: map<Tid, Thread>, b: map<Tid, Thread>, q: seq<Tid>, m: Mutex, pending: set<Tid>, t: Tid, flag: Flag, base: map<Tid, nat>)
    requires Core(a, q, m, pending, flag, base) && t in a && a[t].stat != Init && t in b && b == a[t := b[t]]
    requires b[t].prio == a[t].prio && b[t].initPrio == a[t].initPrio && b[t].stat != Init
    requires b[t].error != EOK || t !in pending
    ensures SameRanks(a, b) && Settled(b, q, m, pending)
  {
  }

  lemma TimeoutInv(x: Sys, k: nat, flag: Flag, base: map<Tid, nat>, t: Tid)
    requires Inv(x, k, flag, base) && t in x.s.threads && x.s.threads[t].stat == Suspended
    ensures Inv(x.(s := Expire(x.s, t)), k, flag, base)
    ensures Inheriting(x, k) ==> Inheriting(x.(s := Expire(x.s, t)), k)
  {
    hide WF, Core, Expire, Inherits;
    var a, b, q := x.s.threads, Expire(x.s, t).threads, At(x.s, Wait(k));
    ExpireFacts(x.s, t);
    MembersKnown(x.s, k);
    FailedSettled(a, b, q, x.m, x.pending, t, flag, base);
    hide SameRanks, Settled;
    RanksCore(a, b, q, x.m, x.pending, flag, base);
    LeavesCore(b, q, t, x.m, x.pending, flag, base);
  }

  // ----- take

  /** Error and timer changes of a thread outside pending takes. */
  lemma MarkInv(x: Sys, k: nat, flag: Flag, base: map<Tid, nat>, t: Tid, th: Thread)
    requires Inv(x, k, flag, base) && t in x.s.threads && (t !in x.pending || th.error == x.s.threads[t].error)
    requires th == x.s.threads[t].(error := th.error, timer := th.timer)
    ensures Inv(x.(s := Set(x.s, t, th)), k, flag, base)
    ensures Inheriting(x.(s := Set(x.s, t, th)), k) <==> Inheriting(x, k)
  {
    hide WF, Sorted, Inherits, Lent;
    Known(x.s, t);
    UpdateWF(x.s, t, th);
    var b := Set(x.s, t, th);
    assert At(b, Wait(k)) == At(x.s, Wait(k));
    assert SameRanks(x.s.threads, b.threads);
    MarkSettled(x.s.threads, b.threads, At(x.s, Wait(k)), x.m, x.pending, t);
    hide SameRanks, Settled, Core;
    RanksCore(x.s.threads, b.threads, At(x.s, Wait(k)), x.m, x.pending, flag, base);
  }

  lemma MarkSettled(a: map<Tid, Thread>, b: map<Tid, Thread>, q: seq<Tid>, m: Mutex, pending: set<Tid>, t: Tid)
    requires Settled(a, q, m, pending) && t in a && t in b && b == a[t := b[t]] && (t !in pending || b[t].error == a[t].error)
    ensures Settled(b, q, m, pending)
  {
  }

  lemma ClaimCore(threads: map<Tid, Thread>, m: Mutex, m': Mutex, q: seq<Tid>, t: Tid, pending: set<Tid>, flag: Flag, base: map<Tid, nat>)
    requires Core(threads, q, m, pending, flag, base) && NO_THREAD !in threads
    requires t in threads && threads[t].stat == Running && t !in pending && t != m.owner && m.value > 0
    requires m' == Mutex(m.value - 1, t, threads[t].prio, m.hold + 1)
    ensures Core(threads, q, m', pending, flag, base) && Inherits(threads, q, m')
  {
  }

  lemma BoostCore(a: map<Tid, Thread>, b: map<Tid, Thread>, q: seq<Tid>, m: Mutex, pending: set<Tid>, flag: Flag, base: map<Tid, nat>, p: nat)
    requires Core(a, q, m, pending, flag, base) && m.owner in a && a.Keys == b.Keys && p <= base[m.owner]
    requires b[m.owner] == a[m.owner].(prio := p, mask := b[m.owner].mask)
    requires forall t :: t in a && t != m.owner ==> b[t] == a[t]
    requires a[m.owner].stat != Init
    ensures Core(b, q, m, pending, flag, base)
    ensures Inherits(a, q, m) && p <= a[m.owner].prio ==> Inherits(b, q, m)
  {
    forall i | 0 <= i < |q| ensures q[i] != m.owner { var t := q[i]; assert t in q; }
    forall t | t in pending && t !in q ensures t in b && (b[t].error == EOK ==> t == m.owner) {
      assert t in b.Keys;
    }
    if flag == PRIO {
      forall i | 0 <= i < |q| ensures q[i] in b && b[q[i]].prio == a[q[i]].prio { assert q[i] in b.Keys; }
    }
    if Inherits(a, q, m) {
      forall i | 0 <= i < |q| ensures q[i] in b && b[q[i]].prio == a[q[i]].prio { assert q[i] in b.Keys; }
    }
  }

  lemma EnterCore(threads: map<Tid, Thread>, q: seq<Tid>, i: nat, m: Mutex, t: Tid, pending: set<Tid>, flag: Flag, base: map<Tid, nat>)
    requires Core(threads, q, m, pending, flag, base) && t in threads && t != m.owner && m.owner in threads && m.owner != NO_THREAD
    requires i <= |q| && (flag == PRIO ==> i == Place(threads, q, threads[t].prio))
    ensures Core(threads, InsertAt(q, i, t), m, pending + {t}, flag, base)
    ensures Inherits(threads, q, m) && threads[m.owner].prio <= threads[t].prio ==> Inherits(threads, InsertAt(q, i, t), m)
  {
    hide Lent, Place, Sorted;
    var r := InsertAt(q, i, t);
    InsertMembers(q, i, t);
    if flag == PRIO { SortedInsert(threads, q, t); }
    if Inherits(threads, q, m) && threads[m.owner].prio <= threads[t].prio {
      forall j | 0 <= j < |r| ensures r[j] in threads && threads[m.owner].prio <= threads[r[j]].prio {
        assert r[j] == if j < i then q[j] else if j == i then t else q[j - 1];
      }
    }
  }

  lemma BoostInv(x: Sys, k: nat, flag: Flag, base: map<Tid, nat>, p: nat)
    requires Inv(x, k, flag, base) && x.m.owner != NO_THREAD && p < PRIORITY_MAX
    ensures var x' := x.(s := Boost(x.s, x.m.owner, p));
            && Inv(x', k, flag, base) && SameWaits(x.s, x'.s)
            && x.m.owner in x'.s.threads && x'.s.threads[x.m.owner].prio <= p && (Inheriting(x, k) ==> Inheriting(x', k))
            && x'.s.current == x.s.current && x'.s.lock == x.s.lock && x'.s.threads.Keys == x.s.threads.Keys
            && (forall t :: t in x.s.threads && t != x.m.owner ==> x'.s.threads[t] == x.s.threads[t])
  {
    var o := x.m.owner;
    hide WF, Settled, Sorted, ChangePriority, Inherits;
    if p < T(x.s, o).prio {
      ChangePriorityFacts(x.s, o, p);
      hide Lent, Core;
      BoostCore(x.s.threads, ChangePriority(x.s, o, p).threads, At(x.s, Wait(k)), x.m, x.pending, flag, base, p);
    }
  }

  lemma BlockInv(x: Sys, k: nat, flag: Flag, base: map<Tid, nat>)
    requires Inv(x, k, flag, base) && Free(x) && x.m.owner != NO_THREAD && x.m.owner != x.s.current
    ensures var x' := Sys(ListSuspend(x.s, k, x.s.current, flag), x.m, x.pending + {x.s.current});
            && Inv(x', k, flag, base) && x'.s.current == x.s.current
            && (Inheriting(x, k) && T(x.s, x.m.owner).prio <= T(x.s, x.s.current).prio ==> Inheriting(x', k))
  {
    var t, s' := x.s.current, ListSuspend(x.s, k, x.s.current, flag);
    var a, b, q := x.s.threads, s'.threads, At(x.s, Wait(k));
    hide WF, ListSuspend, Core, Inherits, Place;
    ListSuspendFacts(x.s, k, t, flag);
    BlockRanks(a, b, q, x.m, x.pending, t, flag, base);
    hide SameRanks, Settled;
    RanksCore(a, b, q, x.m, x.pending, flag, base);
    MembersKnown(x.s, k);
    PlaceSame(a, b, q, a[t].prio);
    EnterCore(b, q, Slot(x.s, k, t, flag), x.m, t, x.pending, flag, base);
  }

  lemma BlockRanks(a: map<Tid, Thread>, b: map<Tid, Thread>, q: seq<Tid>, m: Mutex, pending: set<Tid>, t: Tid, flag: Flag, base: map<Tid, nat>)
    requires Core(a, q, m, pending, flag, base) && t in a && t !in pending && m.owner != NO_THREAD && a[t].stat != Init
    requires b == a[t := a[t].(stat := Suspended, timer := false)]
    ensures SameRanks(a, b) && Settled(b, q, m, pending) && m.owner in b
  {
    MarkSettled(a, b, q, m, pending, t);
  }

  /** Taking: every case keeps the invariant and the inheritance. */
  lemma LockInv(x: Sys, k: nat, flag: Flag, base: map<Tid, nat>, time: int)
    requires Inv(x, k, flag, base)
    ensures Inv(Step(x, k, flag, Lock(time)), k, flag, base)
    ensures Inheriting(x, k) ==> Inheriting(Step(x, k, flag, Lock(time)), k)
  {
    if Free(x) {
      hide WF, Core, Inherits, Schedule, ListSuspend, Boost;
      var t := x.s.current;
      var x0 := x.(s := SetError(x.s, t, EOK));
      MarkInv(x, k, flag, base, t, x.s.threads[t].(error := EOK));
      CurrentKnown(x.s);
      if x.m.owner == t {
        CountCore(x0.s.threads, At(x0.s, Wait(k)), x.m, x.m.hold + 1, x.pending, flag, base);
      } else if x.m.value > 0 {
        NullAbsent(x0.s);
        ClaimCore(x0.s.threads, x.m, Mutex(x.m.value - 1, t, T(x0.s, t).prio, x.m.hold + 1), At(x0.s, Wait(k)), t, x.pending, flag, base);
      } else if time == 0 {
        MarkInv(x0, k, flag, base, t, x0.s.threads[t].(error := ETIMEOUT));
      } else {
        LockBlocksInv(x0, k, flag, base, time);
      }
    }
  }

  lemma LockBlocksInv(x: Sys, k: nat, flag: Flag, base: map<Tid, nat>, time: int)
    requires Inv(x, k, flag, base) && Free(x) && x.m.value == 0 && x.m.owner != x.s.current
    ensures var t := x.s.current;
            var s1 := ListSuspend(Boost(x.s, x.m.owner, T(x.s, t).prio), k, t, flag);
            var x' := Sys(Schedule(if time > 0 then Arm(s1, t) else s1), x.m, x.pending + {t});
            Inv(x', k, flag, base) && (Inheriting(x, k) ==> Inheriting(x', k))
  {
    hide WF, Core, Inherits, Schedule, ListSuspend, Boost;
    var t := x.s.current;
    CurrentKnown(x.s);
    OwnedWhenTaken(x.s.threads, At(x.s, Wait(k)), x.m, x.pending, flag, base);
    var p := T(x.s, t).prio;
    BoostInv(x, k, flag, base, p);
    var x1 := x.(s := Boost(x.s, x.m.owner, p));
    BlockInv(x1, k, flag, base);
    var x2 := Sys(ListSuspend(x1.s, k, t, flag), x.m, x.pending + {t});
    ArmInv(x2, k, flag, base, t, time);
    ScheduleInv(x2, if time > 0 then Arm(x2.s, t) else x2.s, k, flag, base);
  }

  lemma ArmInv(x: Sys, k: nat, flag: Flag, base: map<Tid, nat>, t: Tid, time: int)
    requires Inv(x, k, flag, base) && t == x.s.current
    ensures var x' := if time > 0 then x.(s := Arm(x.s, t)) else x;
            Inv(x', k, flag, base) && (Inheriting(x', k) <==> Inheriting(x, k))
  {
    hide WF, Core, Inherits;
    CurrentKnown(x.s);
    if time > 0 { MarkInv(x, k, flag, base, t, x.s.threads[t].(timer := true)); }
  }

  lemma NullAbsent(s: State)
    requires WF(s)
    ensures NO_THREAD !in s.threads
  {
  }

  lemma OwnedWhenTaken(threads: map<Tid, Thread>, q: seq<Tid>, m: Mutex, pending: set<Tid>, flag: Flag, base: map<Tid, nat>)
    requires Core(threads, q, m, pending, flag, base) && m.value == 0
    ensures m.owner != NO_THREAD && m.owner in threads
  {
  }

  lemma CountCore(threads: map<Tid, Thread>, q: seq<Tid>, m: Mutex, hold: nat, pending: set<Tid>, flag: Flag, base: map<Tid, nat>)
    requires Core(threads, q, m, pending, flag, base) && m.owner != NO_THREAD && hold > 0
    ensures Core(threads, q, m.(hold := hold), pending, flag, base)
    ensures Inherits(threads, q, m.(hold := hold)) <==> Inherits(threads, q, m)
  {
  }

  // ----- release

  lemma RestoreInv(x: Sys, k: nat, flag: Flag, base: map<Tid, nat>)
    requires Inv(x, k, flag, base) && x.m.owner != NO_THREAD
    ensures var x' := x.(s := Restore(x.s, x.m.owner, x.m.original));
            && Inv(x', k, flag, base) && SameWaits(x.s, x'.s)
            && x.m.owner in x'.s.threads && x.m.owner in base && x'.s.threads[x.m.owner].prio == base[x.m.owner]
            && x'.s.current == x.s.current && x'.s.lock == x.s.lock && x'.s.threads.Keys == x.s.threads.Keys
            && (forall t :: t in x.s.threads && t != x.m.owner ==> x'.s.threads[t] == x.s.threads[t])
  {
    var o := x.m.owner;
    hide WF, Settled, Sorted, ChangePriority, Inherits;
    if x.m.original != T(x.s, o).prio {
      ChangePriorityFacts(x.s, o, x.m.original);
      hide Lent, Core;
      BoostCore(x.s.threads, ChangePriority(x.s, o, x.m.original).threads, At(x.s, Wait(k)), x.m, x.pending, flag, base, x.m.original);
    }
  }

  lemma FreeCore(threads: map<Tid, Thread>, q: seq<Tid>, m: Mutex, pending: set<Tid>, flag: Flag, base: map<Tid, nat>)
    requires Core(threads, q, m, pending, flag, base) && q == [] && m.owner in threads && m.owner !in pending
    requires m.owner != NO_THREAD && threads[m.owner].prio == base[m.owner] && threads[m.owner].stat != Init
    ensures Core(threads, q, Mutex(m.value + 1, NO_THREAD, NO_PRIORITY, 0), pending, flag, base)
  {
  }

  /** The first waiter becomes the owner; it is the most urgent one exactly when the inheritance survives. */
  lemma HandCore(threads: map<Tid, Thread>, q: seq<Tid>, m: Mutex, pending: set<Tid>, flag: Flag, base: map<Tid, nat>)
    requires Core(threads, q, m, pending, flag, base) && q != [] && Distinct(q) && m.owner in threads && m.owner !in pending
    requires threads[m.owner].prio == base[m.owner] && threads[m.owner].stat != Init
    requires forall i :: 0 <= i < |q| ==> q[i] in threads && threads[q[i]].stat != Init && q[i] != NO_THREAD
    ensures var m' := Mutex(m.value, q[0], threads[q[0]].prio, 1);
            && Core(threads, q[1..], m', pending, flag, base)
            && (Inherits(threads, q[1..], m') <==> HeadMostUrgent(threads, q))
  {
    var m' := Mutex(m.value, q[0], threads[q[0]].prio, 1);
    assert q[0] in q;
    assert Lent(threads, m', base) by { HandLent(threads, m, m', base); }
    hide Lent;
    assert Settled(threads, q[1..], m', pending) by {
      forall t | t in pending && t !in q[1..] ensures t in threads && (threads[t].error == EOK ==> t == q[0]) {
        if t != q[0] { assert t !in q; }
      }
    }
    assert Waited(q[1..], m');
    if Inherits(threads, q[1..], m') {
      forall i | 0 <= i < |q| ensures threads[q[0]].prio <= threads[q[i]].prio {
        if i > 0 { assert q[i] == q[1..][i - 1]; }
      }
    }
  }

  lemma HandLent(threads: map<Tid, Thread>, m: Mutex, m': Mutex, base: map<Tid, nat>)
    requires Lent(threads, m, base) && m.owner in threads && threads[m.owner].prio == base[m.owner]
    requires m'.owner in threads && m'.owner != m.owner && m'.original == threads[m'.owner].prio && threads[m'.owner].stat != Init
    ensures Lent(threads, m', base)
  {
  }

  lemma WaiterKnown(s: State, k: nat)
    requires WF(s)
    ensures var q := At(s, Wait(k));
            && Distinct(q)
            && forall i :: 0 <= i < |q| ==> q[i] in s.threads && s.threads[q[i]].stat == Suspended && q[i] != NO_THREAD
  {
    MembersKnown(s, k);
  }

  /** Waking the new owner. */
  lemma HandInv(x: Sys, k: nat, flag: Flag, base: map<Tid, nat>)
    requires Inv(x, k, flag, base) && At(x.s, Wait(k)) != [] && x.m.owner in x.s.threads && x.m.owner !in x.pending
    requires x.m.owner in base && x.s.threads[x.m.owner].prio == base[x.m.owner] && x.s.threads[x.m.owner].stat != Init
    ensures var w := At(x.s, Wait(k))[0];
            var x' := Sys(ListResume(x.s, k), Mutex(x.m.value, w, T(x.s, w).prio, 1), x.pending);
            && Inv(x', k, flag, base)
            && (Inheriting(x', k) <==> HeadMostUrgent(x.s.threads, At(x.s, Wait(k))))
  {
    hide WF, Core, Inherits, ListResume, HeadMostUrgent;
    var a, b, q := x.s.threads, ListResume(x.s, k).threads, At(x.s, Wait(k));
    WaiterKnown(x.s, k);
    var m' := Mutex(x.m.value, q[0], a[q[0]].prio, 1);
    HandCore(a, q, x.m, x.pending, flag, base);
    ListResumeFacts(x.s, k);
    assert SameRanks(a, b);
    CoreSettled(a, q[1..], m', x.pending, flag, base);
    TimerSettled(a, b, q[1..], m', x.pending, q[0]);
    hide SameRanks, Settled;
    RanksCore(a, b, q[1..], m', x.pending, flag, base);
  }

  lemma CoreSettled(threads: map<Tid, Thread>, q: seq<Tid>, m: Mutex, pending: set<Tid>, flag: Flag, base: map<Tid, nat>)
    requires Core(threads, q, m, pending, flag, base)
    ensures Settled(threads, q, m, pending)
  {
  }

  lemma TimerSettled(a: map<Tid, Thread>, b: map<Tid, Thread>, q: seq<Tid>, m: Mutex, pending: set<Tid>, t: Tid)
    requires Settled(a, q, m, pending) && t in a && t in b && b == a[t := b[t]] && b[t].error == a[t].error
    ensures Settled(b, q, m, pending)
  {
  }

  lemma OwnerKnown(threads: map<Tid, Thread>, q: seq<Tid>, m: Mutex, pending: set<Tid>, flag: Flag, base: map<Tid, nat>)
    requires Core(threads, q, m, pending, flag, base) && m.owner != NO_THREAD
    ensures m.owner in threads && threads[m.owner].stat != Init && m.value == 0 && m.hold > 0
    ensures m.owner in base && m.original == base[m.owner]
  {
  }

  /** Releasing keeps the invariant; it breaks the inheritance exactly when it hands the mutex to a waiter that
      is not the most urgent one. */
  lemma UnlockInv(x: Sys, k: nat, flag: Flag, base: map<Tid, nat>)
    requires Inv(x, k, flag, base)
    ensures Inv(Step(x, k, flag, Unlock), k, flag, base)
    ensures Inheriting(x, k) ==>
              (Inheriting(Step(x, k, flag, Unlock), k) <==>
               (HandsOver(x, k, Unlock) ==> HeadMostUrgent(x.s.threads, At(x.s, Wait(k)))))
  {
    if Free(x) {
      hide WF, Core, Inherits, Schedule, Restore, ListResume, HeadMostUrgent;
      var t := x.s.current;
      var q := At(x.s, Wait(k));
      CurrentKnown(x.s);
      NullAbsent(x.s);
      if t != x.m.owner {
        MarkInv(x, k, flag, base, t, x.s.threads[t].(error := ERROR));
      } else {
        OwnerKnown(x.s.threads, q, x.m, x.pending, flag, base);
        if x.m.hold > 1 {
          CountCore(x.s.threads, q, x.m, x.m.hold - 1, x.pending, flag, base);
        } else {
          LastUnlockInv(x, k, flag, base);
        }
      }
    }
  }

  lemma LastUnlockInv(x: Sys, k: nat, flag: Flag, base: map<Tid, nat>)
    requires Inv(x, k, flag, base) && x.m.owner == x.s.current && x.m.owner !in x.pending && x.m.hold == 1
    requires x.m.owner in x.s.threads && x.s.threads[x.m.owner].stat == Running
    ensures var r := Release(x.s, x.m, k);
            var x' := Sys(if r.2 == HandedOver then Schedule(r.0) else r.0, r.1, x.pending);
            && (r.2 == HandedOver <==> At(x.s, Wait(k)) != [])
            && Inv(x', k, flag, base)
            && (Inheriting(x', k) <==> (At(x.s, Wait(k)) == [] || HeadMostUrgent(x.s.threads, At(x.s, Wait(k)))))
  {
    hide WF, Core, Schedule, Restore, ListResume, HeadMostUrgent, Lent, Settled, Sorted;
    var q := At(x.s, Wait(k));
    OwnerKnown(x.s.threads, q, x.m, x.pending, flag, base);
    NullAbsent(x.s);
    RestoreInv(x, k, flag, base);
    var x1 := x.(s := Restore(x.s, x.m.owner, x.m.original));
    assert At(x1.s, Wait(k)) == q;
    OwnerKnown(x1.s.threads, q, x.m, x.pending, flag, base);
    if q == [] {
      FreeCore(x1.s.threads, q, x.m, x.pending, flag, base);
    } else {
      hide Inherits;
      HandInv(x1, k, flag, base);
      SameUrgency(x.s.threads, x1.s.threads, q, x.m, x.pending, flag, base);
      var r := Release(x.s, x.m, k);
      ScheduleInv(Sys(r.0, r.1, x.pending), r.0, k, flag, base);
    }
  }

  lemma SameUrgency(a: map<Tid, Thread>, b: map<Tid, Thread>, q: seq<Tid>, m: Mutex, pending: set<Tid>, flag: Flag, base: map<Tid, nat>)
    requires Core(a, q, m, pending, flag, base) && a.Keys == b.Keys
    requires forall t :: t in a && t != m.owner ==> b[t] == a[t]
    ensures HeadMostUrgent(a, q) <==> HeadMostUrgent(b, q)
  {
    forall i | 0 <= i < |q| ensures (q[i] in a <==> q[i] in b) && (q[i] in a ==> b[q[i]] == a[q[i]]) {
      var t := q[i];
      assert t in q;
      assert t in a.Keys <==> t in b.Keys;
    }
  }

  // ----- the other steps

  lemma SleepInv(x: Sys, k: nat, flag: Flag, base: map<Tid, nat>)
    requires Inv(x, k, flag, base) && Free(x)
    ensures var x' := x.(s := Arm(Suspend(x.s, x.s.current), x.s.current));
            Inv(x', k, flag, base) && (Inheriting(x', k) <==> Inheriting(x, k))
  {
    hide WF, Core, Inherits, Suspend;
    var t, s' := x.s.current, Suspend(x.s, x.s.current);
    var q := At(x.s, Wait(k));
    SuspendWF(x.s, t);
    SuspendWaits(x.s, t);
    assert SameRanks(x.s.threads, s'.threads);
    CoreSettled(x.s.threads, q, x.m, x.pending, flag, base);
    TimerSettled(x.s.threads, s'.threads, q, x.m, x.pending, t);
    RanksCore(x.s.threads, s'.threads, q, x.m, x.pending, flag, base);
    ArmInv(x.(s := s'), k, flag, base, t, 1);
  }

  lemma StartupFacts(s: State, t: Tid)
    requires WF(s) && t in s.threads && s.threads[t].stat == Init && t != s.current
    ensures var s' := Startup(s, t);
            && WF(s') && SameWaits(s, s') && s'.current == s.current && s'.lock == s.lock
            && t in s'.threads && s'.threads == s.threads[t := s'.threads[t]]
            && s'.threads[t].prio == s.threads[t].initPrio && s'.threads[t].stat == Runnable
            && s'.threads[t].error == s.threads[t].error
            && (forall k :: t !in At(s, Wait(k)))
  {
    hide WF, Resume, Loose;
    StartupWF(s, t);
    InitLoose(s, t);
    var th := s.threads[t];
    var s1 := Set(s, t, th.(prio := th.initPrio, mask := BitScan.Mask(th.initPrio), stat := Suspended));
    assert WF(s1) by { StoppedWF(s, t, s1); }
    ResumeFacts(s1, t);
    forall k ensures At(Resume(s1, t), Wait(k)) == At(s, Wait(k)) { assert At(s1, Wait(k)) == At(s, Wait(k)); }
  }

  lemma StoppedWF(s: State, t: Tid, s': State)
    requires WF(s) && t in s.threads && s.threads[t].stat == Init && t != s.current
    requires s' == Set(s, t, s.threads[t].(prio := s.threads[t].initPrio, mask := BitScan.Mask(s.threads[t].initPrio), stat := Suspended))
    ensures WF(s')
  {
    hide WFBut;
    InitLoose(s, t);
    StopsBeing(s, t, s');
  }

  lemma BeginCore(a: map<Tid, Thread>, b: map<Tid, Thread>, q: seq<Tid>, m: Mutex, pending: set<Tid>, t: Tid, flag: Flag, base: map<Tid, nat>)
    requires Core(a, q, m, pending, flag, base) && t in a && a[t].stat == Init && t !in q && t in b && b == a[t := b[t]]
    requires b[t].prio == a[t].initPrio && b[t].stat == Runnable && b[t].error == a[t].error
    requires NO_THREAD !in a
    ensures Core(b, q, m, pending, flag, base)
    ensures Inherits(b, q, m) <==> Inherits(a, q, m)
  {
    assert t != m.owner;
    forall i | 0 <= i < |q| ensures q[i] != t { var u := q[i]; assert u in q; }
    assert Lent(b, m, base);
    hide Lent;
    forall u | u in pending && u !in q ensures u in b && (b[u].error == EOK ==> u == m.owner) {
      assert u in a;
    }
    assert Settled(b, q, m, pending);
    if flag == PRIO { assert Sorted(b, q); }
  }

  lemma BeginInv(x: Sys, k: nat, flag: Flag, base: map<Tid, nat>, t: Tid)
    requires Inv(x, k, flag, base) && t in x.s.threads && x.s.threads[t].stat == Init
    ensures Inv(x.(s := Startup(x.s, t)), k, flag, base)
    ensures Inheriting(x.(s := Startup(x.s, t)), k) <==> Inheriting(x, k)
  {
    hide WF, Core, Inherits, Startup;
    CurrentKnown(x.s);
    NullAbsent(x.s);
    StartupFacts(x.s, t);
    BeginCore(x.s.threads, Startup(x.s, t).threads, At(x.s, Wait(k)), x.m, x.pending, t, flag, base);
  }

  lemma ReturnInv(x: Sys, k: nat, flag: Flag, base: map<Tid, nat>)
    requires Inv(x, k, flag, base) && x.s.current in x.s.threads && x.s.threads[x.s.current].stat == Running
    ensures Inv(x.(pending := x.pending - {x.s.current}), k, flag, base)
  {
    NotWaiting(x.s, x.s.current, k);
    hide WF, Sorted, Lent;
  }

  // ----- all runs

  /** Whatever happens, with either flag: the structure stays consistent, and the inheritance is lost only by a
      hand-over to a waiter that is not the most urgent one. */
  lemma StepInv(x: Sys, k: nat, flag: Flag, base: map<Tid, nat>, op: Op)
    requires Inv(x, k, flag, base)
    ensures Inv(Step(x, k, flag, op), k, flag, base)
    ensures Inheriting(x, k) ==>
              (Inheriting(Step(x, k, flag, op), k) <==> (HandsOver(x, k, op) ==> HeadMostUrgent(x.s.threads, At(x.s, Wait(k)))))
  {
    hide WF, Core, Inherits, HeadMostUrgent, Schedule, Startup, Expire, Take, Suspend;
    match op
    case Lock(time) => LockInv(x, k, flag, base, time);
    case Unlock =>
      UnlockInv(x, k, flag, base);
    case Return =>
      if x.s.current in x.s.threads && x.s.threads[x.s.current].stat == Running { ReturnInv(x, k, flag, base); }
    case Timeout(t) =>
      if t in x.s.threads && x.s.threads[t].stat == Suspended && x.s.threads[t].timer {
        TimeoutInv(x, k, flag, base, t);
        ScheduleInv(x, Expire(x.s, t), k, flag, base);
      }
    case Yield => ScheduleInv(x, x.s, k, flag, base);
    case Sleep =>
      if Free(x) {
        SleepInv(x, k, flag, base);
        ScheduleInv(x, Arm(Suspend(x.s, x.s.current), x.s.current), k, flag, base);
      }
    case Begin(t) =>
      if t in x.s.threads && x.s.threads[t].stat == Init {
        BeginInv(x, k, flag, base, t);
        ScheduleInv(x, Startup(x.s, t), k, flag, base);
      }
  }

  /** A fresh mutex in a consistent system whose threads all have their base priorities. */
  ghost predicate Fresh(x: Sys, k: nat, base: map<Tid, nat>) {
    && WF(x.s) && x.s.current != NO_THREAD && x.m == FREE && At(x.s, Wait(k)) == [] && x.pending == {}
    && forall t :: t in x.s.threads ==> t in base && Ranked(x.s.threads[t], base[t], false)
  }

  lemma FreshInv(x: Sys, k: nat, flag: Flag, base: map<Tid, nat>)
    requires Fresh(x, k, base)
    ensures Inv(x, k, flag, base) && Inheriting(x, k)
  {
    NullAbsent(x.s);
    hide WF;
  }

  lemma {:induction false} RunInv(x: Sys, k: nat, flag: Flag, base: map<Tid, nat>, ops: seq<Op>)
    requires Inv(x, k, flag, base)
    ensures Inv(Steps(x, k, flag, ops), k, flag, base)
    ensures flag == PRIO && Inheriting(x, k) ==> Inheriting(Steps(x, k, flag, ops), k)
    decreases |ops|
  {
    if ops != [] {
      StepInv(x, k, flag, base, ops[0]);
      if flag == PRIO { SortedHead(x.s.threads, At(x.s, Wait(k))); }
      hide Inv, Inheriting, Step, HandsOver, HeadMostUrgent;
      RunInv(Step(x, k, flag, ops[0]), k, flag, base, ops[1..]);
    }
  }

  lemma SortedHead(threads: map<Tid, Thread>, q: seq<Tid>)
    requires Sorted(threads, q)
    ensures HeadMostUrgent(threads, q)
  {
  }

  /** With RT_IPC_FLAG_PRIO, in every state any run reaches: the waiters are sorted, the owner is at least as
      urgent as each of them, and every thread but the owner has its base priority. */
  lemma PriorityInheritance(x: Sys, k: nat, base: map<Tid, nat>, ops: seq<Op>)
    requires Fresh(x, k, base)
    ensures var y := Steps(x, k, PRIO, ops);
            var q := At(y.s, Wait(k));
            && Sorted(y.s.threads, q) && Coherent(y.m) && (q != [] ==> y.m.owner in y.s.threads)
            && (forall i :: 0 <= i < |q| ==> y.s.threads[y.m.owner].prio <= y.s.threads[q[i]].prio)
            && (forall t :: t in y.s.threads && t in base && y.s.threads[t].stat != Init && t != y.m.owner ==> y.s.threads[t].prio == base[t])
  {
    FreshInv(x, k, PRIO, base);
    RunInv(x, k, PRIO, base, ops);
    hide WF, Steps, Settled;
  }

  /** A take that reports success after waiting has made its caller the owner, under either flag. */
  lemma SuccessMeansOwner(x: Sys, k: nat, flag: Flag, base: map<Tid, nat>, ops: seq<Op>)
    requires Fresh(x, k, base)
    ensures var y := Steps(x, k, flag, ops);
            var t := y.s.current;
            t in y.pending && t in y.s.threads && y.s.threads[t].stat == Running && y.s.threads[t].error == EOK ==> t == y.m.owner
  {
    FreshInv(x, k, flag, base);
    RunInv(x, k, flag, base, ops);
    var y := Steps(x, k, flag, ops);
    hide Steps, Lent, Sorted, Waited;
    if y.s.current in y.s.threads && y.s.threads[y.s.current].stat == Running { NotWaiting(y.s, y.s.current, k); }
  }

  /** A take succeeds at once exactly when nobody else owns the mutex. */
  lemma GrantedIff(x: Sys, k: nat, flag: Flag, base: map<Tid, nat>, time: int)
    requires Inv(x, k, flag, base) && Free(x)
    ensures var r := Take(x.s, x.m, k, flag, time);
            && (r.2 == Granted <==> x.m.owner == x.s.current || x.m.owner == NO_THREAD)
            && (r.2 == Granted ==> r.1.owner == x.s.current && At(x.s, Wait(k)) == At(r.0, Wait(k)))
            && (r.2 != Granted ==> r.1 == x.m)
  {
    hide WF, Lent, Settled, Sorted;
  }

  /** The last release gives the owner its base priority back and passes the mutex to the first waiter, or
      frees it when nobody waits. */
  lemma LastReleaseRestores(x: Sys, k: nat, flag: Flag, base: map<Tid, nat>)
    requires Inv(x, k, flag, base) && Free(x) && x.m.owner == x.s.current && x.m.hold == 1
    ensures var r := Release(x.s, x.m, k);
            && x.s.current in r.0.threads && x.s.current in base && r.0.threads[x.s.current].prio == base[x.s.current]
            && r.1.owner == Head(x.s, Wait(k))
            && At(r.0, Wait(k)) == (if At(x.s, Wait(k)) == [] then [] else At(x.s, Wait(k))[1..])
  {
    hide WF, Core, Inherits, Restore, ListResume;
    CurrentKnown(x.s);
    NullAbsent(x.s);
    RestoreInv(x, k, flag, base);
    var s1 := Restore(x.s, x.m.owner, x.m.original);
    assert At(s1, Wait(k)) == At(x.s, Wait(k));
    if At(s1, Wait(k)) != [] {
      WaiterKnown(s1, k);
      ListResumeFacts(s1, k);
    }
  }
}
