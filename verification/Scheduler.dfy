/** The scheduler and the thread operations in place: the tlist links, the ready bitmap, the current thread and
    the thread records are changed by each call. */
module Scheduler {
  import opened BitScan
  import opened Rings
  import opened Sched
  import opened SchedLaws
  import opened ThreadLists
  import opened WaitQueue

  /** The lists that exist: the ready lists, the list of closed threads and the wait lists of n objects. */
  ghost predicate Complete(s: State, objects: nat) {
    && (forall p :: 0 <= p < PRIORITY_MAX ==> Ready(p) in s.lists)
    && Defunct in s.lists
    && (forall k :: 0 <= k < objects ==> Wait(k) in s.lists)
  }

  class Kernel {
    var next: map<Node, Node>
    var prev: map<Node, Node>
    var threads: map<Tid, Thread>
    var group: nat
    var current: Tid
    var lock: nat
    const objects: nat
    ghost var lists: map<ListId, seq<Tid>>

    ghost function Abs(): State
      reads this
    {
      State(threads, lists, group, current, lock)
    }

    /** The links spell out the lists. */
    ghost predicate Shaped()
      reads this
    {
      Linking(next, prev, Abs()) && Linked(Abs()) && Complete(Abs(), objects) && group < WORD
    }

    ghost predicate Valid()
      reads this
    {
      Shaped() && WF(Abs())
    }

    /** rt_system_scheduler_init, and rt_ipc_object_init for n objects. */
    constructor (n: nat)
      ensures Valid() && objects == n && threads == map[] && current == NO_THREAD && lock == 0
      ensures forall id :: At(Abs(), id) == []
    {
      objects := n;
      hide WF, Linking, Linked, Ring;
      next, prev, threads := map[], map[], map[];
      group, current, lock := 0, NO_THREAD, 0;
      lists := map[];
      new;
      var p := 0;
      while p < PRIORITY_MAX
        invariant 0 <= p <= PRIORITY_MAX && Blank() && forall i :: 0 <= i < p ==> Ready(i) in lists
      {
        ListInit(Ready(p));
        p := p + 1;
      }
      ListInit(Defunct);
      var k := 0;
      while k < n
        invariant 0 <= k <= n && Blank() && Defunct in lists
        invariant forall i :: 0 <= i < PRIORITY_MAX ==> Ready(i) in lists
        invariant forall i :: 0 <= i < k ==> Wait(i) in lists
      {
        ListInit(Wait(k));
        k := k + 1;
      }
      BlankWF(next, prev, Abs());
    }

    /** Nothing but empty lists. */
    ghost predicate Blank()
      reads this
    {
      && threads == map[] && group == 0 && current == NO_THREAD && lock == 0
      && forall id :: id in lists ==> lists[id] == [] && Ring(next, prev, [Anchor(id)])
    }

    /** rt_list_init */
    method ListInit(id: ListId)
      requires Blank()
      modifies this`next, this`prev, this`lists
      ensures Blank() && lists == old(lists)[id := []]
    {
      hide Ring;
      ghost var next0, prev0 := next, prev;
      next, prev := next[Anchor(id) := Anchor(id)], prev[Anchor(id) := Anchor(id)];
      SelfRing(next, prev, Anchor(id));
      forall j | j in lists && j != id ensures Ring(next, prev, [Anchor(j)]) {
        RingHas(next0, prev0, [Anchor(j)], Anchor(j));
        RingFrame(next0, prev0, next, prev, [Anchor(j)]);
      }
      lists := lists[id := []];
    }

    /** _rt_thread_init */
    method ThreadInit(t: Tid, priority: nat)
      requires Valid() && t !in threads && t != NO_THREAD && priority < PRIORITY_MAX
      modifies this
      ensures Valid() && Abs() == Set(old(Abs()), t, Thread(Init, priority, priority, 0, EOK, false))
    {
      hide Linking, Linked, Complete, WF;
      ghost var s := Abs();
      NewThread(next, prev, s, t, Thread(Init, priority, priority, 0, EOK, false));
      next, prev := next[Link(t) := Link(t)], prev[Link(t) := Link(t)];
      threads := threads[t := Thread(Init, priority, priority, 0, EOK, false)];
    }

    // ----- rtservice.h

    /** rt_list_insert_after, for position i of list id */
    method InsertAfter(l: Node, t: Tid, ghost id: ListId, ghost i: nat)
      requires Shaped() && Loose(Abs(), t) && id in lists && i <= |lists[id]| && l == Nodes(id, lists[id])[i]
      modifies this`next, this`prev, this`lists
      ensures Shaped() && Abs() == Sched.Link(old(Abs()), id, i, t)
    {
      hide Linking, Linked, Complete;
      LinksOf(next, prev, Abs(), id, i);
      LooseApart(Abs(), id, i, t);
      var n := Link(t);
      ghost var s := Abs();
      ghost var next0, prev0 := next, prev;
      prev := prev[next[l] := n];
      next := next[n := next[l]];
      next := next[l := n];
      prev := prev[n := l];
      LinkLinks(next0, prev0, s, id, i, t, next, prev);
      LinkKeeps(s, id, i, t);
      lists := Sched.Link(s, id, i, t).lists;
    }

    /** rt_list_insert_before, in front of position i of list id; the head stands behind the last thread */
    method InsertBefore(l: Node, t: Tid, ghost id: ListId, ghost i: nat)
      requires Shaped() && Loose(Abs(), t) && id in lists && i <= |lists[id]|
      requires l == if i < |lists[id]| then Link(lists[id][i]) else Anchor(id)
      modifies this`next, this`prev, this`lists
      ensures Shaped() && Abs() == Sched.Link(old(Abs()), id, i, t)
    {
      hide Linking, Linked, Complete, Sched.Link, Loose, Nodes;
      NodesOf(id, lists[id]);
      ghost var r := Nodes(id, lists[id]);
      assert l == Succ(r, i);
      LinksOf(next, prev, Abs(), id, i);
      LinksOf(next, prev, Abs(), id, if i < |lists[id]| then i + 1 else 0);
      LooseApart(Abs(), id, i, t);
      LooseApart(Abs(), id, if i < |lists[id]| then i + 1 else 0, t);
      var n := Link(t);
      ghost var s := Abs();
      ghost var next0, prev0 := next, prev;
      assert prev[l] == r[i];
      next := next[prev[l] := n];
      prev := prev[n := prev[l]];
      prev := prev[l := n];
      next := next[n := l];
      assert next == next0[n := l][r[i] := n];
      assert prev == prev0[l := n][n := r[i]];
      LinkLinks(next0, prev0, s, id, i, t, next, prev);
      LinkKeeps(s, id, i, t);
      lists := Sched.Link(s, id, i, t).lists;
    }

    /** rt_list_remove of a thread's node */
    method ListRemove(t: Tid)
      requires Shaped() && t in threads
      modifies this`next, this`prev, this`lists
      ensures Shaped() && Abs() == Unlink(old(Abs()), t)
    {
      hide Linking, Linked, Complete, Unlink;
      ghost var s := Abs();
      ghost var next0, prev0 := next, prev;
      ghost var (id, i) := Whereabouts(s, t);
      if i < 0 {
        LooseLinks(next, prev, s, t);
        LooseStays(s, t);
      } else {
        LinksOf(next, prev, s, id, i + 1);
        LinksOf(next, prev, s, id, i);
      }
      var n := Link(t);
      prev := prev[next[n] := prev[n]];
      next := next[prev[n] := next[n]];
      next, prev := next[n := n], prev[n := n];
      if i >= 0 {
        Splicing(next0, prev0, s, id, i, t, next, prev);
        UnlinkLinks(next0, prev0, s, id, i, t, next, prev);
      } else {
        assert next == next0 && prev == prev0;
        assert Linking(next, prev, Unlink(s, t));
      }
      UnlinkKeeps(s, t);
      UnlinkKeys(s, t);
      lists := Unlink(s, t).lists;
    }

    /** rt_list_isempty */
    method IsEmpty(id: ListId) returns (b: bool)
      requires Shaped() && id in lists
      ensures b == (At(Abs(), id) == [])
    {
      hide Linking, Linked, Complete;
      LinksOf(next, prev, Abs(), id, 0);
      b := next[Anchor(id)] == Anchor(id);
    }

    /** The thread of a list's first node, as rt_list_entry finds it. */
    method First(id: ListId) returns (t: Tid)
      requires Shaped() && id in lists && At(Abs(), id) != []
      ensures t == Head(Abs(), id)
    {
      hide Linking, Linked, Complete;
      LinksOf(next, prev, Abs(), id, 0);
      t := next[Anchor(id)].t;
    }

    // ----- scheduler.c

    method SetThread(t: Tid, th: Thread)
      requires Shaped() && t in threads
      modifies this`threads
      ensures Shaped() && Abs() == Set(old(Abs()), t, th)
    {
      hide Linking, Linked, Complete;
      ghost var s := Abs();
      threads := threads[t := th];
      SetShape(next, prev, s, t, th);
    }

    /** rt_schedule_insert_thread */
    method InsertThread(t: Tid)
      requires Shaped() && t in threads && (t == current || Loose(Abs(), t))
      requires threads[t].prio < PRIORITY_MAX && threads[t].mask < WORD
      modifies this
      ensures Shaped() && Abs() == Insert(old(Abs()), t)
    {
      hide Linking, Linked, Complete, Or, Loose, Sched.Link;
      ghost var s := Abs();
      if t == current {
        SetThread(t, threads[t].(stat := Running));
        return;
      }
      ReadyThere(s, objects, threads[t].prio);
      SetLoose(s, t, threads[t].(stat := Runnable));
      SetThread(t, threads[t].(stat := Runnable));
      InsertBefore(Anchor(Ready(threads[t].prio)), t, Ready(threads[t].prio), |lists[Ready(threads[t].prio)]|);
      OrFits(group, threads[t].mask);
      ghost var s1 := Abs();
      group := Or(group, threads[t].mask);
      GroupShape(next, prev, s1, group, current, lock);
    }

    /** rt_schedule_remove_thread */
    method RemoveThread(t: Tid)
      requires Shaped() && t in threads && threads[t].prio < PRIORITY_MAX
      modifies this
      ensures Shaped() && Abs() == Remove(old(Abs()), t)
    {
      hide Linking, Linked, Complete, AndNot, Unlink;
      ReadyThere(Abs(), objects, threads[t].prio);
      UnlinkKeys(Abs(), t);
      ListRemove(t);
      var empty := IsEmpty(Ready(threads[t].prio));
      if empty {
        AndNotFits(group, threads[t].mask);
        ghost var s1 := Abs();
        group := AndNot(group, threads[t].mask);
        GroupShape(next, prev, s1, group, current, lock);
      }
    }

    method SetCurrent(t: Tid)
      requires Shaped()
      modifies this`current
      ensures Shaped() && Abs() == old(Abs()).(current := t)
    {
      hide Linking, Linked, Complete;
      ghost var s := Abs();
      current := t;
      GroupShape(next, prev, s, group, current, lock);
    }

    method SetLock(n: nat)
      requires Shaped()
      modifies this`lock
      ensures Shaped() && Abs() == old(Abs()).(lock := n)
    {
      hide Linking, Linked, Complete;
      ghost var s := Abs();
      lock := n;
      GroupShape(next, prev, s, group, current, lock);
    }

    /** rt_schedule */
    method Schedule()
      requires Valid() && current != NO_THREAD
      modifies this
      ensures Valid() && Abs() == Sched.Schedule(old(Abs()))
    {
      hide Linking, Linked, Complete, WF, Insert, Remove, Ffs, Loose, Highest;
      ghost var s := Abs();
      ScheduleWF(s);
      if lock == 0 && group != 0 {
        HighestIs(s);
        HeadIs(s);
        HighestForm(s);
        CurrentKnown(s);
        var highest := Ffs(group) - 1;
        ReadyThere(s, objects, highest);
        var to := First(Ready(highest));
        ghost var head := to;
        var needInsert := false;
        if threads[current].stat == Running {
          if threads[current].prio < highest { to := current; } else { needInsert := true; }
        }
        if to != current {
          var from := current;
          RunningKnown(s);
          Known(s, to);
          Known(s, from);
          SwitchForms(s, to, needInsert);
          SetCurrent(to);
          LooseApartFromCurrent(s, from, to);
          if needInsert { InsertThread(from); }
          RemoveThread(to);
          SetThread(to, threads[to].(stat := Running));
        } else {
          RemoveForm(s, current);
          RemoveThread(current);
          SetThread(current, threads[current].(stat := Running));
        }
      }
    }

    /** rt_system_scheduler_start */
    method Start()
      requires Valid() && current == NO_THREAD && group != 0
      modifies this
      ensures Valid() && Abs() == Sched.Start(old(Abs())) && Urgent(Abs())
    {
      hide Linking, Linked, Complete, WF, Remove, Ffs, Loose, Highest;
      ghost var s := Abs();
      HighestIs(s);
      HeadIs(s);
      HighestForm(s);
      StartWF(s);
      ReadyThere(s, objects, Ffs(group) - 1);
      var to := First(Ready(Ffs(group) - 1));
      Known(s, to);
      SetCurrent(to);
      RemoveForm(Abs(), to);
      RemoveThread(to);
      SetThread(to, threads[to].(stat := Running));
    }

    /** rt_enter_critical */
    method EnterCritical()
      requires Valid()
      modifies this
      ensures Valid() && Abs() == Enter(old(Abs()))
    {
      hide Linking, Linked, Complete, WF;
      LockWF(Abs(), lock + 1);
      SetLock(lock + 1);
    }

    /** rt_exit_critical */
    method ExitCritical()
      requires Valid()
      modifies this
      ensures Valid() && Abs() == Sched.Exit(old(Abs()))
    {
      hide Linking, Linked, Complete, WF;
      LockWF(Abs(), if lock > 1 then lock - 1 else 0);
      if lock > 1 {
        SetLock(lock - 1);
      } else {
        SetLock(0);
        if current != NO_THREAD { Schedule(); }
      }
    }

    // ----- thread.c

    /** rt_thread_suspend */
    method Suspend(t: Tid) returns (ok: bool)
      requires Valid() && t in threads
      modifies this
      ensures Valid() && Abs() == Sched.Suspend(old(Abs()), t)
      ensures ok <==> old(threads)[t].stat == Runnable || old(threads)[t].stat == Running
    {
      hide Linking, Linked, Complete, WF, Remove;
      SuspendWF(Abs(), t);
      Known(Abs(), t);
      ok := threads[t].stat == Runnable || threads[t].stat == Running;
      if ok {
        RemoveForm(Abs(), t);
        RemoveThread(t);
        SetThread(t, threads[t].(stat := Suspended, timer := false));
      }
    }

    /** rt_thread_resume */
    method Resume(t: Tid) returns (ok: bool)
      requires Valid() && t in threads
      modifies this
      ensures Valid() && Abs() == Sched.Resume(old(Abs()), t)
      ensures ok <==> old(threads)[t].stat == Suspended
    {
      hide Linking, Linked, Complete, WF, Insert, Loose, Unlink;
      ResumeWF(Abs(), t);
      Known(Abs(), t);
      MaskFits(Abs(), t);
      ok := threads[t].stat == Suspended;
      if ok {
        UnlinkWF(Abs(), t);
        UnlinkKeys(Abs(), t);
        ListRemove(t);
        SetLoose(Abs(), t, threads[t].(timer := false));
        SetThread(t, threads[t].(timer := false));
        InsertThread(t);
      }
    }

    /** rt_thread_timeout */
    method Timeout(t: Tid)
      requires Valid() && t in threads && threads[t].stat == Suspended && current != NO_THREAD
      modifies this
      ensures Valid() && Abs() == Sched.Schedule(Expire(old(Abs()), t))
    {
      hide Linking, Linked, Complete, WF, Insert, Loose, Unlink, Sched.Schedule;
      ghost var s := Abs();
      ExpireWF(s, t);
      Known(s, t);
      MaskFits(s, t);
      SetThread(t, threads[t].(error := ETIMEOUT, timer := false));
      UpdateWF(s, t, threads[t]);
      UnlinkWF(Abs(), t);
      UnlinkKeys(Abs(), t);
      ListRemove(t);
      InsertForm(Abs(), t);
      InsertThread(t);
      Schedule();
    }

    /** rt_thread_control with RT_THREAD_CTRL_CHANGE_PRIORITY */
    method ChangePriority(t: Tid, p: nat)
      requires Valid() && t in threads && p < PRIORITY_MAX
      modifies this
      ensures Valid() && Abs() == Sched.ChangePriority(old(Abs()), t, p)
    {
      hide Linking, Linked, Complete, WF, Insert, Remove, Loose, Mask;
      ghost var s := Abs();
      ChangePriorityWF(s, t, p);
      Known(s, t);
      if threads[t].stat == Runnable {
        RemoveForm(s, t);
        RemoveLoose(s, t);
        RemoveThread(t);
        SetLoose(Abs(), t, threads[t].(prio := p, mask := Mask(p)));
        SetThread(t, threads[t].(prio := p, mask := Mask(p)));
        MaskWord(p);
        InsertThread(t);
      } else {
        SetThread(t, threads[t].(prio := p, mask := Mask(p)));
      }
    }

    /** rt_thread_startup */
    method Startup(t: Tid)
      requires Valid() && t in threads && threads[t].stat == Init
      modifies this
      ensures Valid()
      ensures Abs() == if old(current) != NO_THREAD then Sched.Schedule(Sched.Startup(old(Abs()), t)) else Sched.Startup(old(Abs()), t)
    {
      hide Linking, Linked, Complete, WF, Sched.Resume, Loose, Mask, Sched.Schedule;
      ghost var s := Abs();
      StartupWF(s, t);
      StartedWF(s, t);
      var th := threads[t];
      SetThread(t, th.(prio := th.initPrio, mask := Mask(th.initPrio), stat := Suspended));
      var _ := Resume(t);
      StartupForm(s, t);
      if current != NO_THREAD { Schedule(); }
    }

    /** rt_thread_detach and rt_thread_delete */
    method Close(t: Tid, keep: bool)
      requires Valid() && t in threads
      modifies this
      ensures Valid() && Abs() == Sched.Close(old(Abs()), t, keep)
    {
      hide Linking, Linked, Complete, WF, Remove, Loose, Sched.Link;
      ghost var s := Abs();
      CloseWF(s, t, keep);
      CloseLoose(s, t);
      Known(s, t);
      if threads[t].stat != Init {
        RemoveForm(s, t);
        RemoveThread(t);
      }
      SetLoose(Abs(), t, threads[t].(stat := Closed, timer := false));
      SetThread(t, threads[t].(stat := Closed, timer := false));
      if keep {
        DefunctThere(Abs(), objects);
        InsertAfter(Anchor(Defunct), t, Defunct, 0);
      }
    }

    /** rt_thread_exit */
    method Exit(keep: bool)
      requires Valid() && current != NO_THREAD
      modifies this
      ensures Valid() && Abs() == Sched.Schedule(Sched.Close(old(Abs()), old(current), keep))
    {
      hide Linking, Linked, Complete, WF, Sched.Schedule, Sched.Close;
      CurrentKnown(Abs());
      CloseForm(Abs(), current, keep);
      Close(current, keep);
      Schedule();
    }

    // ----- ipc.c

    lemma WaitList(k: nat)
      requires Shaped() && k < objects
      ensures Wait(k) in lists
    {
    }

    /** rt_ipc_list_suspend */
    method ListSuspend(k: nat, t: Tid, flag: Flag)
      requires Valid() && t in threads && Awake(threads[t].stat) && k < objects
      modifies this
      ensures Valid() && Abs() == WaitQueue.ListSuspend(old(Abs()), k, t, flag)
    {
      hide Linking, Linked, Complete, WF, Sched.Suspend, Loose, Sched.Link, Place;
      ghost var s := Abs();
      ListSuspendFacts(s, k, t, flag);
      SuspendLoose(s, t);
      var _ := Suspend(t);
      WaitThere(Abs(), objects, k);
      match flag
      case FIFO => InsertBefore(Anchor(Wait(k)), t, Wait(k), |lists[Wait(k)]|);
      case PRIO =>
        var n, i := FindSlot(k, t);
        InsertBefore(n, t, Wait(k), i);
    }

    lemma Shape()
      requires Shaped()
      ensures Linking(next, prev, Abs())
    {
    }

    /** The loop of rt_ipc_list_suspend: the node of the first thread less urgent than t, or the list head. */
    method FindSlot(k: nat, t: Tid) returns (n: Node, ghost i: nat)
      requires Valid() && Wait(k) in lists && t in threads
      ensures i == Place(threads, lists[Wait(k)], threads[t].prio)
      ensures n == if i < |lists[Wait(k)]| then Link(lists[Wait(k)][i]) else Anchor(Wait(k))
    {
      hide Linking, Linked, Complete, WF, Place, Shaped, Nodes;
      ghost var q := lists[Wait(k)];
      Shape();
      NodesOf(Wait(k), q);
      var head := Anchor(Wait(k));
      LinksOf(next, prev, Abs(), Wait(k), 0);
      n := next[head];
      i := 0;
      while n != head
        invariant i <= |q| && n == (if i < |q| then Link(q[i]) else head)
        invariant forall j :: 0 <= j < i ==> !Before(threads, q[j], threads[t].prio)
        decreases |q| - i
      {
        WaiterThere(Abs(), k, i);
        if threads[t].prio < threads[n.t].prio { break; }
        LinksOf(next, prev, Abs(), Wait(k), i + 1);
        n := next[n];
        i := i + 1;
      }
      PlaceIs(threads, q, threads[t].prio, i);
    }

    /** rt_ipc_list_resume */
    method ListResume(k: nat)
      requires Valid() && k < objects && At(Abs(), Wait(k)) != []
      modifies this
      ensures Valid() && Abs() == WaitQueue.ListResume(old(Abs()), k)
    {
      hide Linking, Linked, Complete, WF, Sched.Resume;
      ListResumeFacts(Abs(), k);
      WaitThere(Abs(), objects, k);
      var t := First(Wait(k));
      var _ := Resume(t);
    }

    /** rt_ipc_list_resume_all */
    method ListResumeAll(k: nat)
      requires Valid() && k < objects
      modifies this
      ensures Valid() && Abs() == WaitQueue.ResumeAll(old(Abs()), k) && At(Abs(), Wait(k)) == []
    {
      hide Linking, Linked, Complete, WF, Sched.Resume;
      ghost var s := Abs();
      WaitThere(Abs(), objects, k);
      var empty := IsEmpty(Wait(k));
      while !empty
        invariant Valid() && empty == (At(Abs(), Wait(k)) == [])
        invariant WaitQueue.ResumeAll(Abs(), k) == WaitQueue.ResumeAll(s, k)
        decreases |At(Abs(), Wait(k))|
      {
        WaitThere(Abs(), objects, k);
        var t := First(Wait(k));
        ghost var s0 := Abs();
        FailFacts(s0, k);
        SetThread(t, threads[t].(error := ERROR));
        var _ := Resume(t);
        WaitThere(Abs(), objects, k);
        empty := IsEmpty(Wait(k));
      }
    }
  }

  lemma LooseApart(s: State, id: ListId, i: nat, t: Tid)
    requires Loose(s, t) && id in s.lists && i <= |s.lists[id]|
    ensures Nodes(id, s.lists[id])[i] != Link(t)
  {
    assert t !in At(s, id);
    if i > 0 { assert s.lists[id][i - 1] in s.lists[id]; }
  }

  lemma LinkKeeps(s: State, id: ListId, i: nat, t: Tid)
    requires Linked(s) && Loose(s, t) && id in s.lists && i <= |s.lists[id]|
    ensures Linked(Sched.Link(s, id, i, t))
    ensures forall objects :: Complete(s, objects) ==> Complete(Sched.Link(s, id, i, t), objects)
    ensures Sched.Link(s, id, i, t) == s.(lists := Sched.Link(s, id, i, t).lists)
  {
    LinkLinked(s, id, i, t);
  }

  /** List and position of a thread's node; -1 when it is on no list. */
  ghost function Whereabouts(s: State, t: Tid): (r: (ListId, int))
    requires t in s.threads
    ensures r.1 < 0 ==> Loose(s, t)
    ensures r.1 >= 0 ==> r.0 in s.lists && r.1 < |s.lists[r.0]| && s.lists[r.0][r.1] == t
  {
    if Loose(s, t) then (Defunct, -1)
    else
      var id :| t in At(s, id);
      var i :| 0 <= i < |At(s, id)| && At(s, id)[i] == t;
      (id, i)
  }

  lemma LooseStays(s: State, t: Tid)
    requires Loose(s, t)
    ensures Unlink(s, t) == s
  {
    forall id | id in s.lists ensures Without(s.lists[id], t) == s.lists[id] { assert t !in At(s, id); }
  }

  lemma Splicing(next: map<Node, Node>, prev: map<Node, Node>, s: State, id: ListId, i: nat, t: Tid,
                 next': map<Node, Node>, prev': map<Node, Node>)
    requires id in s.lists && i < |s.lists[id]| && s.lists[id][i] == t
    requires var r := Nodes(id, s.lists[id]);
             && Link(t) in next && Link(t) in prev && next[Link(t)] == Succ(r, i + 1) && prev[Link(t)] == r[i]
             && next' == next[prev[Link(t)] := next[Link(t)]][Link(t) := Link(t)]
             && prev' == prev[next[Link(t)] := prev[Link(t)]][Link(t) := Link(t)]
    ensures Bypassed(next, prev, s, id, i, t, next', prev')
  {
  }

  lemma UnlinkKeeps(s: State, t: Tid)
    requires Linked(s)
    ensures Linked(Unlink(s, t)) && Unlink(s, t).lists.Keys == s.lists.Keys
    ensures forall objects :: Complete(s, objects) ==> Complete(Unlink(s, t), objects)
  {
    UnlinkLinked(s, t);
  }

  lemma UnlinkKeys(s: State, t: Tid)
    ensures Unlink(s, t).lists.Keys == s.lists.Keys
    ensures Unlink(s, t) == s.(lists := Unlink(s, t).lists)
  {
  }

  lemma SetShape(next: map<Node, Node>, prev: map<Node, Node>, s: State, t: Tid, th: Thread)
    requires Linking(next, prev, s) && Linked(s) && t in s.threads
    ensures Linking(next, prev, Set(s, t, th)) && Linked(Set(s, t, th))
    ensures forall objects :: Complete(s, objects) ==> Complete(Set(s, t, th), objects)
  {
    hide Ring, Distinct;
    var s' := Set(s, t, th);
    assert forall id :: At(s', id) == At(s, id);
    forall u | Loose(s', u) ensures Ring(next, prev, [Link(u)]) { assert Loose(s, u); }
  }

  lemma GroupShape(next: map<Node, Node>, prev: map<Node, Node>, s: State, group: nat, current: Tid, lock: nat)
    requires Linking(next, prev, s) && Linked(s)
    ensures var s' := State(s.threads, s.lists, group, current, lock);
            && Linking(next, prev, s') && Linked(s')
            && forall objects :: Complete(s, objects) ==> Complete(s', objects)
  {
    hide Ring, Distinct;
    var s' := State(s.threads, s.lists, group, current, lock);
    assert forall id :: At(s', id) == At(s, id);
    forall u | Loose(s', u) ensures Ring(next, prev, [Link(u)]) { assert Loose(s, u); }
  }

  lemma SetLoose(s: State, t: Tid, th: Thread)
    requires Loose(s, t)
    ensures Loose(Set(s, t, th), t)
  {
    assert forall id :: At(Set(s, t, th), id) == At(s, id);
  }

  lemma ReadyThere(s: State, objects: nat, p: nat)
    requires Complete(s, objects) && p < PRIORITY_MAX
    ensures Ready(p) in s.lists
  {
  }

  lemma OrFits(g: nat, m: nat)
    requires g < WORD && m < WORD
    ensures Or(g, m) < WORD
  {
    Mask32();
    Fits(g, m, 32);
  }

  lemma AndNotFits(g: nat, m: nat)
    requires g < WORD
    ensures AndNot(g, m) < WORD
  {
    Mask32();
    Fits(g, m, 32);
  }

  lemma HighestForm(s: State)
    requires s.group < WORD
    ensures Highest(s) == Ffs(s.group) - 1
  {
  }

  lemma RunningKnown(s: State)
    requires WF(s) && s.current != NO_THREAD
    ensures s.current in s.threads && (s.threads[s.current].stat == Running ==> Loose(s, s.current))
    ensures s.threads[s.current].mask < WORD
  {
    hide Mask, Bit;
    Mask32();
    MaskGrows(s.threads[s.current].prio, 32);
    if s.threads[s.current].stat == Running {
      forall id ensures s.current !in At(s, id) { RunningLoose(s, id); }
    }
  }

  lemma LooseApartFromCurrent(s: State, t: Tid, c: Tid)
    ensures Loose(s.(current := c), t) <==> Loose(s, t)
  {
    assert forall id :: At(s.(current := c), id) == At(s, id);
  }

  lemma SwitchForms(s: State, to: Tid, requeue: bool)
    requires s.current in s.threads && to in s.threads && to != s.current
    ensures var s1 := s.(current := to);
            var s2 := if requeue then Insert(s1, s.current) else s1;
            && to in s2.threads && s2.threads[to] == s.threads[to] && to in Remove(s2, to).threads && Remove(s2, to).threads == s2.threads
            && Switch(s, to, requeue) == Set(Remove(s2, to), to, s2.threads[to].(stat := Running))
  {
  }

  lemma RemoveForm(s: State, t: Tid)
    ensures Remove(s, t).threads == s.threads && Remove(s, t).current == s.current && Remove(s, t).lock == s.lock
  {
  }

  lemma StartWF(s: State)
    requires WF(s) && s.current == NO_THREAD && s.group != 0
    ensures WF(Sched.Start(s)) && Urgent(Sched.Start(s))
  {
    hide WF, WFBut, Remove, Highest;
    HighestIs(s);
    HeadIs(s);
    var to := Head(s, Ready(Highest(s)));
    Known(s, to);
    RemoveWF(s, to);
    OccupyWF(Remove(s, to), to);
    RemoveApart(s, to, to);
  }

  lemma LockWF(s: State, n: nat)
    requires WF(s)
    ensures WF(s.(lock := n))
  {
    hide Distinct, Bit, Mask;
    assert forall id :: At(s.(lock := n), id) == At(s, id);
  }

  lemma MaskWord(p: nat)
    requires p < PRIORITY_MAX
    ensures Mask(p) < WORD
  {
    Mask32();
    MaskGrows(p, 32);
  }

  lemma MaskFits(s: State, t: Tid)
    requires WF(s) && t in s.threads
    ensures s.threads[t].mask < WORD
  {
    hide Mask;
    MaskWord(s.threads[t].prio);
  }

  lemma InsertForm(s: State, t: Tid)
    ensures Insert(s, t).current == s.current
  {
  }

  lemma RemoveLoose(s: State, t: Tid)
    requires WF(s) && t in s.threads
    ensures Loose(Remove(s, t), t)
  {
    RemoveLinked(s, t);
  }

  lemma StartedWF(s: State, t: Tid)
    requires WF(s) && t in s.threads && s.threads[t].stat == Init
    ensures WF(Set(s, t, s.threads[t].(prio := s.threads[t].initPrio, mask := Mask(s.threads[t].initPrio), stat := Suspended)))
  {
    hide WFBut;
    InitLoose(s, t);
    StopsBeing(s, t, Set(s, t, s.threads[t].(prio := s.threads[t].initPrio, mask := Mask(s.threads[t].initPrio), stat := Suspended)));
  }

  lemma StartupForm(s: State, t: Tid)
    ensures Sched.Startup(s, t).current == s.current
  {
  }

  lemma CloseLoose(s: State, t: Tid)
    requires WF(s) && t in s.threads
    ensures Loose(if s.threads[t].stat != Init then Remove(s, t) else s, t)
  {
    if s.threads[t].stat != Init { RemoveLoose(s, t); } else { InitLoose(s, t); }
  }

  lemma DefunctThere(s: State, objects: nat)
    requires Complete(s, objects)
    ensures Defunct in s.lists
  {
  }

  lemma WaitThere(s: State, objects: nat, k: nat)
    requires Complete(s, objects) && k < objects
    ensures Wait(k) in s.lists
  {
  }

  lemma CloseForm(s: State, t: Tid, keep: bool)
    ensures Sched.Close(s, t, keep).current == s.current
  {
  }

  lemma SuspendLoose(s: State, t: Tid)
    requires WF(s) && t in s.threads && Awake(s.threads[t].stat)
    ensures Loose(Sched.Suspend(s, t), t) && Sched.Suspend(s, t).threads.Keys == s.threads.Keys
  {
    SuspendWF(s, t);
  }

  /** The loop of rt_ipc_list_suspend stops in front of this thread. */
  predicate Before(threads: map<Tid, Thread>, u: Tid, p: nat) {
    u in threads && p < threads[u].prio
  }

  lemma {:induction false} PlaceIs(threads: map<Tid, Thread>, q: seq<Tid>, p: nat, i: nat)
    requires i <= |q| && (i < |q| ==> Before(threads, q[i], p)) && forall j :: 0 <= j < i ==> !Before(threads, q[j], p)
    ensures Place(threads, q, p) == i
  {
    if q != [] && i > 0 {
      assert !Before(threads, q[0], p);
      forall j | 0 <= j < i - 1 ensures !Before(threads, q[1..][j], p) { assert q[1..][j] == q[j + 1]; }
      PlaceIs(threads, q[1..], p, i - 1);
    }
  }

  lemma WaiterThere(s: State, k: nat, i: nat)
    requires WF(s) && Wait(k) in s.lists && i < |s.lists[Wait(k)]|
    ensures s.lists[Wait(k)][i] in s.threads
  {
    MembersKnown(s, k);
    assert At(s, Wait(k)) == s.lists[Wait(k)];
  }

  /** One round of rt_ipc_list_resume_all. */
  lemma FailFacts(s: State, k: nat)
    requires WF(s) && At(s, Wait(k)) != []
    ensures var t := At(s, Wait(k))[0];
            var s1 := SetError(s, t, ERROR);
            && t in s.threads && WF(s1) && s1 == Set(s, t, s.threads[t].(error := ERROR))
            && At(Sched.Resume(s1, t), Wait(k)) == At(s, Wait(k))[1..]
            && WaitQueue.ResumeAll(Sched.Resume(s1, t), k) == WaitQueue.ResumeAll(s, k)
  {
    hide WF, Sched.Resume;
    var t := At(s, Wait(k))[0];
    assert t in At(s, Wait(k));
    MembersKnown(s, k);
    Known(s, t);
    UpdateWF(s, t, s.threads[t].(error := ERROR));
    var s1 := SetError(s, t, ERROR);
    assert At(s1, Wait(k)) == At(s, Wait(k));
    ListResumeFacts(s1, k);
  }

  lemma BlankWF(next: map<Node, Node>, prev: map<Node, Node>, s: State)
    requires s.threads == map[] && s.group == 0 && s.current == NO_THREAD
    requires forall id :: id in s.lists ==> s.lists[id] == [] && Ring(next, prev, [Anchor(id)])
    ensures Linking(next, prev, s) && WF(s) && Linked(s)
  {
    hide Ring;
    forall p: nat ensures !Bit(0, p) { ZeroBit(p); }
    assert forall id :: At(s, id) == [];
    forall id | id in s.lists ensures Ring(next, prev, Nodes(id, s.lists[id])) {
      assert Nodes(id, []) == [Anchor(id)];
    }
  }

  lemma NewThreadWF(s: State, t: Tid, th: Thread)
    requires WF(s) && t !in s.threads && t != NO_THREAD
    requires th.stat == Init && th.prio < PRIORITY_MAX && th.initPrio < PRIORITY_MAX && th.mask == 0
    ensures WF(Set(s, t, th)) && Linked(Set(s, t, th)) && Linked(s)
  {
    hide Distinct, Bit, Mask;
    assert forall id :: At(Set(s, t, th), id) == At(s, id);
  }

  lemma NewThread(next: map<Node, Node>, prev: map<Node, Node>, s: State, t: Tid, th: Thread)
    requires Linking(next, prev, s) && WF(s) && t !in s.threads && t != NO_THREAD
    requires th.stat == Init && th.prio < PRIORITY_MAX && th.initPrio < PRIORITY_MAX && th.mask == 0
    ensures Linking(next[Link(t) := Link(t)], prev[Link(t) := Link(t)], Set(s, t, th))
    ensures WF(Set(s, t, th)) && Linked(Set(s, t, th))
    ensures forall objects :: Complete(s, objects) ==> Complete(Set(s, t, th), objects)
  {
    var next', prev', s' := next[Link(t) := Link(t)], prev[Link(t) := Link(t)], Set(s, t, th);
    NewThreadWF(s, t, th);
    hide Ring, Distinct, WF;
    assert forall id :: At(s', id) == At(s, id);
    forall id | id in s.lists ensures Ring(next', prev', Nodes(id, s.lists[id])) {
      var o := Nodes(id, s.lists[id]);
      NodesMembers(id, s.lists[id], Link(t));
      assert t !in At(s, id);
      forall n | n in o ensures n in next && n in prev { RingHas(next, prev, o, n); }
      RingFrame(next, prev, next', prev', o);
    }
    forall u | Loose(s', u) ensures Ring(next', prev', [Link(u)]) {
      if u == t {
        SelfRing(next', prev', Link(t));
      } else {
        assert Loose(s, u);
        RingHas(next, prev, [Link(u)], Link(u));
        RingFrame(next, prev, next', prev', [Link(u)]);
      }
    }
  }

  /** The nodes of a list, its head first, as a cycle. */
  lemma NodesOf(id: ListId, q: seq<Tid>)
    ensures Nodes(id, q)[0] == Anchor(id) && |Nodes(id, q)| == |q| + 1
    ensures forall i :: 0 <= i < |q| ==> Nodes(id, q)[i + 1] == Link(q[i])
    ensures forall i :: 0 <= i <= |q| ==> Succ(Nodes(id, q), i) == if i < |q| then Link(q[i]) else Anchor(id)
  {
  }
}
