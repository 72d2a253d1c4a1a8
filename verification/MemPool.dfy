/** The memory pool object of mempool.c: the chain runs through the first word of each free block; the first word of
    a block that is handed out names its pool. */
module MemPoolObject {
  import opened Rings
  import opened Sched
  import opened SchedLaws
  import opened WaitQueue
  import opened Wakeups
  import opened MemPoolSpec
  import opened Scheduler
  import Blocking

  const NULL := 0
  const WORD_SIZE := 4

  datatype Header = Next(address: int) | Owner(pool: int)

  function Align(n: nat): (r: nat)
    ensures r >= n && r % 4 == 0 && r < n + 4
  {
    (n + 3) / 4 * 4
  }

  function AlignDown(n: nat): (r: nat)
    ensures r <= n && r % 4 == 0
  {
    n / 4 * 4
  }

  function Address(start: int, stride: nat, b: nat): int {
    start + b * stride
  }

  /** Blocks lie one behind the other. */
  lemma BlocksApart(start: int, stride: nat, a: nat, b: nat)
    requires a < b
    ensures Address(start, stride, a) + stride <= Address(start, stride, b)
  {
    Monotone(a + 1, b, stride);
    assert (a + 1) * stride == a * stride + stride;
  }

  lemma AddressesDiffer(start: int, stride: nat)
    requires stride > 0
    ensures forall a: nat, b: nat :: a != b ==> Address(start, stride, a) != Address(start, stride, b)
  {
    forall a: nat, b: nat | a != b ensures Address(start, stride, a) != Address(start, stride, b) {
      if a < b { BlocksApart(start, stride, a, b); } else { BlocksApart(start, stride, b, a); }
    }
  }

  /** Every block with its header lies inside the pool. */
  lemma BlocksInside(start: int, stride: nat, size: nat, b: nat)
    requires stride > 0 && b < size / stride
    ensures start <= Address(start, stride, b) && Address(start, stride, b) + stride <= start + size
  {
    assert size / stride * stride <= size;
    assert (b + 1) * stride <= size / stride * stride by { Monotone(b + 1, size / stride, stride); }
    assert b * stride >= 0;
  }

  lemma Monotone(a: nat, b: nat, c: nat)
    requires a <= b
    ensures a * c <= b * c
  {
    var d := b - a;
    assert b * c == a * c + d * c;
    NotNegative(d, c);
  }

  lemma NotNegative(a: nat, b: nat)
    ensures a * b >= 0
  {
  }

  function FirstAddress(start: int, stride: nat, s: seq<nat>): int {
    if s == [] then NULL else Address(start, stride, s[0])
  }

  ghost predicate Chain(headers: map<int, Header>, start: int, stride: nat, head: int, s: seq<nat>) {
    && head == FirstAddress(start, stride, s)
    && forall i {:trigger s[i]} :: 0 <= i < |s| ==>
         && Address(start, stride, s[i]) in headers
         && headers[Address(start, stride, s[i])] == Next(FirstAddress(start, stride, s[i + 1..]))
  }

  ghost predicate Owned(headers: map<int, Header>, start: int, stride: nat, used: set<nat>, pool: int) {
    forall b :: b in used ==> Address(start, stride, b) in headers && headers[Address(start, stride, b)] == Owner(pool)
  }

  lemma ChainTake(headers: map<int, Header>, start: int, stride: nat, head: int, s: seq<nat>, used: set<nat>, pool: int)
    requires Chain(headers, start, stride, head, s) && s != [] && Distinct(s) && Owned(headers, start, stride, used, pool)
    requires stride > 0 && forall b :: b in s ==> b !in used
    ensures head == Address(start, stride, s[0]) && head in headers && headers[head].Next?
    ensures Chain(headers[head := Owner(pool)], start, stride, headers[head].address, s[1..])
    ensures Owned(headers[head := Owner(pool)], start, stride, used + {s[0]}, pool)
  {
    hide Address;
    AddressesDiffer(start, stride);
    var r, h' := s[1..], headers[head := Owner(pool)];
    assert headers[Address(start, stride, s[0])] == Next(FirstAddress(start, stride, s[0 + 1..]));
    forall i | 0 <= i < |r|
      ensures Address(start, stride, r[i]) in h' && h'[Address(start, stride, r[i])] == Next(FirstAddress(start, stride, r[i + 1..]))
    {
      assert r[i] == s[i + 1] && r[i + 1..] == s[i + 2..];
      assert s[i + 1] != s[0];
    }
  }

  lemma ChainGive(headers: map<int, Header>, start: int, stride: nat, head: int, s: seq<nat>, b: nat, used: set<nat>, pool: int)
    requires Chain(headers, start, stride, head, s) && Owned(headers, start, stride, used, pool)
    requires stride > 0 && b in used && b !in s
    ensures var a := Address(start, stride, b);
            && Chain(headers[a := Next(head)], start, stride, a, [b] + s)
            && Owned(headers[a := Next(head)], start, stride, used - {b}, pool)
  {
    hide Address;
    AddressesDiffer(start, stride);
    var a := Address(start, stride, b);
    var r, h' := [b] + s, headers[a := Next(head)];
    forall i | 0 <= i < |r|
      ensures Address(start, stride, r[i]) in h' && h'[Address(start, stride, r[i])] == Next(FirstAddress(start, stride, r[i + 1..]))
    {
      if i == 0 {
        assert r[1..] == s;
      } else {
        assert r[i] == s[i - 1] && r[i + 1..] == s[i..];
        assert s[i - 1] in s;
        assert s[i - 1 + 1..] == s[i..];
      }
    }
  }

  datatype Outcome = Got(block: int) | Refused | Blocked

  class MemPool {
    const kernel: Kernel
    const waiters: nat
    const id: int
    const start: int
    const stride: nat
    const total: nat
    var headers: map<int, Header>
    var list: int
    var freeCount: nat
    var waits: int

    ghost predicate Linked(x: Sys)
      reads this
    {
      && stride > 0 && x.pool.total == total && freeCount == x.pool.freeCount && waits == x.pool.waits
      && Chain(headers, start, stride, list, x.pool.free) && Owned(headers, start, stride, x.pool.used, id)
    }

    /** The system around this pool is x. */
    ghost predicate Stands(x: Sys)
      reads this, kernel
    {
      kernel.Valid() && waiters < kernel.objects && x.s == kernel.Abs() && Inv(x, waiters) && Linked(x)
    }

    /** rt_mp_init of a pool with room for at least one block. */
    constructor (kernel: Kernel, waiters: nat, id: int, start: int, size: nat, blockSize: nat)
      requires kernel.Valid() && waiters < kernel.objects && kernel.current != NO_THREAD && At(kernel.Abs(), Wait(waiters)) == []
      requires start > 0 && AlignDown(size) / (Align(blockSize) + WORD_SIZE) >= 1
      ensures this.kernel == kernel && this.waiters == waiters && this.id == id && this.start == start
      ensures stride == Align(blockSize) + WORD_SIZE && total == AlignDown(size) / stride
      ensures Stands(Sys(kernel.Abs(), Pool(total, Forwards(total), {}, total, 0), map[], 0, false))
    {
      hide Kernel.Valid, Chain, Stands;
      this.kernel, this.waiters, this.id, this.start := kernel, waiters, id, start;
      stride := Align(blockSize) + WORD_SIZE;
      total := AlignDown(size) / (Align(blockSize) + WORD_SIZE);
      freeCount := AlignDown(size) / (Align(blockSize) + WORD_SIZE);
      waits, headers, list := 0, map[], NULL;
      new;
      ChainBlocks();
      list := start;
      Initialised();
    }

    /** Block i is linked to the next block, the last one to none. */
    predicate Chained(headers: map<int, Header>, i: nat) {
      && Address(start, stride, i) in headers
      && headers[Address(start, stride, i)] == Next(if i + 1 < total then Address(start, stride, i + 1) else NULL)
    }

    /** The loop that writes the chain, and the end it gets afterwards. */
    method ChainBlocks()
      requires stride > 0 && total >= 1
      modifies this`headers
      ensures forall i :: 0 <= i < total ==> Chained(headers, i)
    {
      AddressesDiffer(start, stride);
      hide Address;
      var offset := 0;
      while offset < total
        invariant 0 <= offset <= total
        invariant forall i :: 0 <= i < offset ==> Address(start, stride, i) in headers
        invariant forall i :: 0 <= i < offset ==> headers[Address(start, stride, i)] == Next(Address(start, stride, i + 1))
      {
        headers := headers[Address(start, stride, offset) := Next(Address(start, stride, offset + 1))];
        offset := offset + 1;
      }
      headers := headers[Address(start, stride, offset - 1) := Next(NULL)];
    }

    lemma Initialised()
      requires kernel.Valid() && waiters < kernel.objects && kernel.current != NO_THREAD && At(kernel.Abs(), Wait(waiters)) == []
      requires stride > 0 && total >= 1 && list == start && freeCount == total && waits == 0
      requires forall i :: 0 <= i < total ==> Chained(headers, i)
      ensures Stands(Sys(kernel.Abs(), Pool(total, Forwards(total), {}, total, 0), map[], 0, false))
    {
      hide Kernel.Valid, WF, Inv;
      var x := Sys(kernel.Abs(), Pool(total, Forwards(total), {}, total, 0), map[], 0, false);
      KernelWF();
      FreshInv(x, waiters, total);
      assert Address(start, stride, 0) == start;
      var s := Forwards(total);
      hide Address;
      forall i | 0 <= i < |s|
        ensures Address(start, stride, s[i]) in headers
        ensures headers[Address(start, stride, s[i])] == Next(FirstAddress(start, stride, s[i + 1..]))
      {
        assert s[i] == i;
        assert i + 1 == total ==> s[i + 1..] == [];
        assert i + 1 < total ==> s[i + 1..] != [] && s[i + 1..][0] == s[i + 1] == i + 1;
        assert Chained(headers, i);
      }
    }

    lemma KernelWF()
      requires kernel.Valid()
      ensures WF(kernel.Abs())
    {
    }

    /** One round of the loop of rt_mp_alloc. */
    method TryAlloc(time: int, ghost x: Sys) returns (r: Outcome)
      requires Stands(x) && Runs(x.s) && !x.broken
      modifies this, kernel
      ensures Stands(Take(x, waiters, time))
      ensures if x.pool.freeCount > 0 && x.pool.free != [] then r == Got(Address(start, stride, x.pool.free[0]) + WORD_SIZE)
              else r == if time == 0 then Refused else Blocked
    {
      hide WF, Solo, Sound, Kernel.Shaped, Chain, Owned, AwaitFront, Address;
      TakeInv(x, waiters, time);
      if freeCount == 0 {
        if time == 0 { return Refused; }
        SuspendFront(time);
        waits := waits + 1;
        return Blocked;
      }
      PoolFacts(x.pool);
      ChainTake(headers, start, stride, list, x.pool.free, x.pool.used, id);
      freeCount := freeCount - 1;
      var block := list;
      list := headers[block].address;
      headers := headers[block := Owner(id)];
      return Got(block + WORD_SIZE);
    }

    /** Suspends the current thread at the front of the wait list. */
    method SuspendFront(time: int)
      requires kernel.Valid() && waiters < kernel.objects && Runs(kernel.Abs())
      modifies kernel
      ensures kernel.Valid() && kernel.Abs() == AwaitFront(old(kernel.Abs()), waiters, time)
    {
      hide WF, Sched.Suspend, Schedule, Kernel.Shaped, Link, Loose;
      ghost var s := kernel.Abs();
      var t := kernel.current;
      FrontFacts(s, waiters, time);
      Blocking.Mark(kernel, t, kernel.threads[t].(error := EOK));
      SuspendWF(kernel.Abs(), t);
      SuspendLoose(kernel.Abs(), t);
      var _ := kernel.Suspend(t);
      kernel.WaitList(waiters);
      kernel.InsertAfter(ThreadLists.Anchor(Wait(waiters)), t, Wait(waiters), 0);
      if time > 0 { kernel.SetThread(t, kernel.threads[t].(timer := true)); }
      kernel.Schedule();
    }

    lemma PoolCounts(x: Sys)
      requires Stands(x)
      ensures x.pool.freeCount > 0 <==> x.pool.free != []
    {
      hide WF, Solo, Kernel.Shaped;
    }

    /** rt_mp_alloc, up to the first switch to another thread. */
    method Alloc(time: int, ghost x: Sys) returns (r: Outcome)
      requires Stands(x) && Free(x) && !x.broken
      modifies this, kernel
      ensures Stands(Step(x, waiters, Op.Alloc(time)))
      ensures r == if x.pool.free != [] then Got(Address(start, stride, x.pool.free[0]) + WORD_SIZE) else if time == 0 then Refused else Blocked
    {
      hide Stands, Take, Inv, Address;
      PoolCounts(x);
      r := TryAlloc(time, x);
    }

    /** rt_mp_alloc after a switch back to its thread. */
    method AllocOn(left: int, ghost x: Sys) returns (r: Outcome)
      requires Stands(x) && Resumed(x) && Remaining(x.takes[x.s.current], left) && !x.broken
      modifies this, kernel
      ensures Stands(Step(x, waiters, Op.AllocOn(left)))
      ensures r == if x.s.threads[x.s.current].error != EOK then Refused
                   else if x.pool.free != [] then Got(Address(start, stride, x.pool.free[0]) + WORD_SIZE)
                   else if left == 0 then Refused else Blocked
    {
      hide WF, Solo, Sound, Kernel.Shaped, Chain, Owned, Take, Address;
      PoolCounts(x);
      StepInv(x, waiters, Op.AllocOn(left));
      if kernel.threads[kernel.current].error != EOK { return Refused; }
      r := TryAlloc(left, x);
    }

    /** rt_mp_free finds the pool of a block in its first word: it is the one that handed the block out. */
    method PoolOf(block: int, ghost b: nat, ghost x: Sys) returns (pool: int)
      requires Stands(x) && b in x.pool.used && block == Address(start, stride, b) + WORD_SIZE
      ensures pool == id
    {
      hide WF, Solo, Sound, Kernel.Shaped, Chain, Address;
      pool := headers[block - WORD_SIZE].pool;
    }

    /** rt_mp_free, when it does not take the list head for a thread. */
    method Release(block: int, ghost b: nat, ghost x: Sys)
      requires Stands(x) && b in x.pool.used && block == Address(start, stride, b) + WORD_SIZE && !x.broken
      requires x.expired == 0 || At(x.s, Wait(waiters)) != []
      modifies this, kernel
      ensures Stands(Step(x, waiters, Op.Release(b))) && !Step(x, waiters, Op.Release(b)).broken
    {
      hide WF, Side, Woken, Sound, Kernel.Shaped, Chain, Owned, Notify, Address;
      ReleaseInv(x, waiters, b);
      PoolFacts(x.pool);
      ChainGive(headers, start, stride, list, x.pool.free, b, x.pool.used, id);
      freeCount := freeCount + 1;
      headers := headers[block - WORD_SIZE := Next(list)];
      list := block - WORD_SIZE;
      if waits > 0 {
        FirstWaits(x);
        kernel.WaitList(waiters);
        var t := kernel.First(Wait(waiters));
        Blocking.Mark(kernel, t, kernel.threads[t].(error := EOK));
        Blocking.WakeFirst(kernel, waiters);
        waits := waits - 1;
      }
    }

    /** The first waiter has no error, so clearing its error changes nothing. */
    lemma FirstWaits(x: Sys)
      requires Inv(x, waiters) && !x.broken && At(x.s, Wait(waiters)) != []
      ensures var t := Head(x.s, Wait(waiters));
              t in x.s.threads && Set(x.s, t, x.s.threads[t].(error := EOK)) == x.s
    {
      hide WF, Woken, Sound, Kernel.Shaped, Chain, Owned;
      var t := At(x.s, Wait(waiters))[0];
      assert t in At(x.s, Wait(waiters));
    }
  }

  lemma PoolFacts(p: Pool)
    requires Sound(p)
    ensures Distinct(p.free) && p.freeCount == |p.free| && forall b :: b in p.free ==> b !in p.used
  {
  }
}
