/** The kernel on linked lists: every queue is an intrusive list through the elements inside threads
    and locks, and the routines update threads, semaphores and lists in place.  `Now` is the abstract
    state they stand for, and each routine is shown to carry out the operation of the same name on it.
    A routine ends where the C function returns or where schedule hands the CPU to another thread. */
module KernelMachine {
  import opened Common
  import opened Ordering
  import opened KernelState
  import opened KernelDonation
  import opened KernelSteps
  import opened KernelShape
  import opened KernelOps
  import opened KernelSync
  import opened KernelQueues
  import KernelRuns

  /** A thread's fields other than its lists. */
  datatype Tcb = Tcb(status: Status, pc: Pc, intrinsic: int, priority: int, waiting: Option<SemaId>, wakeup: int)

  /** A semaphore's or lock's fields other than its list of waiters. */
  datatype Cell = Cell(value: nat, isLock: bool, holder: Option<Tid>, maxPriority: int, initial: nat, downs: nat, ups: nat)

  ghost function Whole(c: Tcb, held: seq<SemaId>): Thread {
    Thread(c.status, c.pc, c.intrinsic, c.priority, c.waiting, held, c.wakeup)
  }

  ghost function Filled(c: Cell, waiters: seq<Tid>): Sema {
    Sema(c.value, waiters, c.isLock, c.holder, c.maxPriority, c.initial, c.downs, c.ups)
  }

  ghost function Threads(cs: seq<Tcb>, q: seq<seq<nat>>): (r: seq<Thread>)
    requires |q| == |cs|
    ensures |r| == |cs| && forall t | 0 <= t < |cs| :: r[t] == Whole(cs[t], q[t])
  {
    seq(|cs|, t requires 0 <= t < |cs| => Whole(cs[t], q[t]))
  }

  /** The thread lists: the ready list, the sleep list, and then the waiters of each semaphore. */
  const READY: nat := 0
  const SLEEP: nat := 1
  const WAIT: nat := 2

  ghost function Semas(cs: seq<Cell>, q: seq<seq<nat>>): (r: seq<Sema>)
    requires |q| == WAIT + |cs|
    ensures |r| == |cs| && forall s | 0 <= s < |cs| :: r[s] == Filled(cs[s], q[WAIT + s])
  {
    seq(|cs|, s requires 0 <= s < |cs| => Filled(cs[s], q[WAIT + s]))
  }

  lemma ThreadsUpdate(cs: seq<Tcb>, q: seq<seq<nat>>, t: Tid, c: Tcb, held: seq<SemaId>)
    requires |q| == |cs| && t < |cs|
    ensures Threads(cs[t := c], q) == Threads(cs, q)[t := Whole(c, q[t])]
    ensures Threads(cs, q[t := held]) == Threads(cs, q)[t := Whole(cs[t], held)]
  {
  }

  lemma SemasUpdate(cs: seq<Cell>, q: seq<seq<nat>>, s: SemaId, c: Cell, waiters: seq<Tid>)
    requires |q| == WAIT + |cs| && s < |cs|
    ensures Semas(cs[s := c], q) == Semas(cs, q)[s := Filled(c, q[WAIT + s])]
    ensures Semas(cs, q[WAIT + s := waiters]) == Semas(cs, q)[s := Filled(cs[s], waiters)]
  {
  }

  lemma SemasApart(cs: seq<Cell>, q: seq<seq<nat>>, i: nat, p: seq<Tid>)
    requires |q| == WAIT + |cs| && i < WAIT
    ensures Semas(cs, q[i := p]) == Semas(cs, q)
  {
  }

  function Priorities(cs: seq<Tcb>): (Tid, Tid) -> bool {
    (a: Tid, b: Tid) => a < |cs| && b < |cs| && cs[a].priority < cs[b].priority
  }

  function Wakeups(cs: seq<Tcb>): (Tid, Tid) -> bool {
    (a: Tid, b: Tid) => a < |cs| && b < |cs| && cs[a].wakeup < cs[b].wakeup
  }

  function Donations(cs: seq<Cell>): (SemaId, SemaId) -> bool {
    (a: SemaId, b: SemaId) => a < |cs| && b < |cs| && cs[a].maxPriority < cs[b].maxPriority
  }

  class Kernel {
    var threads: seq<Tcb>
    var semas: seq<Cell>
    var cur: Option<Tid>
    var ticks: int
    /** Lists of threads. */
    const queues: Queues
    /** The lock list of each thread. */
    const locks: Queues

    ghost predicate Valid()
      reads this, queues, queues.repr, locks, locks.repr
    {
      && AsUnit(queues.Valid()) && AsUnit(locks.Valid()) && AsUnit(Separate())
      && |queues.elem| == |threads| && |queues.q| == WAIT + |semas|
      && |locks.elem| == |semas| && |locks.q| == |threads|
    }

    ghost predicate Separate()
      reads this, queues, locks
    {
      && queues != locks && queues.repr !! locks.repr && queues !in locks.repr && locks !in queues.repr
      && this !in queues.repr && this !in locks.repr
    }

    ghost function Now(): State
      requires Valid()
      reads this, queues, queues.repr, locks, locks.repr
    {
      State(Threads(threads, locks.q), Semas(semas, queues.q), queues.q[READY], queues.q[SLEEP], cur, ticks)
    }

    /** A booted kernel with the given semaphores and locks. */
    constructor (cells: seq<Cell>, now: int)
      requires forall s | 0 <= s < |cells| :: KernelRuns.Fresh(Filled(cells[s], []))
      ensures Valid() && fresh(queues) && fresh(queues.repr) && fresh(locks) && fresh(locks.repr)
      ensures KernelRuns.Initial(Now()) && semas == cells && ticks == now
    {
      threads := [Tcb(Running, Free, PRI_DEFAULT, PRI_DEFAULT, None, 0)];
      semas, cur, ticks := cells, Some(0), now;
      queues := new Queues();
      locks := new Queues();
      new;
      MakeLists();
      assert forall s | 0 <= s < |semas| :: Now().semas[s] == Filled(cells[s], []);
    }

    /** One element for the first thread and for every lock; one list for the ready threads, the
        sleepers, the waiters of every semaphore, and the locks of the first thread. */
    method MakeLists()
      requires Blank() && |threads| == 1
      modifies queues, locks
      ensures Valid() && Grown(old(queues.repr), old(locks.repr))
      ensures locks.q == [[]] && forall i | 0 <= i < |queues.q| :: queues.q[i] == []
    {
      MakeFirstLists();
      for s := 0 to |semas|
        invariant AsUnit(queues.Valid()) && AsUnit(locks.Valid()) && AsUnit(Separate())
        invariant AsUnit(Grown(old(queues.repr), old(locks.repr)))
        invariant |queues.elem| == 1 && |queues.q| == WAIT + s && (forall i | 0 <= i < |queues.q| :: queues.q[i] == [])
        invariant |locks.elem| == s && locks.q == [[]]
      {
        queues.AddList();
        locks.AddItem();
      }
    }

    ghost predicate Blank()
      reads this, queues, queues.repr, locks, locks.repr
    {
      && queues.Valid() && locks.Valid() && Separate()
      && queues.elem == [] && queues.q == [] && locks.elem == [] && locks.q == []
    }

    method MakeFirstLists()
      requires Blank()
      modifies queues, locks
      ensures AsUnit(queues.Valid()) && AsUnit(locks.Valid()) && AsUnit(Separate())
      ensures Grown(old(queues.repr), old(locks.repr))
      ensures |queues.elem| == 1 && queues.q == [[], []] && locks.elem == [] && locks.q == [[]]
    {
      queues.AddItem();
      queues.AddList();
      queues.AddList();
      locks.AddList();
    }

    /** The lists grow by new objects only. */
    twostate predicate Grown(r: set<object>, r': set<object>)
      reads this, queues, locks
    {
      r <= queues.repr && fresh(queues.repr - r) && r' <= locks.repr && fresh(locks.repr - r')
    }

    // -------------------------------------------------------------- donation

    method AdjustPriority(t: Tid)
      requires Valid() && Typed(Now()) && t < |threads|
      modifies this`threads
      ensures Valid() && Now() == SetThread(old(Now()), t, Adjusted(old(Now()).threads[t], Now().semas))
    {
      ghost var st := Now();
      assert ThreadTyped(st.threads[t], |semas|);
      var th := threads[t];
      var empty := locks.IsEmpty(t);
      if empty {
        th := th.(priority := th.intrinsic);
      } else {
        SameMax(Donations(semas), ByDonation(st.semas), st.threads[t].held);
        var l := locks.Max(t, Donations(semas));
        if th.intrinsic < semas[l].maxPriority {
          th := th.(priority := semas[l].maxPriority);
        }
      }
      ThreadsUpdate(threads, locks.q, t, th, []);
      threads := threads[t := th];
    }

    /** flush_priority recurses along the chain of holders. */
    method FlushPriority(t: Tid, ghost cap: int)
      requires Valid() && Typed(Now()) && t < |threads| && Capped(Now().threads, Now().semas, cap)
      modifies this`threads, this`semas
      ensures Valid() && Flushed(old(Now()), Now(), t, cap)
      decreases Slack(Now().semas, cap)
    {
      ghost var st := Now();
      TypedLinks(st);
      assert ThreadTyped(st.threads[t], |semas|);
      if threads[t].waiting.Some? {
        var l := threads[t].waiting.value;
        if threads[t].priority > semas[l].maxPriority {
          var c := semas[l].(maxPriority := threads[t].priority);
          SemasUpdate(semas, queues.q, l, c, []);
          semas := semas[l := c];
          assert Now() == st.(semas := Raise(st.semas, l, st.threads[t].priority));
          if semas[l].holder.Some? {
            var h := semas[l].holder.value;
            FlushTurn(st, t, cap);
            AdjustPriority(h);
            FlushPriority(h, cap);
          }
        }
      }
    }

    // -------------------------------------------------------------- scheduling

    /** The running thread is on no list. */
    lemma RunningOnNone(t: Tid)
      requires Valid() && Shape(Now()) && OnCpu(Now(), t)
      ensures queues.OnNone(t)
    {
      var st := Now();
      assert Placed(st, t);
      forall i | 0 <= i < |queues.q| ensures t !in queues.q[i] {
        assert i >= WAIT ==> st.semas[i - WAIT].waiters == queues.q[i];
      }
    }

    /** list_max and list_remove: takes the first most urgent thread off list `i`. */
    method TakeUrgent(i: nat) returns (w: Tid, ghost k: nat)
      requires Valid() && i < |queues.q| && queues.q[i] != [] && Ids(queues.q[i], |threads|)
      modifies queues`q, queues.repr
      ensures Valid() && k == Top(Threads(threads, locks.q), old(queues.q[i])) && w == old(queues.q[i])[k]
      ensures queues.q == old(queues.q)[i := old(queues.q[i])[..k] + old(queues.q[i])[k + 1..]]
    {
      SameMax(Priorities(threads), ByPriority(Threads(threads, locks.q)), queues.q[i]);
      w := queues.Max(i, Priorities(threads));
      k := Top(Threads(threads, locks.q), queues.q[i]);
      queues.Remove(w, i, k);
    }

    /** schedule with next_thread_to_run. */
    method Schedule()
      requires Valid() && Typed(Now()) && cur == None
      modifies this`threads, this`cur, queues`q, queues.repr
      ensures Valid() && Now() == Dispatch(old(Now()))
    {
      ghost var st, q := Now(), queues.q;
      var empty := queues.IsEmpty(READY);
      if !empty {
        var next; ghost var k;
        next, k := TakeUrgent(READY);
        SemasApart(semas, q, READY, st.ready[..k] + st.ready[k + 1..]);
        ThreadsUpdate(threads, locks.q, next, threads[next].(status := Running), []);
        threads := threads[next := threads[next].(status := Running)];
        cur := Some(next);
      }
    }

    method ThreadYield(t: Tid)
      requires Valid() && Shape(Now()) && OnCpu(Now(), t)
      modifies this`threads, this`cur, queues`q, queues.repr
      ensures Valid() && Now() == Yield(old(Now()), t)
    {
      ghost var st := Now();
      DescheduleShape(st, t);
      RunningOnNone(t);
      SemasApart(semas, queues.q, READY, st.ready + [t]);
      queues.Append(READY, t);
      ThreadsUpdate(threads, locks.q, t, threads[t].(status := Ready), []);
      threads := threads[t := threads[t].(status := Ready)];
      cur := None;
      Schedule();
    }

    /** thread_unblock, for a thread that is on no list. */
    method Unblock(t: Tid)
      requires Valid() && queues.OnNone(t)
      modifies this`threads, queues`q, queues.repr
      ensures Valid()
      ensures threads == old(threads)[t := old(threads)[t].(status := Ready)]
      ensures queues.q == old(queues.q)[READY := old(queues.q)[READY] + [t]]
    {
      queues.Append(READY, t);
      threads := threads[t := threads[t].(status := Ready)];
    }

    /** The most urgent waiter moves to the ready list. */
    method WakeOne(s: SemaId)
      requires Valid() && Shape(Now()) && s < |semas| && queues.q[WAIT + s] != []
      modifies this`threads, queues`q, queues.repr
      ensures Valid() && Now() == Roused(old(Now()), s)
    {
      ghost var st, q := Now(), queues.q;
      assert SemaTyped(st.semas[s], |threads|);
      var w; ghost var k;
      w, k := TakeUrgent(WAIT + s);
      RemovedOnNone(st, q, s, k);
      RousedLists(semas, q, s, queues.q[WAIT + s], st.ready + [w]);
      ThreadsUpdate(threads, locks.q, w, threads[w].(status := Ready), []);
      Unblock(w);
    }

    /** sema_up without the final yield. */
    method SemaIncrement(s: SemaId)
      requires Valid() && Shape(Now()) && s < |semas|
      modifies this`threads, this`semas, queues`q, queues.repr
      ensures Valid() && Now() == Wake(old(Now()), s)
    {
      var empty := queues.IsEmpty(WAIT + s);
      if !empty {
        WakeOne(s);
      }
      var c := semas[s].(value := semas[s].value + 1, ups := semas[s].ups + 1);
      SemasUpdate(semas, queues.q, s, c, []);
      semas := semas[s := c];
    }

    // -------------------------------------------------------------- semaphores

    /** Writes the running thread's fields. */
    method Store(t: Tid, c: Tcb)
      requires Valid() && t < |threads|
      modifies this`threads
      ensures Valid() && threads == old(threads)[t := c]
      ensures Now() == SetThread(old(Now()), t, Whole(c, Now().threads[t].held))
    {
      ThreadsUpdate(threads, locks.q, t, c, []);
      threads := threads[t := c];
    }

    /** The body of the loop in sema_down. */
    method Block(t: Tid, s: SemaId)
      requires Valid() && Shape(Now()) && OnCpu(Now(), t) && s < |semas|
      modifies this`threads, this`cur, queues`q, queues.repr
      ensures Valid() && Now() == Wait(old(Now()), t, s)
    {
      ghost var st := Now();
      ParkShape(st, t, s);
      RunningOnNone(t);
      SemasUpdate(semas, queues.q, s, semas[s], st.semas[s].waiters + [t]);
      queues.Append(WAIT + s, t);
      Store(t, threads[t].(status := Blocked, pc := InDown(s)));
      cur := None;
      Schedule();
    }

    /** One test of the loop in sema_down, and what follows it. */
    method SemaAttempt(t: Tid, s: SemaId) returns (success: bool)
      requires Valid() && Shape(Now()) && OnCpu(Now(), t) && s < |semas|
      modifies this, queues`q, queues.repr
      ensures Valid() && (success <==> old(semas[s].value) > 0)
      ensures Now() == if success then Take(old(Now()), t, s) else Wait(old(Now()), t, s)
    {
      success := semas[s].value > 0;
      if success {
        var c := semas[s].(value := semas[s].value - 1, downs := semas[s].downs + 1);
        SemasUpdate(semas, queues.q, s, c, []);
        semas := semas[s := c];
        Store(t, threads[t].(pc := Free));
      } else {
        Block(t, s);
      }
    }

    // -------------------------------------------------------------- locks

    /** The lock gets a holder and goes to the end of its lock list. */
    method Link(t: Tid, l: SemaId)
      requires Valid() && t < |threads| && l < |semas| && locks.OnNone(l)
      modifies this`semas, locks`q, locks.repr
      ensures Valid() && Now() == Handed(old(Now()), t, l, Some(t), old(Now()).threads[t].held + [l])
    {
      SemasUpdate(semas, queues.q, l, semas[l].(holder := Some(t)), []);
      semas := semas[l := semas[l].(holder := Some(t))];
      ThreadsUpdate(threads, locks.q, t, threads[t], locks.q[t] + [l]);
      locks.Append(t, l);
    }

    /** The lines of lock_acquire after sema_down. */
    method TakeOver(t: Tid, l: SemaId)
      requires Valid() && OnCpu(Now(), t) && l < |semas| && locks.OnNone(l)
      modifies this`threads, this`semas, locks`q, locks.repr
      ensures Valid() && Now() == Own(old(Now()), t, l)
    {
      OwnParts(Now(), t, l);
      Link(t, l);
      AdjustPriority(t);
      Store(t, threads[t].(waiting := None));
    }

    /** A lock that can be taken is on no lock list. */
    lemma Unheld(l: SemaId)
      requires Valid() && LockInv(Now()) && l < |semas| && semas[l].isLock && semas[l].value > 0
      ensures locks.OnNone(l)
    {
      var st := Now();
      assert LockValue(st.semas[l]);
      forall u | 0 <= u < |locks.q| ensures l !in locks.q[u] {
        assert st.threads[u].held == locks.q[u] && st.semas[l].holder != Some(u);
      }
    }

    /** lock_acquire before sema_down. */
    method Announce(t: Tid, l: SemaId)
      requires Valid() && Shape(Now()) && OnCpu(Now(), t) && l < |semas|
      modifies this`threads, this`semas
      ensures Valid() && Now() == Await(old(Now()), t, l)
    {
      ghost var st := Now();
      assert ThreadTyped(st.threads[t], |semas|);
      UpdateShape(st, t, st.threads[t].(waiting := Some(l)));
      Store(t, threads[t].(waiting := Some(l)));
      FlushPriority(t, Ceiling(Now().threads, Now().semas));
    }

    /** sema_down on the lock's semaphore as far as it gets, and what follows it on success. */
    method LockAttempt(t: Tid, l: SemaId)
      requires Valid() && Shape(Now()) && OnCpu(Now(), t) && l < |semas| && (semas[l].value > 0 ==> locks.OnNone(l))
      modifies this, queues`q, queues.repr, locks`q, locks.repr
      ensures Valid()
      ensures Now() == if old(Now()).semas[l].value > 0 then Grab(old(Now()), t, l) else Wait(old(Now()), t, l)
    {
      ghost var st := Now();
      var success := SemaAttempt(t, l);
      if success {
        TakeShape(st, t, l);
        TakeOver(t, l);
      }
    }

    method Acquire(t: Tid, l: SemaId)
      requires Valid() && Shape(Now()) && LockInv(Now()) && AtCpu(Now(), t, Free) && l < |semas|
      requires semas[l].isLock && semas[l].holder != Some(t)
      modifies this, queues`q, queues.repr, locks`q, locks.repr
      ensures Valid() && Now() == LockAcquire(old(Now()), t, l)
    {
      if semas[l].value > 0 {
        Unheld(l);
      }
      AwaitValue(Now(), t, l);
      Announce(t, l);
      LockAttempt(t, l);
    }

    method TryAcquire(t: Tid, l: SemaId) returns (success: bool)
      requires Valid() && Shape(Now()) && LockInv(Now()) && AtCpu(Now(), t, Free) && l < |semas|
      requires semas[l].isLock && semas[l].holder != Some(t)
      modifies this, queues`q, queues.repr, locks`q, locks.repr
      ensures Valid() && (success <==> old(semas[l].value) > 0)
      ensures Now() == LockTryAcquire(old(Now()), t, l)
      ensures success ==> Now().semas[l].holder == Some(t) && Now().semas[l].value == 0 && l in Now().threads[t].held
      ensures !success ==> Now() == old(Now())
    {
      ghost var st := Now();
      success := semas[l].value > 0;
      if success {
        Unheld(l);
        LockAttempt(t, l);
        GrabHolds(st, t, l);
      }
    }

    method TryDown(t: Tid, s: SemaId) returns (success: bool)
      requires Valid() && Shape(Now()) && AtCpu(Now(), t, Free) && s < |semas| && !semas[s].isLock
      modifies this, queues`q, queues.repr
      ensures Valid() && Now() == SemaTryDown(old(Now()), t, s)
      ensures success <==> old(semas[s].value) > 0
      ensures success ==> Now().semas[s].value == old(semas[s].value) - 1
      ensures !success ==> Now() == old(Now())
    {
      success := semas[s].value > 0;
      if success {
        var taken := SemaAttempt(t, s);
      }
    }

    /** The retry of a woken thread: back to the head of the loop in sema_down. */
    method Retake(t: Tid, s: SemaId)
      requires Valid() && Shape(Now()) && LockInv(Now()) && AtCpu(Now(), t, InDown(s)) && s < |semas|
      modifies this, queues`q, queues.repr, locks`q, locks.repr
      ensures Valid() && Now() == Retry(old(Now()), t, s)
    {
      if semas[s].isLock {
        if semas[s].value > 0 {
          Unheld(s);
        }
        LockAttempt(t, s);
      } else {
        var success := SemaAttempt(t, s);
      }
    }

    /** The lock loses its holder and leaves its lock list: list_remove finds it without a search. */
    method Unhand(t: Tid, l: SemaId, ghost k: nat)
      requires Valid() && t < |threads| && l < |semas| && k < |locks.q[t]| && locks.q[t][k] == l
      modifies this`semas, locks`q, locks.repr
      ensures Valid()
      ensures Now() == Handed(old(Now()), t, l, None, old(locks.q[t])[..k] + old(locks.q[t])[k + 1..])
    {
      SemasUpdate(semas, queues.q, l, semas[l].(holder := None), []);
      semas := semas[l := semas[l].(holder := None)];
      ThreadsUpdate(threads, locks.q, t, threads[t], locks.q[t][..k] + locks.q[t][k + 1..]);
      locks.Remove(l, t, k);
    }

    /** lock_release before sema_up. */
    method LetGo(t: Tid, l: SemaId)
      requires Valid() && OnCpu(Now(), t) && LockInv(Now()) && l < |semas| && semas[l].holder == Some(t)
      modifies this`threads, this`semas, locks`q, locks.repr
      ensures Valid() && Now() == Disown(old(Now()), t, l)
    {
      ghost var st := Now();
      assert l in st.threads[t].held;
      ghost var k :| 0 <= k < |locks.q[t]| && locks.q[t][k] == l;
      DisownParts(st, t, l, k);
      Unhand(t, l, k);
      AdjustPriority(t);
    }

    /** lock_release up to the yield inside sema_up. */
    method Release(t: Tid, l: SemaId)
      requires Valid() && Shape(Now()) && LockInv(Now()) && AtCpu(Now(), t, Free) && l < |semas|
      requires semas[l].isLock && semas[l].holder == Some(t)
      modifies this, queues`q, queues.repr, locks`q, locks.repr
      ensures Valid() && Now() == LockRelease(old(Now()), t, l)
    {
      ghost var st := Now();
      DisownShape(st, t, l);
      LetGo(t, l);
      SemaIncrement(l);
      ghost var st1 := Now();
      assert st1 == GiveUp(st, t, l);
      assert ThreadTyped(st1.threads[t], |st1.semas|);
      UpdateShape(st1, t, st1.threads[t].(pc := InRelease(l)));
      Store(t, threads[t].(pc := InRelease(l)));
      ThreadYield(t);
    }

    /** flush_lock_priority. */
    method FlushLock(l: SemaId)
      requires Valid() && Typed(Now()) && l < |semas|
      modifies this`semas
      ensures Valid() && Now() == Recompute(old(Now()), l)
    {
      ghost var st := Now();
      assert SemaTyped(st.semas[l], |threads|);
      var c := semas[l].(maxPriority := PRI_MIN);
      var empty := queues.IsEmpty(WAIT + l);
      if !empty {
        SameMax(Priorities(threads), ByPriority(st.threads), st.semas[l].waiters);
        var w := queues.Max(WAIT + l, Priorities(threads));
        c := c.(maxPriority := threads[w].priority);
      }
      SemasUpdate(semas, queues.q, l, c, []);
      semas := semas[l := c];
    }

    /** The rest of lock_release, once the releasing thread runs again, up to its final yield. */
    method ReleaseEnd(t: Tid, l: SemaId)
      requires Valid() && Shape(Now()) && AtCpu(Now(), t, InRelease(l)) && l < |semas|
      modifies this`threads, this`semas
      ensures Valid() && Now() == FinishRelease(old(Now()), t, l)
    {
      FlushLock(l);
      Store(t, threads[t].(pc := Yielding));
    }

    /** sema_up up to its final yield. */
    method Up(t: Tid, s: SemaId)
      requires Valid() && Shape(Now()) && AtCpu(Now(), t, Free) && s < |semas| && !semas[s].isLock
      modifies this, queues`q, queues.repr
      ensures Valid() && Now() == SemaUp(old(Now()), t, s)
    {
      WakeKeepsCpu(Now(), t, s);
      SemaIncrement(s);
      Store(t, threads[t].(pc := Yielding));
    }

    method LastYield(t: Tid)
      requires Valid() && Shape(Now()) && AtCpu(Now(), t, Yielding)
      modifies this, queues`q, queues.repr
      ensures Valid() && Now() == FinalYield(old(Now()), t)
    {
      ghost var st := Now();
      assert ThreadTyped(st.threads[t], |semas|);
      UpdateShape(st, t, st.threads[t].(pc := Free));
      Store(t, threads[t].(pc := Free));
      ThreadYield(t);
    }

    /** thread_set_priority up to its final yield. */
    method ChangePriority(t: Tid, p: int)
      requires Valid() && Shape(Now()) && AtCpu(Now(), t, Free)
      modifies this`threads
      ensures Valid() && Now() == SetPriority(old(Now()), t, p)
    {
      ghost var st := Now();
      assert ThreadTyped(st.threads[t], |semas|);
      UpdateShape(st, t, st.threads[t].(intrinsic := p));
      Store(t, threads[t].(intrinsic := p));
      AdjustPriority(t);
      Store(t, threads[t].(pc := Yielding));
    }

    // -------------------------------------------------------------- sleeping

    /** thread_sleep: list_insert_ordered on the sleep list. */
    method Sleep(t: Tid, until: int)
      requires Valid() && Shape(Now()) && AtCpu(Now(), t, Free)
      modifies this, queues`q, queues.repr
      ensures Valid() && Now() == ThreadSleep(old(Now()), t, until)
    {
      ghost var st := Now();
      FallAsleepShape(st, t, until);
      RunningOnNone(t);
      Store(t, threads[t].(status := Blocked, pc := Asleep, wakeup := until));
      SameInsert(Wakeups(threads), ByWakeup(Now().threads), t, st.sleeping);
      SemasApart(semas, queues.q, SLEEP, InsertOrdered(Wakeups(threads), t, st.sleeping));
      queues.InsertSorted(SLEEP, t, Wakeups(threads));
      cur := None;
      Schedule();
    }

    /** list_pop_front and thread_unblock for the front sleeper. */
    method Rouse(t: Tid)
      requires Valid() && Shape(Now()) && queues.q[SLEEP] != [] && t == queues.q[SLEEP][0]
      modifies this`threads, queues`q, queues.repr
      ensures Valid() && Now() == RouseFirst(old(Now()))
    {
      ghost var st, q := Now(), queues.q;
      queues.Remove(t, SLEEP, 0);
      RousedOnNone(st, q);
      SleepLists(semas, q, st.sleeping[1..], st.ready + [t]);
      Store(t, threads[t].(pc := Free));
      ThreadsUpdate(threads, locks.q, t, threads[t].(status := Ready), []);
      Unblock(t);
    }

    /** The alarm is under way and will end in `goal`. */
    ghost predicate Ringing(goal: State)
      reads this, queues, queues.repr, locks, locks.repr
    {
      Valid() && Shape(Now()) && Alarm(Now()) == goal
    }

    /** One turn of the loop in thread_alarm; returns whether the front sleeper was due. */
    method Ring(ghost goal: State) returns (due: bool)
      requires Ringing(goal) && queues.q[SLEEP] != []
      modifies this`threads, queues`q, queues.repr
      ensures AsUnit(Ringing(goal))
      ensures due ==> |Now().sleeping| < |old(Now().sleeping)|
      ensures !due ==> Now() == goal
    {
      var t := queues.First(SLEEP);
      due := ticks >= threads[t].wakeup;
      if due {
        RouseShape(Now());
        Rouse(t);
      }
    }

    /** thread_alarm: a loop that takes due threads off the front of the sleep list. */
    method ThreadAlarm()
      requires Valid() && Shape(Now())
      modifies this`threads, queues`q, queues.repr
      ensures Valid() && Now() == Alarm(old(Now()))
    {
      ghost var goal := Alarm(Now());
      var empty := queues.IsEmpty(SLEEP);
      while !empty
        invariant AsUnit(Ringing(goal))
        invariant empty <==> queues.q[SLEEP] == []
        decreases |Now().sleeping|
      {
        var due := Ring(goal);
        if !due {
          break;
        }
        empty := queues.IsEmpty(SLEEP);
      }
    }

    /** The yield on return from an interrupt. */
    method YieldOnReturn()
      requires Valid() && Shape(Now())
      modifies this`threads, this`cur, queues`q, queues.repr
      ensures Valid() && Now() == Preempt(old(Now()))
    {
      if cur.Some? {
        assert Placed(Now(), cur.value);
        ThreadYield(cur.value);
      } else {
        Schedule();
      }
    }

    /** timer_interrupt itself. */
    method CountTick()
      requires Valid() && Shape(Now())
      modifies this`threads, this`ticks, queues`q, queues.repr
      ensures Valid() && Now() == Ticked(old(Now()))
    {
      ghost var st := Now();
      ClockShape(st, ticks + 1);
      ticks := ticks + 1;
      assert Now() == st.(ticks := ticks);
      ThreadAlarm();
    }

    /** timer_interrupt and, when the time slice is over, the yield on return. */
    method TimerTick(expired: bool)
      requires Valid() && Shape(Now())
      modifies this, queues`q, queues.repr
      ensures Valid() && Now() == TimerInterrupt(old(Now()), expired)
    {
      CountTick();
      if expired {
        YieldOnReturn();
      }
    }

    // -------------------------------------------------------------- creation, and any step at all

    /** No list holds an item that does not exist yet. */
    lemma NewOnNone(n: nat)
      requires Valid() && n == |threads|
      ensures forall i | 0 <= i < |queues.q| :: n !in queues.q[i]
    {
      forall i | 0 <= i < |queues.q| ensures n !in queues.q[i] {
        assert queues.Holds(queues.lists[i], queues.q[i]);
      }
    }

    /** A new thread, with an element and a lock list of its own. */
    method Grow(p: int)
      requires Valid()
      modifies this`threads, queues, queues.repr, locks
      ensures Valid() && Grown(old(queues.repr), old(locks.repr))
      ensures Now() == Spawned(old(Now()), p)
    {
      ghost var st := Now();
      var n := |threads|;
      NewOnNone(n);
      queues.AddItem();
      locks.AddList();
      ghost var q := queues.q;
      threads := threads + [Tcb(Ready, Free, p, p, None, 0)];
      queues.Append(READY, n);
      SemasApart(semas, q, READY, st.ready + [n]);
      assert Threads(threads, locks.q) == st.threads + [Thread(Ready, Free, p, p, None, [], 0)];
    }

    method Create(t: Tid, p: int)
      requires Valid() && Shape(Now()) && AtCpu(Now(), t, Free)
      modifies this`threads, queues, queues.repr, locks
      ensures Valid() && Grown(old(queues.repr), old(locks.repr))
      ensures Now() == Spawn(old(Now()), t, p)
    {
      SpawnShape(Now(), t, p);
      Grow(p);
      Store(t, threads[t].(pc := Yielding));
    }

    /** What the running thread does next, whatever it is. */
    method Perform(t: Tid, a: KernelRuns.Action)
      requires Valid() && KernelRuns.Inv(Now()) && OnCpu(Now(), t) && KernelRuns.CanAct(Now(), t, a)
      modifies this, queues, queues.repr, locks, locks.repr
      ensures Valid() && Grown(old(queues.repr), old(locks.repr))
      ensures Now() == KernelRuns.Perform(old(Now()), t, a)
    {
      ghost var st := Now();
      assert ThreadTyped(st.threads[t], |semas|);
      match a
      case Acquire(l) => Acquire(t, l);
      case TryAcquire(l) => var success := TryAcquire(t, l);
      case Release(l) => Release(t, l);
      case Down(s) => var success := SemaAttempt(t, s);
      case TryDown(s) => var success := TryDown(t, s);
      case Up(s) => Up(t, s);
      case Resume => Continue(t);
      case GiveWay => ThreadYield(t);
      case Sleep(until) => Sleep(t, until);
      case Priority(p) => ChangePriority(t, p);
      case Create(p) => Create(t, p);
    }

    /** A thread goes on inside the routine in which it lost the CPU. */
    method Continue(t: Tid)
      requires Valid() && KernelRuns.Inv(Now()) && OnCpu(Now(), t) && KernelRuns.CanAct(Now(), t, KernelRuns.Resume)
      modifies this, queues`q, queues.repr, locks`q, locks.repr
      ensures Valid() && Now() == KernelRuns.Perform(old(Now()), t, KernelRuns.Resume)
    {
      ghost var st := Now();
      assert ThreadTyped(st.threads[t], |semas|);
      match threads[t].pc
      case InDown(s) => Retake(t, s);
      case InRelease(l) => ReleaseEnd(t, l);
      case Yielding => LastYield(t);
    }

    /** The linked kernel takes every step that the abstract one can take, arrives in the same state,
        and so keeps the invariant of all runs. */
    method Step(step: KernelRuns.Step)
      requires Valid() && KernelRuns.Inv(Now()) && KernelRuns.Enabled(Now(), step)
      modifies this, queues, queues.repr, locks, locks.repr
      ensures Valid() && Grown(old(queues.repr), old(locks.repr))
      ensures Now() == KernelRuns.Next(old(Now()), step) && KernelRuns.Inv(Now())
    {
      ghost var st := Now();
      KernelRuns.StepInv(st, step);
      match step
      case Act(a) => assert Placed(st, cur.value); Perform(cur.value, a);
      case Idle => Schedule();
      case UpFromInterrupt(s) => SemaIncrement(s);
      case Tick(expired) => TimerTick(expired);
    }

    /** From boot, the linked kernel goes through every run of the abstract one. */
    method Run(steps: seq<KernelRuns.Step>, ghost states: seq<State>)
      requires Valid() && KernelRuns.IsKernelRun(states, steps) && Now() == states[0]
      modifies this, queues, queues.repr, locks, locks.repr
      ensures Valid() && Grown(old(queues.repr), old(locks.repr)) && Now() == states[|steps|]
    {
      KernelRuns.RunInv(states, steps, 0);
      for i := 0 to |steps|
        invariant AsUnit(StandsFor(states[i])) && AsUnit(Grown(old(queues.repr), old(locks.repr)))
      {
        assert KernelRuns.StepAt(states, steps, i);
        Go(steps[i], states[i], states[i + 1]);
      }
    }

    /** The linked kernel is in abstract state `st`, which keeps the invariant. */
    ghost predicate StandsFor(st: State)
      reads this, queues, queues.repr, locks, locks.repr
    {
      Valid() && Now() == st && KernelRuns.Inv(st)
    }

    method Go(step: KernelRuns.Step, ghost st: State, ghost st': State)
      requires StandsFor(st) && KernelRuns.Enabled(st, step) && st' == KernelRuns.Next(st, step)
      modifies this, queues, queues.repr, locks, locks.repr
      ensures AsUnit(StandsFor(st')) && AsUnit(Grown(old(queues.repr), old(locks.repr)))
    {
      Step(step);
    }
  }

  /** Whoever takes a free lock holds it. */
  lemma GrabHolds(st: State, t: Tid, l: SemaId)
    requires Shape(st) && LockInv(st) && OnCpu(st, t) && l < |st.semas| && st.semas[l].isLock && st.semas[l].value > 0
    ensures var st' := Grab(st, t, l);
            l < |st'.semas| && t < |st'.threads| && st'.semas[l].holder == Some(t) && st'.semas[l].value == 0 && l in st'.threads[t].held
  {
    assert LockValue(st.semas[l]) && ThreadTyped(st.threads[t], |st.semas|);
    TakeShape(st, t, l);
    assert Grab(st, t, l).threads[t].held == st.threads[t].held + [l];
  }

  /** A lock changes hands: its holder and the lock list of one thread. */
  ghost function Handed(st: State, t: Tid, l: SemaId, holder: Option<Tid>, held: seq<SemaId>): State
    requires t < |st.threads| && l < |st.semas|
  {
    SetThread(SetSema(st, l, st.semas[l].(holder := holder)), t, st.threads[t].(held := held))
  }

  lemma HandedTyped(st: State, t: Tid, l: SemaId, holder: Option<Tid>, held: seq<SemaId>)
    requires Typed(st) && t < |st.threads| && l < |st.semas| && Ids(held, |st.semas|)
    requires holder == None || holder == Some(t)
    ensures Typed(Handed(st, t, l, holder, held))
  {
    var st' := Handed(st, t, l, holder, held);
    forall u | 0 <= u < |st.threads| ensures ThreadTyped(st'.threads[u], |st.semas|) {
      assert ThreadTyped(st.threads[u], |st.semas|);
    }
    forall r | 0 <= r < |st.semas| ensures SemaTyped(st'.semas[r], |st.threads|) {
      assert SemaTyped(st.semas[r], |st.threads|);
    }
  }

  lemma {:induction false} WithoutAt(held: seq<SemaId>, k: nat)
    requires NoDup(held) && k < |held|
    ensures Without(held, held[k]) == held[..k] + held[k + 1..]
  {
    if k > 0 {
      WithoutAt(held[1..], k - 1);
    }
  }

  lemma DisownParts(st: State, t: Tid, l: SemaId, k: nat)
    requires OnCpu(st, t) && LockInv(st) && l < |st.semas|
    requires k < |st.threads[t].held| && st.threads[t].held[k] == l
    ensures var held := st.threads[t].held;
            var st1 := Handed(st, t, l, None, held[..k] + held[k + 1..]);
            Typed(st1) && Disown(st, t, l) == SetThread(st1, t, Adjusted(st1.threads[t], st1.semas))
  {
    var held := st.threads[t].held;
    var rest := held[..k] + held[k + 1..];
    assert ThreadTyped(st.threads[t], |st.semas|);
    WithoutAt(held, k);
    WithoutIds(held, l, |st.semas|);
    HandedTyped(st, t, l, None, rest);
    SameDonation(st.semas, Handed(st, t, l, None, rest).semas, rest);
  }

  lemma SleepLists(cs: seq<Cell>, q: seq<seq<nat>>, sleeping: seq<Tid>, ready: seq<Tid>)
    requires |q| == WAIT + |cs|
    ensures Semas(cs, q[SLEEP := sleeping][READY := ready]) == Semas(cs, q)
  {
  }

  /** The front sleeper taken off its list is on no other. */
  lemma RousedOnNone(st: State, q: seq<seq<nat>>)
    requires Shape(st) && |q| == WAIT + |st.semas| && q[READY] == st.ready && q[SLEEP] == st.sleeping
    requires forall r | 0 <= r < |st.semas| :: q[WAIT + r] == st.semas[r].waiters
    requires st.sleeping != []
    ensures var q' := q[SLEEP := st.sleeping[..0] + st.sleeping[1..]];
            q'[SLEEP] == st.sleeping[1..] && forall i | 0 <= i < |q| :: st.sleeping[0] !in q'[i]
  {
    var p := st.sleeping;
    assert Placed(st, p[0]);
    RemoveAt(p, 0);
    forall i | 0 <= i < |q| && i != SLEEP ensures p[0] !in q[i] {
      assert i >= WAIT ==> q[i] == st.semas[i - WAIT].waiters;
    }
  }

  /** Donation leaves the value of the awaited lock alone. */
  lemma AwaitValue(st: State, t: Tid, l: SemaId)
    requires Shape(st) && OnCpu(st, t) && l < |st.semas|
    ensures Await(st, t, l).semas[l].value == st.semas[l].value
  {
    var th := st.threads[t].(waiting := Some(l));
    assert ThreadTyped(st.threads[t], |st.semas|);
    UpdateShape(st, t, th);
    DonateFrame(SetThread(st, t, th), t);
  }

  lemma OwnParts(st: State, t: Tid, l: SemaId)
    requires OnCpu(st, t) && l < |st.semas|
    ensures var st1 := Handed(st, t, l, Some(t), st.threads[t].held + [l]);
            Typed(st1) && Own(st, t, l) == SetThread(st1, t, Adjusted(st1.threads[t], st1.semas).(waiting := None))
  {
    var held := st.threads[t].held + [l];
    assert ThreadTyped(st.threads[t], |st.semas|);
    HandedTyped(st, t, l, Some(t), held);
    SameDonation(st.semas, Handed(st, t, l, Some(t), held).semas, held);
  }

  /** Giving a lock a holder or taking it away does not change any donation. */
  lemma SameDonation(ls: seq<Sema>, ls': seq<Sema>, held: seq<SemaId>)
    requires |ls'| == |ls| && Ids(held, |ls|)
    requires forall s | 0 <= s < |ls| :: ls'[s].maxPriority == ls[s].maxPriority
    ensures held != [] ==> MaxDonation(ls', held) == MaxDonation(ls, held)
  {
  }

  ghost function Roused(st: State, s: SemaId): State
    requires Typed(st) && s < |st.semas| && st.semas[s].waiters != []
  {
    var p := st.semas[s].waiters;
    assert SemaTyped(st.semas[s], |st.threads|);
    var k := Top(st.threads, p);
    SetThread(SetSema(st, s, st.semas[s].(waiters := p[..k] + p[k + 1..])),
              p[k], st.threads[p[k]].(status := Ready)).(ready := st.ready + [p[k]])
  }

  lemma RousedLists(cs: seq<Cell>, q: seq<seq<nat>>, s: SemaId, waiters: seq<Tid>, ready: seq<Tid>)
    requires |q| == WAIT + |cs| && s < |cs|
    ensures Semas(cs, q[WAIT + s := waiters][READY := ready]) == Semas(cs, q)[s := Filled(cs[s], waiters)]
  {
  }

  /** A waiter taken off its list is on no other. */
  lemma RemovedOnNone(st: State, q: seq<seq<nat>>, s: SemaId, k: nat)
    requires Shape(st) && |q| == WAIT + |st.semas| && q[READY] == st.ready && q[SLEEP] == st.sleeping
    requires forall r | 0 <= r < |st.semas| :: q[WAIT + r] == st.semas[r].waiters
    requires s < |st.semas| && k < |st.semas[s].waiters|
    ensures var p := st.semas[s].waiters;
            var q' := q[WAIT + s := p[..k] + p[k + 1..]];
            forall i | 0 <= i < |q| :: p[k] !in q'[i]
  {
    var p := st.semas[s].waiters;
    assert SemaTyped(st.semas[s], |st.threads|) && p[k] in p;
    assert Placed(st, p[k]);
    RemoveAt(p, k);
    forall i | 0 <= i < |q| && i != WAIT + s ensures p[k] !in q[i] {
      assert i >= WAIT ==> q[i] == st.semas[i - WAIT].waiters;
    }
  }

  /** `st'` is `st` after flush_priority. */
  ghost predicate Flushed(st: State, st': State, t: Tid, cap: int)
    requires Typed(st) && t < |st.threads| && Capped(st.threads, st.semas, cap)
  {
    TypedLinks(st);
    var (ts, ls) := Flush(st.threads, st.semas, t, cap);
    st' == st.(threads := ts, semas := ls)
  }

  lemma FlushTurn(st: State, t: Tid, cap: int)
    requires Typed(st) && t < |st.threads| && Capped(st.threads, st.semas, cap)
    requires st.threads[t].waiting.Some? && st.semas[st.threads[t].waiting.value].holder.Some?
    requires st.threads[t].priority > st.semas[st.threads[t].waiting.value].maxPriority
    ensures var l := st.threads[t].waiting.value;
            var st1 := st.(semas := Raise(st.semas, l, st.threads[t].priority));
            var h := st.semas[l].holder.value;
            && Typed(st1) && h < |st.threads|
            && var st2 := SetThread(st1, h, Adjusted(st1.threads[h], st1.semas));
               && Typed(st2) && Capped(st2.threads, st2.semas, cap) && Slack(st2.semas, cap) < Slack(st.semas, cap)
  {
    TypedLinks(st);
    TurnKeepsTypes(st.threads, st.semas, t, cap);
    SlackRaise(st.semas, st.threads[t].waiting.value, st.threads[t].priority, cap);
    var l := st.threads[t].waiting.value;
    var st1 := st.(semas := Raise(st.semas, l, st.threads[t].priority));
    forall s | 0 <= s < |st.semas| ensures SemaTyped(st1.semas[s], |st.threads|) {
      assert SemaTyped(st.semas[s], |st.threads|);
    }
  }
}
