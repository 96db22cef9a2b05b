/** A rule for callers under which donation does what it is for: if no thread ever holds two locks and
    none changes its own priority while it holds one, no thread is ever blocked by a less urgent one.

    The bounds of KernelUrgency are too strong for this, because a retry may leave a lock's donation
    too low.  What such runs keep instead is that a waiter is covered by the lock's donation, by the
    own priority of the holder, or, while the lock is free, by a woken thread that is coming for it. */
module KernelDiscipline {
  import opened Common
  import opened KernelState
  import opened KernelDonation
  import opened KernelSteps
  import opened KernelShape
  import opened KernelOps
  import opened KernelSync
  import opened KernelRuns
  import opened KernelUrgency

  /** At most one lock held; the priority is the thread's own when there is no lock to justify more. */
  ghost predicate Plain(th: Thread) {
    && |th.held| <= 1 && PRI_MIN <= th.intrinsic <= th.priority
    && (th.held == [] ==> th.priority == th.intrinsic)
    && (th.pc.InRelease? ==> th.held == [])
  }

  ghost predicate AllPlain(ts: seq<Thread>) {
    forall t | 0 <= t < |ts| :: Plain(ts[t])
  }

  /** Every holder is at least as urgent as its lock. */
  ghost predicate Backed(ts: seq<Thread>, ls: seq<Sema>) {
    forall l | 0 <= l < |ls| && ls[l].holder.Some? && ls[l].holder.value < |ts| ::
      ls[l].maxPriority <= ts[ls[l].holder.value].priority
  }

  /** Priority p on lock l is matched by the donation, the holder's own priority, or a woken thread. */
  ghost predicate CoveredOn(st: State, p: int, l: SemaId)
    requires l < |st.semas|
  {
    var x := st.semas[l];
    || p <= x.maxPriority
    || if x.holder.Some? then x.holder.value < |st.threads| && p <= st.threads[x.holder.value].intrinsic
       else exists w | 0 <= w < |st.threads| :: Awake(st.threads[w], l) && p <= st.threads[w].priority
  }

  ghost predicate Covered(st: State, v: Tid)
    requires v < |st.threads|
  {
    var th := st.threads[v];
    th.waiting.Some? ==>
      && th.waiting.value < |st.semas| && st.semas[th.waiting.value].isLock
      && CoveredOn(st, th.priority, th.waiting.value)
  }

  /** While a release is unfinished, whoever took the lock has an own priority that is no lower. */
  ghost predicate Outdone(st: State, u: Tid)
    requires u < |st.threads|
  {
    var th := st.threads[u];
    th.pc.InRelease? && th.pc.lck < |st.semas| && st.semas[th.pc.lck].holder.Some? ==>
      && st.semas[th.pc.lck].holder.value < |st.threads|
      && th.priority <= st.threads[st.semas[th.pc.lck].holder.value].intrinsic
  }

  ghost predicate Calm(st: State) {
    && AllPlain(st.threads) && Backed(st.threads, st.semas)
    && (forall v | 0 <= v < |st.threads| :: Covered(st, v))
    && (forall u | 0 <= u < |st.threads| :: Outdone(st, u))
  }

  /** A ready thread in the middle of lock_acquire or lock_release. */
  ghost predicate Midway(th: Thread) {
    th.status == Ready && (th.waiting.Some? || th.pc.InRelease?)
  }

  /** The running thread, unless it is about to yield, is at least as urgent as all of those. */
  ghost predicate Leads(st: State) {
    st.cur.Some? && st.cur.value < |st.threads| && st.threads[st.cur.value].pc != Yielding ==>
      forall u | 0 <= u < |st.threads| && Midway(st.threads[u]) ::
        st.threads[u].priority <= st.threads[st.cur.value].priority
  }

  // ---------------------------------------------------------------- what changes nothing

  /** Nothing that Calm depends on is lost. */
  ghost predicate Similar(st: State, th: Thread, th': Thread) {
    && th'.priority == th.priority && th'.intrinsic == th.intrinsic && th'.held == th.held && th'.waiting == th.waiting
    && (th'.pc.InRelease? ==> th'.pc == th.pc)
    && (forall l | 0 <= l < |st.semas| && st.semas[l].isLock && st.semas[l].holder == None :: Awake(th, l) ==> Awake(th', l))
  }

  ghost predicate SameDonations(st: State, st': State) {
    && |st'.semas| == |st.semas|
    && forall l | 0 <= l < |st.semas| ::
         && st'.semas[l].holder == st.semas[l].holder && st'.semas[l].maxPriority == st.semas[l].maxPriority
         && st'.semas[l].isLock == st.semas[l].isLock
  }

  lemma SimilarCalm(st: State, st': State)
    requires Calm(st) && SameDonations(st, st') && |st'.threads| == |st.threads|
    requires forall t | 0 <= t < |st.threads| :: Similar(st, st.threads[t], st'.threads[t])
    ensures Calm(st')
  {
    forall t | 0 <= t < |st.threads| ensures Plain(st'.threads[t]) && Covered(st', t) && Outdone(st', t) {
      assert Similar(st, st.threads[t], st'.threads[t]) && Plain(st.threads[t]) && Covered(st, t) && Outdone(st, t);
      var th := st.threads[t];
      if th.waiting.Some? {
        SimilarCover(st, st', th.priority, th.waiting.value);
      }
      assert st'.threads[t].pc.InRelease? && st'.threads[t].pc.lck < |st.semas| && st.semas[st'.threads[t].pc.lck].holder.Some? ==>
          Similar(st, st.threads[st.semas[st'.threads[t].pc.lck].holder.value], st'.threads[st.semas[st'.threads[t].pc.lck].holder.value]);
    }
    forall l | 0 <= l < |st.semas| && st'.semas[l].holder.Some? && st'.semas[l].holder.value < |st.threads|
      ensures st'.semas[l].maxPriority <= st'.threads[st'.semas[l].holder.value].priority
    {
      var x := st'.semas[l].holder.value;
      assert Similar(st, st.threads[x], st'.threads[x]);
    }
  }

  lemma SimilarCover(st: State, st': State, p: int, l: SemaId)
    requires SameDonations(st, st') && |st'.threads| == |st.threads|
    requires forall t | 0 <= t < |st.threads| :: Similar(st, st.threads[t], st'.threads[t])
    requires l < |st.semas| && st.semas[l].isLock && CoveredOn(st, p, l)
    ensures CoveredOn(st', p, l)
  {
    var x := st.semas[l];
    if p > x.maxPriority {
      if x.holder.Some? {
        assert Similar(st, st.threads[x.holder.value], st'.threads[x.holder.value]);
      } else {
        var w :| 0 <= w < |st.threads| && Awake(st.threads[w], l) && p <= st.threads[w].priority;
        assert Similar(st, st.threads[w], st'.threads[w]);
        assert Awake(st'.threads[w], l);
      }
    }
  }

  /** schedule picks a leader. */
  lemma DispatchCalm(st: State)
    requires Shape(st) && st.cur == None && Calm(st)
    ensures Calm(Dispatch(st)) && Leads(Dispatch(st))
  {
    var st' := Dispatch(st);
    if st.ready != [] {
      var k := Top(st.threads, st.ready);
      assert Placed(st, st.ready[k]);
      forall u | 0 <= u < |st.threads| ensures Similar(st, st.threads[u], st'.threads[u]) {}
      forall u | 0 <= u < |st.threads| && Midway(st'.threads[u]) ensures st'.threads[u].priority <= st.threads[st.ready[k]].priority {
        assert Placed(st, u);
      }
    }
    assert st.ready == [] ==> forall u | 0 <= u < |st.threads| :: Similar(st, st.threads[u], st'.threads[u]);
    SimilarCalm(st, st');
  }

  lemma YieldCalm(st: State, t: Tid)
    requires Shape(st) && OnCpu(st, t) && Calm(st)
    ensures Calm(Yield(st, t)) && Leads(Yield(st, t))
  {
    var st1 := Deschedule(st, t);
    DescheduleShape(st, t);
    forall u | 0 <= u < |st.threads| ensures Similar(st, st.threads[u], st1.threads[u]) {}
    SimilarCalm(st, st1);
    DispatchCalm(st1);
  }

  /** Blocking on a semaphore, or on a lock that somebody holds. */
  lemma WaitCalm(st: State, t: Tid, s: SemaId)
    requires Shape(st) && OnCpu(st, t) && Calm(st) && s < |st.semas|
    requires st.semas[s].isLock ==> st.semas[s].holder.Some?
    requires st.threads[t].pc == Free || st.threads[t].pc == InDown(s)
    ensures Calm(Wait(st, t, s)) && Leads(Wait(st, t, s))
  {
    var st1 := Park(st, t, s);
    ParkShape(st, t, s);
    forall u | 0 <= u < |st.threads| ensures Similar(st, st.threads[u], st1.threads[u]) {}
    SimilarCalm(st, st1);
    DispatchCalm(st1);
  }

  // ---------------------------------------------------------------- donation

  /** A thread's priority after donation: as before, or raised on account of a lock to at least p. */
  ghost predicate Lifted(th: Thread, th': Thread, p: int) {
    th'.priority == th.priority || (th.held != [] && p <= th'.priority)
  }

  /** What flush_priority from t achieves where no thread holds two locks. */
  ghost predicate Raised(ts: seq<Thread>, ls: seq<Sema>, ts': seq<Thread>, ls': seq<Sema>, t: Tid, p: int) {
    && OnlyPriorities(ts, ls, ts', ls') && Backed(ts', ls')
    && (forall u | 0 <= u < |ts| :: Lifted(ts[u], ts'[u], p) && ts'[u].intrinsic <= ts'[u].priority)
    && (forall l | 0 <= l < |ls| :: ls[l].maxPriority <= ls'[l].maxPriority)
    && (forall u | 0 <= u < |ts| && ts[u].waiting.Some? && ts[u].waiting.value < |ls| && (u == t || ts'[u].priority != ts[u].priority) ::
          ts'[u].priority <= ls'[ts[u].waiting.value].maxPriority)
  }

  ghost predicate OneEach(ts: seq<Thread>) {
    forall t | 0 <= t < |ts| :: |ts[t].held| <= 1 && ts[t].intrinsic <= ts[t].priority
  }

  /** One turn: the awaited lock is raised and its holder adjusted. */
  lemma TurnRaises(ts: seq<Thread>, ls: seq<Sema>, t: Tid, l: SemaId, x: Tid)
    requires t < |ts| && Links(ts, ls) && Owned(ts, ls) && OneEach(ts) && Backed(ts, ls)
    requires ts[t].waiting == Some(l) && l < |ls| && ls[l].holder == Some(x) && x < |ts| && ts[t].priority > ls[l].maxPriority
    ensures Ids(ts[x].held, |ls|) && ts[x].held == [l]
    ensures var ls1 := Raise(ls, l, ts[t].priority);
            var ts1 := ts[x := Adjusted(ts[x], ls1)];
            && Owned(ts1, ls1) && OneEach(ts1) && Backed(ts1, ls1) && OnlyPriorities(ts, ls, ts1, ls1)
            && ts[t].priority <= ts1[x].priority
  {
    assert ThreadTyped(ts[x], |ls|);
    assert l in ts[x].held;
    assert ts[x].held == [l];
    var ls1 := Raise(ls, l, ts[t].priority);
    var ts1 := ts[x := Adjusted(ts[x], ls1)];
    assert ts1[x] == ts[x].(priority := ts1[x].priority) && ts[t].priority <= ts1[x].priority;
    forall r | 0 <= r < |ls| && ls1[r].holder.Some? && ls1[r].holder.value < |ts| && r != l
      ensures ls1[r].maxPriority <= ts1[ls1[r].holder.value].priority
    {
      var h := ls1[r].holder.value;
      assert h == x ==> r in ts[x].held;
    }
  }

  /** A thread that awaits nothing, or a lock already raised enough or free, ends the recursion. */
  lemma StopRaises(ts: seq<Thread>, ls: seq<Sema>, t: Tid, ls': seq<Sema>, p: int)
    requires t < |ts| && OneEach(ts) && Backed(ts, ls) && p <= ts[t].priority
    requires ts[t].waiting.Some? ==> ts[t].waiting.value < |ls|
    requires if ts[t].waiting.Some? && ts[t].priority > ls[ts[t].waiting.value].maxPriority
             then ls[ts[t].waiting.value].holder == None && ls' == Raise(ls, ts[t].waiting.value, ts[t].priority)
             else ls' == ls
    ensures Raised(ts, ls, ts, ls', t, p)
  {
  }

  lemma {:induction false} FlushRaises(ts: seq<Thread>, ls: seq<Sema>, t: Tid, cap: int, p: int, ts': seq<Thread>, ls': seq<Sema>)
    requires t < |ts| && Links(ts, ls) && Capped(ts, ls, cap) && (ts', ls') == Flush(ts, ls, t, cap)
    requires Owned(ts, ls) && OneEach(ts) && Backed(ts, ls) && p <= ts[t].priority
    ensures AsUnit(Raised(ts, ls, ts', ls', t, p))
    decreases Slack(ls, cap)
  {
    assert ThreadTyped(ts[t], |ls|);
    if ts[t].waiting.Some? && ts[t].priority > ls[ts[t].waiting.value].maxPriority && ls[ts[t].waiting.value].holder.Some? {
      var l := ts[t].waiting.value;
      var x := ls[l].holder.value;
      assert SemaTyped(ls[l], |ts|);
      SlackRaise(ls, l, ts[t].priority, cap);
      TurnKeepsTypes(ts, ls, t, cap);
      TurnRaises(ts, ls, t, l, x);
      var ls1 := Raise(ls, l, ts[t].priority);
      var ts1 := ts[x := Adjusted(ts[x], ls1)];
      FlushRaises(ts1, ls1, x, cap, p, ts', ls');
      RaisedOn(ts, ls, ts1, ls1, ts', ls', t, l, x, p);
    } else {
      StopRaises(ts, ls, t, ls', p);
    }
  }

  /** A first turn and the rest of the recursion put together. */
  lemma RaisedOn(ts: seq<Thread>, ls: seq<Sema>, ts1: seq<Thread>, ls1: seq<Sema>, ts': seq<Thread>, ls': seq<Sema>,
                 t: Tid, l: SemaId, x: Tid, p: int)
    requires t < |ts| && x < |ts| && l < |ls| && ts[t].waiting == Some(l) && ts[x].held != [] && p <= ts[t].priority
    requires ts[t].priority > ls[l].maxPriority && ls1 == Raise(ls, l, ts[t].priority)
    requires |ts1| == |ts| && ts1 == ts[x := ts1[x]] && ts1[x] == ts[x].(priority := ts1[x].priority) && ts[t].priority <= ts1[x].priority
    requires Raised(ts1, ls1, ts', ls', x, p)
    ensures Raised(ts, ls, ts', ls', t, p)
  {
    forall u | 0 <= u < |ts| ensures Lifted(ts[u], ts'[u], p) {
      assert Lifted(ts1[u], ts'[u], p);
    }
    forall u | 0 <= u < |ts| && ts[u].waiting.Some? && ts[u].waiting.value < |ls| && (u == t || ts'[u].priority != ts[u].priority)
      ensures ts'[u].priority <= ls'[ts[u].waiting.value].maxPriority
    {
      assert ts1[u].waiting == ts[u].waiting;
      assert ls1[ts[u].waiting.value].maxPriority <= ls'[ts[u].waiting.value].maxPriority;
    }
    forall r | 0 <= r < |ls| ensures ls[r].maxPriority <= ls'[r].maxPriority {
      assert ls1[r].maxPriority <= ls'[r].maxPriority;
    }
  }

  /** The start of lock_acquire by a leading thread. */
  lemma AwaitCalm(st: State, t: Tid, l: SemaId)
    requires Inv(st) && AtCpu(st, t, Free) && l < |st.semas| && st.semas[l].isLock && Calm(st) && Leads(st)
    ensures Calm(Await(st, t, l))
  {
    AwaitRaises(st, t, l);
    RaisedCalm(st, Await(st, t, l), t, l);
  }

  lemma AwaitRaises(st: State, t: Tid, l: SemaId)
    requires Inv(st) && AtCpu(st, t, Free) && l < |st.semas| && Calm(st)
    ensures var st' := Await(st, t, l);
            AsUnit(Raised(st.threads[t := st.threads[t].(waiting := Some(l))], st.semas, st'.threads, st'.semas, t, st.threads[t].priority))
  {
    var ts := st.threads[t := st.threads[t].(waiting := Some(l))];
    var st' := Await(st, t, l);
    assert ThreadTyped(st.threads[t], |st.semas|);
    UpdateShape(st, t, ts[t]);
    TypedLinks(SetThread(st, t, ts[t]));
    assert Owned(ts, st.semas) && OneEach(ts) && Backed(ts, st.semas) by {
      assert forall u | 0 <= u < |st.threads| :: Plain(st.threads[u]);
    }
    FlushRaises(ts, st.semas, t, Ceiling(ts, st.semas), st.threads[t].priority, st'.threads, st'.semas);
  }

  /** If the lock is free, donation ends at it and the thread still leads. */
  lemma AwaitLeads(st: State, t: Tid, l: SemaId)
    requires Inv(st) && AtCpu(st, t, Free) && l < |st.semas| && st.semas[l].holder == None && Leads(st)
    ensures var st' := Await(st, t, l);
            Leads(st') && st'.threads == st.threads[t := st.threads[t].(waiting := Some(l))]
  {
    var th := st.threads[t].(waiting := Some(l));
    assert ThreadTyped(st.threads[t], |st.semas|);
    UpdateShape(st, t, th);
    var st1 := SetThread(st, t, th);
    TypedLinks(st1);
    assert Flush(st1.threads, st1.semas, t, Ceiling(st1.threads, st1.semas)).0 == st1.threads;
  }

  lemma RaisedCalm(st: State, st': State, t: Tid, l: SemaId)
    requires Inv(st) && AtCpu(st, t, Free) && l < |st.semas| && st.semas[l].isLock && Calm(st) && Leads(st)
    requires Raised(st.threads[t := st.threads[t].(waiting := Some(l))], st.semas, st'.threads, st'.semas, t, st.threads[t].priority)
    ensures Calm(st')
  {
    var ts, p := st.threads[t := st.threads[t].(waiting := Some(l))], st.threads[t].priority;
    forall u | 0 <= u < |st.threads| ensures Plain(st'.threads[u]) && Outdone(st', u) && Covered(st', u) {
      assert Plain(st.threads[u]) && Outdone(st, u) && Covered(st, u);
      assert Lifted(ts[u], st'.threads[u], p);
      assert st'.threads[u] == ts[u].(priority := st'.threads[u].priority);
      if ts[u].waiting.Some? && u != t && st'.threads[u].priority == st.threads[u].priority {
        RaisedCover(st, st', t, l, st.threads[u].priority, ts[u].waiting.value);
      }
    }
  }

  lemma RaisedCover(st: State, st': State, t: Tid, l: SemaId, q: int, r: SemaId)
    requires Inv(st) && AtCpu(st, t, Free) && l < |st.semas| && Leads(st)
    requires Raised(st.threads[t := st.threads[t].(waiting := Some(l))], st.semas, st'.threads, st'.semas, t, st.threads[t].priority)
    requires r < |st.semas| && st.semas[r].isLock && CoveredOn(st, q, r)
    ensures CoveredOn(st', q, r)
  {
    var ts, x := st.threads[t := st.threads[t].(waiting := Some(l))], st.semas[r];
    assert x.maxPriority <= st'.semas[r].maxPriority && st'.semas[r].holder == x.holder;
    if q > x.maxPriority {
      if x.holder.Some? {
        assert st'.threads[x.holder.value] == ts[x.holder.value].(priority := st'.threads[x.holder.value].priority);
      } else {
        var w :| 0 <= w < |st.threads| && Awake(st.threads[w], r) && q <= st.threads[w].priority;
        assert Placed(st, w) && Placed(st, t);
        assert Midway(st.threads[w]);
        assert Lifted(ts[w], st'.threads[w], st.threads[t].priority);
        assert Awake(st'.threads[w], r);
      }
    }
  }

  // ---------------------------------------------------------------- taking and giving back a lock

  /** A leading thread without locks is about to take the free lock l. */
  ghost predicate Grabbing(st: State, t: Tid, l: SemaId) {
    && Shape(st) && OnCpu(st, t) && LockInv(st) && WaitingInv(st, {t}) && Calm(st) && Leads(st)
    && l < |st.semas| && st.semas[l].isLock && st.semas[l].value > 0
    && (st.threads[t].pc == Free || st.threads[t].pc == InDown(l)) && st.threads[t].held == []
  }

  /** What changes when t takes lock l. */
  ghost predicate Grabbed(st: State, st': State, t: Tid, l: SemaId)
    requires t < |st.threads| && l < |st.semas|
  {
    && |st'.threads| == |st.threads| && |st'.semas| == |st.semas| && st'.cur == st.cur
    && (forall u | 0 <= u < |st.threads| && u != t :: st'.threads[u] == st.threads[u])
    && (forall r | 0 <= r < |st.semas| && r != l :: st'.semas[r] == st.semas[r])
    && st'.semas[l].holder == Some(t) && st'.semas[l].maxPriority == st.semas[l].maxPriority && st'.semas[l].isLock
    && NowHolds(st.threads[t], st'.threads[t], st'.semas[l].maxPriority, l)
  }

  ghost predicate NowHolds(th: Thread, th': Thread, max: int, l: SemaId) {
    && th'.held == [l] && th'.waiting == None && th'.pc == Free && th'.status == Running
    && th'.intrinsic == th.intrinsic == th.priority <= th'.priority && max <= th'.priority
  }

  lemma GrabFields(st: State, t: Tid, l: SemaId)
    requires Grabbing(st, t, l)
    ensures AsUnit(Grabbed(st, Grab(st, t, l), t, l)) && st.semas[l].holder == None
  {
    assert LockValue(st.semas[l]) && Plain(st.threads[t]) && ThreadTyped(st.threads[t], |st.semas|);
    TakeShape(st, t, l);
    assert [] + [l] == [l];
  }

  lemma GrabCalm(st: State, t: Tid, l: SemaId)
    requires Grabbing(st, t, l)
    ensures Calm(Grab(st, t, l)) && Leads(Grab(st, t, l))
  {
    GrabFields(st, t, l);
    GrabbedCalm(st, Grab(st, t, l), t, l);
  }

  lemma GrabbedCalm(st: State, st': State, t: Tid, l: SemaId)
    requires Grabbing(st, t, l) && Grabbed(st, st', t, l) && st.semas[l].holder == None
    ensures Calm(st') && Leads(st')
  {
    assert Placed(st, t);
    forall u | 0 <= u < |st.threads| ensures Plain(st'.threads[u]) && Covered(st', u) && Outdone(st', u) {
      assert Plain(st.threads[u]) && Covered(st, u) && Outdone(st, u) && Placed(st, u);
      if u != t && st.threads[u].waiting.Some? {
        GrabCover(st, st', t, l, st.threads[u].priority, st.threads[u].waiting.value);
      }
      assert u != t && st.threads[u].pc == InRelease(l) ==> Midway(st.threads[u]);
    }
    forall r | 0 <= r < |st.semas| && st'.semas[r].holder.Some? && st'.semas[r].holder.value < |st.threads| && r != l
      ensures st'.semas[r].maxPriority <= st'.threads[st'.semas[r].holder.value].priority
    {
      OwnNothing(st, t, r);
    }
  }

  lemma OwnNothing(st: State, t: Tid, r: SemaId)
    requires LockInv(st) && t < |st.threads| && r < |st.semas| && r !in st.threads[t].held
    ensures st.semas[r].holder != Some(t)
  {
  }

  lemma GrabCover(st: State, st': State, t: Tid, l: SemaId, p: int, r: SemaId)
    requires Grabbing(st, t, l) && Grabbed(st, st', t, l) && st.semas[l].holder == None
    requires r < |st.semas| && st.semas[r].isLock && CoveredOn(st, p, r)
    ensures CoveredOn(st', p, r)
  {
    if p > st.semas[r].maxPriority && st.semas[r].holder == None {
      var w :| 0 <= w < |st.threads| && Awake(st.threads[w], r) && p <= st.threads[w].priority;
      assert Placed(st, w) && Placed(st, t);
      if r == l {
        assert w != t ==> Midway(st.threads[w]);
      } else {
        assert Awake(st'.threads[w], r);
      }
    }
  }

  /** lock_release up to the end of sema_up: of the waiters left behind, none is above the one woken. */
  lemma GiveUpCalm(st: State, t: Tid, l: SemaId)
    requires Inv(st) && AtCpu(st, t, Free) && l < |st.semas| && st.semas[l].isLock && st.semas[l].holder == Some(t) && Calm(st)
    ensures Calm(GiveUp(st, t, l)) && GiveUp(st, t, l).semas[l].holder == None && GiveUp(st, t, l).threads[t].held == []
  {
    var st1, st' := Disown(st, t, l), GiveUp(st, t, l);
    DisownFields(st, t, l);
    DisownShape(st, t, l);
    WakeKeepsCpu(st1, t, l);
    WakeKeepsFields(st1, l);
    forall u | 0 <= u < |st.threads| ensures Plain(st'.threads[u]) && Covered(st', u) && Outdone(st', u) {
      assert Plain(st.threads[u]) && Covered(st, u) && Outdone(st, u);
      if u != t && st.threads[u].waiting.Some? {
        GiveUpCover(st, st1, st', t, l, u);
      }
    }
    forall r | 0 <= r < |st.semas| && st'.semas[r].holder.Some? && st'.semas[r].holder.value < |st.threads|
      ensures st'.semas[r].maxPriority <= st'.threads[st'.semas[r].holder.value].priority
    {
      assert r != l ==> st.semas[r].holder != Some(t) by {
        if r != l {
          OwnNothing(st, t, r);
        }
      }
    }
  }

  lemma DisownFields(st: State, t: Tid, l: SemaId)
    requires Inv(st) && AtCpu(st, t, Free) && l < |st.semas| && st.semas[l].isLock && st.semas[l].holder == Some(t) && Calm(st)
    ensures var st1 := Disown(st, t, l);
            && st.threads[t].held == [l] && st.threads[t].waiting == None
            && |st1.threads| == |st.threads| && |st1.semas| == |st.semas|
            && (forall u | 0 <= u < |st.threads| && u != t :: st1.threads[u] == st.threads[u])
            && (forall r | 0 <= r < |st.semas| && r != l :: st1.semas[r] == st.semas[r])
            && st1.semas[l] == st.semas[l].(holder := None)
            && st1.threads[t] == st.threads[t].(held := [], priority := st.threads[t].intrinsic)
  {
    assert Plain(st.threads[t]) && ThreadTyped(st.threads[t], |st.semas|);
    assert l in st.threads[t].held;
    assert st.threads[t].held == [l];
    assert Without([l], l) == [];
  }

  lemma GiveUpCover(st: State, st1: State, st': State, t: Tid, l: SemaId, u: Tid)
    requires Inv(st) && AtCpu(st, t, Free) && l < |st.semas| && st.semas[l].isLock && st.semas[l].holder == Some(t) && Calm(st)
    requires st1 == Disown(st, t, l) && Shape(st1) && st' == Wake(st1, l)
    requires u < |st.threads| && u != t && st.threads[u].waiting.Some?
    ensures CoveredOn(st', st.threads[u].priority, st.threads[u].waiting.value)
  {
    DisownFields(st, t, l);
    WakeKeepsFields(st1, l);
    var r, p := st.threads[u].waiting.value, st.threads[u].priority;
    assert Covered(st, u);
    if r == l {
      WakeCovers(st1, l, u);
    } else if p > st.semas[r].maxPriority && st.semas[r].holder == None {
      var w :| 0 <= w < |st.threads| && Awake(st.threads[w], r) && p <= st.threads[w].priority;
      WakeAwakes(st1, l, w, r);
      assert Awake(st'.threads[w], r) && p <= st'.threads[w].priority;
    }
  }

  /** An up leaves threads awake. */
  lemma WakeAwakes(st: State, s: SemaId, w: Tid, r: SemaId)
    requires Shape(st) && s < |st.semas| && w < |st.threads| && Awake(st.threads[w], r)
    ensures Awake(Wake(st, s).threads[w], r)
  {
    assert SemaTyped(st.semas[s], |st.threads|);
  }

  lemma WakeCovers(st: State, l: SemaId, u: Tid)
    requires Shape(st) && l < |st.semas| && st.semas[l].holder == None && u < |st.threads| && st.threads[u].pc == InDown(l)
    ensures CoveredOn(Wake(st, l), st.threads[u].priority, l)
  {
    var st', x := Wake(st, l), st.semas[l];
    WakeKeepsFields(st, l);
    assert SemaTyped(x, |st.threads|) && Placed(st, u);
    if st.threads[u].status == Blocked {
      assert u in x.waiters;
      var w := x.waiters[Top(st.threads, x.waiters)];
      assert Placed(st, w) by {
        assert w in x.waiters;
      }
      assert Awake(st'.threads[w], l) && st.threads[u].priority <= st'.threads[w].priority;
    } else {
      WakeAwakes(st, l, u, l);
      assert Awake(st'.threads[u], l) && st.threads[u].priority <= st'.threads[u].priority;
    }
  }

  lemma ReleaseCalm(st: State, t: Tid, l: SemaId)
    requires Inv(st) && AtCpu(st, t, Free) && l < |st.semas| && st.semas[l].isLock && st.semas[l].holder == Some(t) && Calm(st)
    ensures Calm(LockRelease(st, t, l)) && Leads(LockRelease(st, t, l))
  {
    var st1 := GiveUp(st, t, l);
    GiveUpCalm(st, t, l);
    assert ThreadTyped(st1.threads[t], |st1.semas|);
    UpdateShape(st1, t, st1.threads[t].(pc := InRelease(l)));
    UnfinishedCalm(st1, t, l);
    YieldCalm(SetThread(st1, t, st1.threads[t].(pc := InRelease(l))), t);
  }

  lemma UnfinishedCalm(st: State, t: Tid, l: SemaId)
    requires Calm(st) && t < |st.threads| && l < |st.semas| && st.semas[l].holder == None && st.threads[t].held == []
    requires st.threads[t].pc == Free
    ensures Calm(SetThread(st, t, st.threads[t].(pc := InRelease(l))))
  {
    var st' := SetThread(st, t, st.threads[t].(pc := InRelease(l)));
    forall u | 0 <= u < |st.threads| ensures Plain(st'.threads[u]) && Covered(st', u) && Outdone(st', u) {
      assert Plain(st.threads[u]) && Covered(st, u) && Outdone(st, u);
      var th := st.threads[u];
      if th.waiting.Some? && th.priority > st.semas[th.waiting.value].maxPriority && st.semas[th.waiting.value].holder == None {
        var w :| 0 <= w < |st.threads| && Awake(st.threads[w], th.waiting.value) && th.priority <= st.threads[w].priority;
        assert Awake(st'.threads[w], th.waiting.value);
      }
    }
  }

  /** flush_lock_priority by a leading thread, late as it may be. */
  lemma RecomputeCalm(st: State, t: Tid, l: SemaId)
    requires Inv(st) && AtCpu(st, t, InRelease(l)) && l < |st.semas| && Calm(st) && Leads(st)
    ensures Calm(Recompute(st, l))
  {
    var st', x := Recompute(st, l), st.semas[l];
    assert SemaTyped(x, |st.threads|);
    forall u | 0 <= u < |st.threads| ensures Plain(st'.threads[u]) && Covered(st', u) && Outdone(st', u) {
      assert Plain(st.threads[u]) && Covered(st, u) && Outdone(st, u) && Outdone(st, t);
      var th := st.threads[u];
      if th.waiting == Some(l) {
        RecomputeCover(st, t, l, u);
      } else if th.waiting.Some? && th.priority > st.semas[th.waiting.value].maxPriority && st.semas[th.waiting.value].holder == None {
        var w :| 0 <= w < |st.threads| && Awake(st.threads[w], th.waiting.value) && th.priority <= st.threads[w].priority;
        assert Awake(st'.threads[w], th.waiting.value);
      }
    }
    RecomputeBacked(st, l);
  }

  lemma RecomputeCover(st: State, t: Tid, l: SemaId, u: Tid)
    requires Inv(st) && AtCpu(st, t, InRelease(l)) && l < |st.semas| && Calm(st) && Leads(st)
    requires u < |st.threads| && st.threads[u].waiting == Some(l)
    ensures CoveredOn(Recompute(st, l), st.threads[u].priority, l)
  {
    var st', x := Recompute(st, l), st.semas[l];
    assert SemaTyped(x, |st.threads|) && Placed(st, u) && Placed(st, t) && Outdone(st, t);
    if st.threads[u].status == Blocked {
      assert u in x.waiters;
    } else {
      assert Midway(st.threads[u]) && Awake(st'.threads[u], l);
    }
  }

  lemma RecomputeBacked(st: State, l: SemaId)
    requires Inv(st) && l < |st.semas| && Calm(st)
    ensures Backed(st.threads, Recompute(st, l).semas)
  {
    var x := st.semas[l];
    assert SemaTyped(x, |st.threads|);
    if x.holder.Some? {
      assert Plain(st.threads[x.holder.value]);
      if x.waiters != [] {
        var w := x.waiters[Top(st.threads, x.waiters)];
        assert w in x.waiters;
        assert LockValue(x) && Placed(st, w) && Covered(st, w);
      }
    }
  }

  lemma SetOutCalm(st: State, t: Tid)
    requires Shape(st) && OnCpu(st, t) && Calm(st) && !st.threads[t].pc.InDown?
    ensures Calm(SetOut(st, t)) && Leads(SetOut(st, t))
  {
    var st' := SetOut(st, t);
    forall u | 0 <= u < |st.threads| ensures Similar(st, st.threads[u], st'.threads[u]) {}
    SimilarCalm(st, st');
  }

  lemma FinishCalm(st: State, t: Tid, l: SemaId)
    requires Inv(st) && AtCpu(st, t, InRelease(l)) && l < |st.semas| && Calm(st) && Leads(st)
    ensures Calm(FinishRelease(st, t, l)) && Leads(FinishRelease(st, t, l))
  {
    RecomputeShape(st, l);
    RecomputeCalm(st, t, l);
    SetOutCalm(Recompute(st, l), t);
  }

  // ---------------------------------------------------------------- everything else

  lemma FinalYieldCalm(st: State, t: Tid)
    requires Shape(st) && AtCpu(st, t, Yielding) && Calm(st)
    ensures Calm(FinalYield(st, t)) && Leads(FinalYield(st, t))
  {
    var st1 := SetThread(st, t, st.threads[t].(pc := Free));
    assert ThreadTyped(st.threads[t], |st.semas|);
    UpdateShape(st, t, st1.threads[t]);
    forall u | 0 <= u < |st.threads| ensures Similar(st, st.threads[u], st1.threads[u]) {}
    SimilarCalm(st, st1);
    YieldCalm(st1, t);
  }

  lemma TakeCalm(st: State, t: Tid, s: SemaId)
    requires Inv(st) && OnCpu(st, t) && s < |st.semas| && !st.semas[s].isLock && st.semas[s].value > 0
    requires (st.threads[t].pc == Free || st.threads[t].pc == InDown(s)) && Calm(st) && Leads(st)
    ensures Calm(Take(st, t, s)) && Leads(Take(st, t, s))
  {
    var st' := Take(st, t, s);
    forall u | 0 <= u < |st.threads| ensures Similar(st, st.threads[u], st'.threads[u]) {}
    SimilarCalm(st, st');
  }

  /** An up on a semaphore wakes nobody who waits for a lock. */
  lemma WakeCalm(st: State, s: SemaId)
    requires Inv(st) && s < |st.semas| && !st.semas[s].isLock && Calm(st) && Leads(st)
    ensures Calm(Wake(st, s)) && Leads(Wake(st, s))
  {
    var st' := Wake(st, s);
    WakeKeepsFields(st, s);
    assert SemaTyped(st.semas[s], |st.threads|);
    forall u | 0 <= u < |st.threads| ensures Similar(st, st.threads[u], st'.threads[u]) && (Midway(st'.threads[u]) ==> Midway(st.threads[u])) {
      assert Placed(st, u);
    }
    SimilarCalm(st, st');
  }

  lemma SetPriorityCalm(st: State, t: Tid, p: int)
    requires Inv(st) && AtCpu(st, t, Free) && Calm(st) && st.threads[t].held == [] && PRI_MIN <= p
    ensures Calm(SetPriority(st, t, p)) && Leads(SetPriority(st, t, p))
  {
    var th := st.threads[t].(intrinsic := p, priority := p);
    var st1 := SetThread(st, t, th);
    assert ThreadTyped(st.threads[t], |st.semas|);
    UpdateShape(st, t, th);
    forall u | 0 <= u < |st.threads| ensures Plain(st1.threads[u]) && Covered(st1, u) && Outdone(st1, u) {
      assert Plain(st.threads[u]) && Covered(st, u) && Outdone(st, u);
      if st.threads[u].waiting.Some? {
        FreshCover(st, t, th, st.threads[u].priority, st.threads[u].waiting.value);
      }
      if st.threads[u].pc.InRelease? && st.threads[u].pc.lck < |st.semas| {
        OwnNothing(st, t, st.threads[u].pc.lck);
      }
    }
    forall r | 0 <= r < |st.semas| && st1.semas[r].holder.Some? && st1.semas[r].holder.value < |st.threads|
      ensures st1.semas[r].maxPriority <= st1.threads[st1.semas[r].holder.value].priority
    {
      OwnNothing(st, t, r);
    }
    SetOutCalm(st1, t);
  }

  lemma FreshCover(st: State, t: Tid, th: Thread, p: int, r: SemaId)
    requires Inv(st) && AtCpu(st, t, Free) && st.threads[t].held == []
    requires r < |st.semas| && CoveredOn(st, p, r)
    ensures CoveredOn(SetThread(st, t, th), p, r)
  {
    OwnNothing(st, t, r);
    if p > st.semas[r].maxPriority && st.semas[r].holder == None {
      var w :| 0 <= w < |st.threads| && Awake(st.threads[w], r) && p <= st.threads[w].priority;
      assert Awake(SetThread(st, t, th).threads[w], r);
    }
  }

  lemma SpawnCalm(st: State, t: Tid, p: int)
    requires Inv(st) && AtCpu(st, t, Free) && Calm(st) && PRI_MIN <= p
    ensures Calm(Spawn(st, t, p)) && Leads(Spawn(st, t, p))
  {
    var st1 := Spawned(st, p);
    SpawnShape(st, t, p);
    forall u | 0 <= u < |st1.threads| ensures Plain(st1.threads[u]) && Covered(st1, u) && Outdone(st1, u) {
      if u < |st.threads| {
        assert Plain(st.threads[u]) && Covered(st, u) && Outdone(st, u);
        var th := st.threads[u];
        if th.waiting.Some? && th.priority > st.semas[th.waiting.value].maxPriority && st.semas[th.waiting.value].holder == None {
          var w :| 0 <= w < |st.threads| && Awake(st.threads[w], th.waiting.value) && th.priority <= st.threads[w].priority;
          assert Awake(st1.threads[w], th.waiting.value);
        }
      }
    }
    forall r | 0 <= r < |st.semas| && st1.semas[r].holder.Some? && st1.semas[r].holder.value < |st1.threads|
      ensures st1.semas[r].maxPriority <= st1.threads[st1.semas[r].holder.value].priority
    {
      assert SemaTyped(st.semas[r], |st.threads|);
    }
    SetOutCalm(st1, t);
  }

  lemma SleepCalm(st: State, t: Tid, until: int)
    requires Inv(st) && AtCpu(st, t, Free) && Calm(st)
    ensures Calm(ThreadSleep(st, t, until)) && Leads(ThreadSleep(st, t, until))
  {
    var st1 := FallAsleep(st, t, until);
    FallAsleepShape(st, t, until);
    forall u | 0 <= u < |st.threads| ensures Similar(st, st.threads[u], st1.threads[u]) {}
    SimilarCalm(st, st1);
    DispatchCalm(st1);
  }

  lemma RouseCalm(st: State)
    requires Inv(st) && st.sleeping != [] && Calm(st) && Leads(st)
    ensures Calm(RouseFirst(st)) && Leads(RouseFirst(st))
  {
    var st' := RouseFirst(st);
    assert Placed(st, st.sleeping[0]);
    forall u | 0 <= u < |st.threads| ensures Similar(st, st.threads[u], st'.threads[u]) {}
    SimilarCalm(st, st');
  }

  lemma {:induction false} AlarmCalm(st: State)
    requires Inv(st) && Calm(st) && Leads(st)
    ensures Calm(Alarm(st)) && Leads(Alarm(st))
    decreases |st.sleeping|
  {
    if FrontDue(st) {
      RouseInv(st);
      RouseCalm(st);
      AlarmCalm(RouseFirst(st));
    }
  }

  lemma TickedCalm(st: State)
    requires Inv(st) && Calm(st) && Leads(st)
    ensures Calm(Ticked(st)) && Leads(Ticked(st))
  {
    var st1 := st.(ticks := st.ticks + 1);
    ClockShape(st, st.ticks + 1);
    QuietRest(st, st1, {});
    forall u | 0 <= u < |st.threads| ensures Similar(st, st.threads[u], st1.threads[u]) {}
    SimilarCalm(st, st1);
    AlarmCalm(st1);
  }

  lemma TickCalm(st: State, expired: bool)
    requires Inv(st) && Calm(st) && Leads(st)
    ensures Calm(TimerInterrupt(st, expired)) && Leads(TimerInterrupt(st, expired))
  {
    TickedCalm(st);
    if expired {
      var st1 := Ticked(st);
      match st1.cur
      case Some(t) =>
        assert Placed(st1, t);
        YieldCalm(st1, t);
      case None => DispatchCalm(st1);
    }
  }

  // ---------------------------------------------------------------- runs

  /** No thread holds two locks. */
  ghost predicate OneLockEach(st: State) {
    forall t | 0 <= t < |st.threads| :: |st.threads[t].held| <= 1
  }

  /** The caller of thread_set_priority holds no lock, and the new priority is not below PRI_MIN. */
  ghost predicate Disciplined(st: State, step: Step) {
    match step
    case Act(Priority(p)) => PRI_MIN <= p && (st.cur.Some? && st.cur.value < |st.threads| ==> st.threads[st.cur.value].held == [])
    case _ => true
  }

  /** A thread that may hold the lock afterwards holds none before. */
  lemma GrabOne(st: State, t: Tid, l: SemaId)
    requires Shape(st) && OnCpu(st, t) && l < |st.semas| && st.semas[l].value > 0 && OneLockEach(Grab(st, t, l))
    ensures st.threads[t].held == []
  {
    var st' := Grab(st, t, l);
    assert ThreadTyped(st.threads[t], |st.semas|);
    TakeShape(st, t, l);
    assert st'.threads[t].held == st.threads[t].held + [l];
  }

  lemma AcquireCalm(st: State, t: Tid, l: SemaId)
    requires Inv(st) && AtCpu(st, t, Free) && l < |st.semas| && st.semas[l].isLock && st.semas[l].holder != Some(t)
    requires Calm(st) && Leads(st) && OneLockEach(LockAcquire(st, t, l))
    ensures Calm(LockAcquire(st, t, l)) && Leads(LockAcquire(st, t, l))
  {
    var st1 := Await(st, t, l);
    AwaitRest(st, t, l);
    AwaitCalm(st, t, l);
    assert LockValue(st.semas[l]) && LockValue(st1.semas[l]);
    if st1.semas[l].value > 0 {
      AwaitFree(st, t, l);
      AwaitLeads(st, t, l);
      GrabOne(st1, t, l);
      GrabCalm(st1, t, l);
    } else {
      WaitCalm(st1, t, l);
    }
  }

  lemma AwaitFree(st: State, t: Tid, l: SemaId)
    requires Inv(st) && AtCpu(st, t, Free) && l < |st.semas| && Calm(st)
    ensures Await(st, t, l).semas[l].holder == st.semas[l].holder
  {
    AwaitRaises(st, t, l);
  }

  lemma RetryCalm(st: State, t: Tid, s: SemaId)
    requires Inv(st) && AtCpu(st, t, InDown(s)) && s < |st.semas| && Calm(st) && Leads(st) && OneLockEach(Retry(st, t, s))
    ensures Calm(Retry(st, t, s)) && Leads(Retry(st, t, s))
  {
    assert LockValue(st.semas[s]);
    if st.semas[s].value == 0 {
      WaitCalm(st, t, s);
    } else if st.semas[s].isLock {
      GrabOne(st, t, s);
      GrabCalm(st, t, s);
    } else {
      TakeCalm(st, t, s);
    }
  }

  lemma PerformCalm(st: State, t: Tid, a: Action)
    requires Inv(st) && OnCpu(st, t) && CanAct(st, t, a) && Disciplined(st, Act(a))
    requires Calm(st) && Leads(st) && OneLockEach(Perform(st, t, a))
    ensures Calm(Perform(st, t, a)) && Leads(Perform(st, t, a))
  {
    assert ThreadTyped(st.threads[t], |st.semas|);
    match a
    case Acquire(l) => AcquireCalm(st, t, l);
    case TryAcquire(l) => if st.semas[l].value > 0 { GrabOne(st, t, l); GrabCalm(st, t, l); }
    case Release(l) => ReleaseCalm(st, t, l);
    case Down(s) => if st.semas[s].value > 0 { TakeCalm(st, t, s); } else { WaitCalm(st, t, s); }
    case TryDown(s) => if st.semas[s].value > 0 { TakeCalm(st, t, s); }
    case Up(s) =>
      WakeCalm(st, s);
      WakeKeepsCpu(st, t, s);
      SetOutCalm(Wake(st, s), t);
    case Resume =>
      if st.threads[t].pc.InDown? {
        RetryCalm(st, t, st.threads[t].pc.sema);
      } else if st.threads[t].pc.InRelease? {
        FinishCalm(st, t, st.threads[t].pc.lck);
      } else {
        FinalYieldCalm(st, t);
      }
    case GiveWay => YieldCalm(st, t);
    case Sleep(until) => SleepCalm(st, t, until);
    case Priority(p) => SetPriorityCalm(st, t, p);
    case Create(p) => SpawnCalm(st, t, p);
  }

  lemma StepCalm(st: State, step: Step)
    requires Inv(st) && Enabled(st, step) && Disciplined(st, step) && OneLockEach(Next(st, step))
    requires Calm(st) && Leads(st)
    ensures Calm(Next(st, step)) && Leads(Next(st, step))
  {
    match step
    case Act(a) =>
      assert Placed(st, st.cur.value);
      PerformCalm(st, st.cur.value, a);
    case Idle => DispatchCalm(st);
    case UpFromInterrupt(s) => WakeCalm(st, s);
    case Tick(expired) => TickCalm(st, expired);
  }

  lemma {:induction false} RunCalm(states: seq<State>, steps: seq<Step>, i: nat)
    requires IsKernelRun(states, steps) && i < |states|
    requires forall j | 0 <= j < |states| :: OneLockEach(states[j])
    requires forall j | 0 <= j < |steps| :: Disciplined(states[j], steps[j])
    ensures Calm(states[i]) && Leads(states[i])
  {
    if i == 0 {
      InitialCalm(states[0]);
    } else {
      RunCalm(states, steps, i - 1);
      RunInv(states, steps, i - 1);
      assert StepAt(states, steps, i - 1) && Disciplined(states[i - 1], steps[i - 1]);
      StepCalm(states[i - 1], steps[i - 1]);
    }
  }

  lemma InitialCalm(st: State)
    requires Initial(st)
    ensures Calm(st) && Leads(st)
  {
    assert Plain(st.threads[0]);
    assert forall s | 0 <= s < |st.semas| :: Fresh(st.semas[s]);
  }

  /** In every run in which no thread ever holds two locks, none changes its priority while it holds one
      and none sets it below PRI_MIN, a thread is never blocked by a less urgent one. */
  lemma NoInversionUnderDiscipline(states: seq<State>, steps: seq<Step>, i: nat, v: Tid, x: Tid)
    requires IsKernelRun(states, steps) && i < |states|
    requires forall j | 0 <= j < |states| :: OneLockEach(states[j])
    requires forall j | 0 <= j < |steps| :: Disciplined(states[j], steps[j])
    requires BlockedBy(states[i], v, x)
    ensures states[i].threads[v].priority <= states[i].threads[x].priority
  {
    RunCalm(states, steps, i);
    assert Covered(states[i], v) && Plain(states[i].threads[x]);
  }
}
