/** Priority inversion: which steps keep every waiter's urgency passed on, and which one does not. */
module KernelUrgency {
  import opened Common
  import opened KernelState
  import opened KernelDonation
  import opened KernelSteps
  import opened KernelShape
  import opened KernelOps
  import opened KernelSync
  import opened KernelRuns

  ghost function Unblocked(st: State): set<Tid> {
    set t | 0 <= t < |st.threads| && st.threads[t].status != Blocked
  }

  /** No thread is below its own priority, every holder is at least as urgent as its locks, and every
      lock is at least as urgent as each thread blocked on it. */
  ghost predicate Urgent(st: State) {
    Bounds(st.threads, st.semas, Unblocked(st)) && InRange(st)
  }

  /** No thread's own priority is below PRI_MIN. */
  ghost predicate InRange(st: State) {
    forall t | 0 <= t < |st.threads| :: PRI_MIN <= st.threads[t].intrinsic
  }

  /** Thread t is blocked on a lock that u holds. */
  ghost predicate BlockedBy(st: State, t: Tid, u: Tid) {
    && t < |st.threads| && u < |st.threads| && st.threads[t].status == Blocked
    && st.threads[t].waiting.Some? && st.threads[t].waiting.value < |st.semas|
    && st.semas[st.threads[t].waiting.value].holder == Some(u)
  }

  /** Down any chain of blocked threads and lock holders the urgency never drops. */
  lemma {:induction false} ChainUrgency(st: State, chain: seq<Tid>)
    requires Urgent(st) && |chain| > 0 && (forall i | 0 <= i < |chain| :: chain[i] < |st.threads|)
    requires forall i | 0 <= i < |chain| - 1 :: BlockedBy(st, chain[i], chain[i + 1])
    ensures st.threads[chain[0]].priority <= st.threads[chain[|chain| - 1]].priority
  {
    if |chain| > 1 {
      var t, u := chain[0], chain[1];
      assert BlockedBy(st, chain[0], chain[0 + 1]);
      assert t !in Unblocked(st);
      forall i | 0 <= i < |chain[1..]| - 1 ensures BlockedBy(st, chain[1..][i], chain[1..][i + 1]) {
        assert BlockedBy(st, chain[i + 1], chain[i + 1 + 1]);
      }
      ChainUrgency(st, chain[1..]);
    }
  }

  // ---------------------------------------------------------------- preservation

  /** The fields the bounds depend on are the same, and nobody new is bound. */
  lemma BoundsFrame(st: State, st': State, ex: set<Tid>, ex': set<Tid>)
    requires Bounds(st.threads, st.semas, ex)
    requires |st'.threads| == |st.threads| && |st'.semas| == |st.semas|
    requires forall t | 0 <= t < |st.threads| ::
               && st'.threads[t].priority == st.threads[t].priority && st'.threads[t].intrinsic == st.threads[t].intrinsic
               && st'.threads[t].held == st.threads[t].held && st'.threads[t].waiting == st.threads[t].waiting
    requires forall s | 0 <= s < |st.semas| ::
               st'.semas[s].holder == st.semas[s].holder && st'.semas[s].maxPriority == st.semas[s].maxPriority
    requires forall t | 0 <= t < |st.threads| && t !in ex' && st.threads[t].waiting.Some? :: t !in ex
    ensures Bounds(st'.threads, st'.semas, ex')
  {
    assert Owned(st'.threads, st'.semas);
  }

  lemma DispatchUrgent(st: State)
    requires Shape(st) && st.cur == None && Urgent(st)
    ensures Urgent(Dispatch(st))
  {
    if st.ready != [] {
      var st', t := Dispatch(st), st.ready[Top(st.threads, st.ready)];
      assert Placed(st, t);
      assert Unblocked(st') == Unblocked(st);
      BoundsFrame(st, st', Unblocked(st), Unblocked(st'));
    }
  }

  lemma YieldUrgent(st: State, t: Tid)
    requires Shape(st) && OnCpu(st, t) && Urgent(st)
    ensures Urgent(Yield(st, t))
  {
    var st1 := Deschedule(st, t);
    DescheduleShape(st, t);
    BoundsFrame(st, st1, Unblocked(st), Unblocked(st1));
    DispatchUrgent(st1);
  }

  /** Blocking the running thread on s keeps the bounds exactly if s is at least as urgent. */
  lemma WaitUrgent(st: State, t: Tid, s: SemaId)
    requires Shape(st) && OnCpu(st, t) && s < |st.semas| && Urgent(st)
    requires st.threads[t].waiting == if st.semas[s].isLock then Some(s) else None
    ensures Urgent(Wait(st, t, s)) <==>
            (st.semas[s].isLock ==> st.threads[t].priority <= st.semas[s].maxPriority)
  {
    var st1 := Park(st, t, s);
    ParkShape(st, t, s);
    var st' := Dispatch(st1);
    assert Placed(st1, t);
    if st1.ready != [] {
      assert Placed(st1, st1.ready[Top(st1.threads, st1.ready)]);
    }
    assert st'.threads[t] == st1.threads[t];
    if st.semas[s].isLock && st.threads[t].priority > st.semas[s].maxPriority {
      assert t !in Unblocked(st');
      assert st'.threads[t].waiting == Some(s);
    } else {
      assert Bounds(st.threads, st.semas, Unblocked(st) - {t});
      BoundsFrame(st, st1, Unblocked(st) - {t}, Unblocked(st) - {t});
      assert Unblocked(st1) == Unblocked(st) - {t};
      DispatchUrgent(st1);
    }
  }

  /** Taking the lock over makes the new holder as urgent as the lock. */
  lemma GrabUrgent(st: State, t: Tid, l: SemaId)
    requires Shape(st) && OnCpu(st, t) && l < |st.semas| && st.semas[l].value > 0 && st.semas[l].isLock
    requires LockInv(st) && Urgent(st)
    ensures Urgent(Grab(st, t, l))
  {
    var st' := Grab(st, t, l);
    GrabFrame(st, t, l);
    GrabLocks(st, t, l);
    TakeShape(st, t, l);
    var st1 := Take(st, t, l);
    assert ThreadTyped(st1.threads[t], |st1.semas|);
    AdjustedAbove(st1.threads[t].(held := st1.threads[t].held + [l]), st1.semas);
    assert Unblocked(st') == Unblocked(st);
    NewHolder(st, st', t, l);
  }

  /** Thread t becomes the holder of l, at least as urgent as all its locks. */
  lemma NewHolder(st: State, st': State, t: Tid, l: SemaId)
    requires Urgent(st) && Owned(st'.threads, st'.semas) && Unblocked(st') == Unblocked(st) && t in Unblocked(st)
    requires |st'.threads| == |st.threads| && |st'.semas| == |st.semas| && t < |st.threads| && l < |st.semas|
    requires forall u | 0 <= u < |st.threads| && u != t :: st'.threads[u] == st.threads[u]
    requires forall s | 0 <= s < |st.semas| ::
               st'.semas[s].maxPriority == st.semas[s].maxPriority && (s != l ==> st'.semas[s].holder == st.semas[s].holder)
    requires st'.semas[l].holder == Some(t) && st'.threads[t].intrinsic == st.threads[t].intrinsic
    requires st'.threads[t].intrinsic <= st'.threads[t].priority
    requires forall s | s in st'.threads[t].held && s < |st.semas| :: st.semas[s].maxPriority <= st'.threads[t].priority
    ensures Urgent(st')
  {
    forall k | 0 <= k < |st'.semas| && st'.semas[k].holder == Some(t)
      ensures st'.semas[k].maxPriority <= st'.threads[t].priority
    {
      assert k in st'.threads[t].held;
    }
  }

  /** lock_acquire passes the caller's urgency on before it blocks. */
  lemma AcquireUrgent(st: State, t: Tid, l: SemaId)
    requires Inv(st) && AtCpu(st, t, Free) && l < |st.semas| && Urgent(st)
    requires st.semas[l].isLock && st.semas[l].holder != Some(t)
    ensures Urgent(LockAcquire(st, t, l))
  {
    var st1, ex := Await(st, t, l), Unblocked(st);
    AwaitUrgent(st, t, l);
    AwaitRest(st, t, l);
    assert st1.threads[t].priority <= st1.semas[l].maxPriority;
    assert Bounds(st1.threads, st1.semas, ex);
    if st1.semas[l].value > 0 {
      GrabUrgent(st1, t, l);
    } else {
      WaitUrgent(st1, t, l);
    }
  }

  lemma AwaitUrgent(st: State, t: Tid, l: SemaId)
    requires Shape(st) && OnCpu(st, t) && l < |st.semas| && Urgent(st)
    ensures var st' := Await(st, t, l);
            && Unblocked(st') == Unblocked(st) && InRange(st')
            && Bounds(st'.threads, st'.semas, Unblocked(st) - {t})
            && st'.threads[t].waiting == Some(l)
  {
    AwaitFrame(st, t, l);
    assert Unblocked(Await(st, t, l)) == Unblocked(st);
    AwaitBounds(st, t, l, Unblocked(st));
  }

  lemma AwaitBounds(st: State, t: Tid, l: SemaId, ex: set<Tid>)
    requires Shape(st) && OnCpu(st, t) && l < |st.semas| && Bounds(st.threads, st.semas, ex)
    ensures var st' := Await(st, t, l); Bounds(st'.threads, st'.semas, ex - {t})
  {
    var st1 := SetThread(st, t, st.threads[t].(waiting := Some(l)));
    assert ThreadTyped(st.threads[t], |st.semas|);
    UpdateShape(st, t, st1.threads[t]);
    NewWaiter(st, t, l, ex);
    DonateBounds(st1, t, ex);
  }

  lemma DonateBounds(st: State, t: Tid, ex: set<Tid>)
    requires Typed(st) && t < |st.threads| && Bounds(st.threads, st.semas, ex + {t})
    ensures var st' := Donate(st, t); Bounds(st'.threads, st'.semas, ex - {t})
  {
    TypedLinks(st);
    FlushRestoresBounds(st.threads, st.semas, t, Ceiling(st.threads, st.semas), ex);
  }

  lemma NewWaiter(st: State, t: Tid, l: SemaId, ex: set<Tid>)
    requires t < |st.threads| && Bounds(st.threads, st.semas, ex)
    ensures Bounds(st.threads[t := st.threads[t].(waiting := Some(l))], st.semas, ex + {t})
  {
    var ts := st.threads[t := st.threads[t].(waiting := Some(l))];
    assert Owned(ts, st.semas);
  }

  lemma DisownUrgent(st: State, t: Tid, l: SemaId)
    requires Shape(st) && OnCpu(st, t) && l < |st.semas| && st.semas[l].holder == Some(t) && st.threads[t].waiting == None
    requires LockInv(st) && Urgent(st)
    ensures Urgent(Disown(st, t, l))
  {
    var st' := Disown(st, t, l);
    DisownOwned(st, t, l);
    assert ThreadTyped(st.threads[t], |st.semas|);
    var held := Without(st.threads[t].held, l);
    WithoutIds(st.threads[t].held, l, |st.semas|);
    AdjustedAbove(st.threads[t].(held := held), st.semas);
    forall k | 0 <= k < |st'.semas| && st'.semas[k].holder.Some? && st'.semas[k].holder.value < |st'.threads|
      ensures st'.semas[k].maxPriority <= st'.threads[st'.semas[k].holder.value].priority
    {
      if st'.semas[k].holder.value == t {
        assert k in st'.threads[t].held;
      }
    }
    assert Unblocked(st') == Unblocked(st);
  }

  lemma WakeUrgent(st: State, s: SemaId)
    requires Typed(st) && s < |st.semas| && Urgent(st)
    ensures Urgent(Wake(st, s))
  {
    var st' := Wake(st, s);
    assert SemaTyped(st.semas[s], |st.threads|);
    WakeKeepsFields(st, s);
    assert Unblocked(st) <= Unblocked(st');
    BoundsFrame(st, st', Unblocked(st), Unblocked(st'));
  }

  lemma ReleaseUrgent(st: State, t: Tid, l: SemaId)
    requires Inv(st) && AtCpu(st, t, Free) && l < |st.semas| && st.semas[l].isLock && st.semas[l].holder == Some(t)
    requires Urgent(st)
    ensures Urgent(LockRelease(st, t, l))
  {
    var st0, st1 := Disown(st, t, l), GiveUp(st, t, l);
    DisownUrgent(st, t, l);
    DisownShape(st, t, l);
    WakeUrgent(st0, l);
    WakeKeepsCpu(st0, t, l);
    var st2 := SetThread(st1, t, st1.threads[t].(pc := InRelease(l)));
    assert ThreadTyped(st1.threads[t], |st1.semas|);
    UpdateShape(st1, t, st2.threads[t]);
    assert Unblocked(st2) == Unblocked(st1);
    BoundsFrame(st1, st2, Unblocked(st1), Unblocked(st2));
    YieldUrgent(st2, t);
  }

  /** flush_lock_priority sets a lock to the most urgent thread that is still blocked on it, which is
      no more than it was. */
  lemma RecomputeUrgent(st: State, l: SemaId)
    requires Inv(st) && l < |st.semas| && Urgent(st)
    ensures Urgent(Recompute(st, l))
  {
    var st', x := Recompute(st, l), st.semas[l];
    assert SemaTyped(x, |st.threads|);
    assert Owned(st'.threads, st'.semas);
    assert Unblocked(st') == Unblocked(st);
    forall u | 0 <= u < |st.threads| && u !in Unblocked(st) && st.threads[u].waiting == Some(l)
      ensures st.threads[u].priority <= st'.semas[l].maxPriority
    {
      assert Placed(st, u);
      assert u in x.waiters;
      var j :| 0 <= j < |x.waiters| && x.waiters[j] == u;
    }
    if x.holder.Some? {
      RecomputeLowers(st, l);
    }
  }

  lemma RecomputeLowers(st: State, l: SemaId)
    requires Inv(st) && l < |st.semas| && Urgent(st) && st.semas[l].holder.Some?
    ensures Recompute(st, l).semas[l].maxPriority <= st.threads[st.semas[l].holder.value].priority
  {
    var x := st.semas[l];
    assert SemaTyped(x, |st.threads|) && LockValue(x);
    if x.waiters != [] {
      var w := x.waiters[Top(st.threads, x.waiters)];
      assert w in x.waiters;
      assert Placed(st, w);
      assert st.threads[w].waiting == Some(l) && w !in Unblocked(st);
    }
  }

  lemma FinishUrgent(st: State, t: Tid, l: SemaId)
    requires Inv(st) && AtCpu(st, t, InRelease(l)) && l < |st.semas| && Urgent(st)
    ensures Urgent(FinishRelease(st, t, l))
  {
    var st1 := Recompute(st, l);
    RecomputeShape(st, l);
    RecomputeUrgent(st, l);
    SetOutUrgent(st1, t);
  }

  lemma SetOutUrgent(st: State, t: Tid)
    requires Shape(st) && OnCpu(st, t)
    ensures Urgent(SetOut(st, t)) <==> Urgent(st)
  {
    var st' := SetOut(st, t);
    assert Unblocked(st') == Unblocked(st);
    assert forall u | 0 <= u < |st.threads| :: st.threads[u].intrinsic == st'.threads[u].intrinsic;
    if Urgent(st) {
      BoundsFrame(st, st', Unblocked(st), Unblocked(st'));
    }
    if Urgent(st') {
      BoundsFrame(st', st, Unblocked(st'), Unblocked(st));
    }
  }

  lemma FinalYieldUrgent(st: State, t: Tid)
    requires Shape(st) && AtCpu(st, t, Yielding) && Urgent(st)
    ensures Urgent(FinalYield(st, t))
  {
    var st1 := SetThread(st, t, st.threads[t].(pc := Free));
    assert ThreadTyped(st.threads[t], |st.semas|);
    UpdateShape(st, t, st1.threads[t]);
    assert Unblocked(st1) == Unblocked(st);
    BoundsFrame(st, st1, Unblocked(st), Unblocked(st1));
    YieldUrgent(st1, t);
  }

  lemma TakeUrgent(st: State, t: Tid, s: SemaId)
    requires OnCpu(st, t) && s < |st.semas| && st.semas[s].value > 0 && Urgent(st)
    ensures Urgent(Take(st, t, s))
  {
    var st' := Take(st, t, s);
    assert Unblocked(st') == Unblocked(st);
    BoundsFrame(st, st', Unblocked(st), Unblocked(st'));
  }

  /** A retry that finds the lock taken again keeps the bounds exactly if the lock is still at least as
      urgent as the thread; every other retry keeps them. */
  lemma RetryUrgent(st: State, t: Tid, s: SemaId)
    requires Inv(st) && AtCpu(st, t, InDown(s)) && s < |st.semas| && Urgent(st)
    ensures Urgent(Retry(st, t, s)) <==>
            !(st.semas[s].isLock && st.semas[s].value == 0 && st.threads[t].priority > st.semas[s].maxPriority)
  {
    if st.semas[s].value == 0 {
      WaitUrgent(st, t, s);
    } else if st.semas[s].isLock {
      GrabUrgent(st, t, s);
    } else {
      TakeUrgent(st, t, s);
    }
  }

  /** thread_set_priority keeps the bounds exactly if the new priority is in range and, with locks
      held, is below the greatest donation or not above the current priority. */
  ghost predicate PriorityTakesEffect(st: State, t: Tid, p: int)
    requires Typed(st) && t < |st.threads|
  {
    assert ThreadTyped(st.threads[t], |st.semas|);
    var th := st.threads[t];
    PRI_MIN <= p && (th.held == [] || p < MaxDonation(st.semas, th.held) || p <= th.priority)
  }

  lemma SetPriorityUrgent(st: State, t: Tid, p: int)
    requires Inv(st) && AtCpu(st, t, Free) && Urgent(st)
    ensures Urgent(SetPriority(st, t, p)) <==> PriorityTakesEffect(st, t, p)
  {
    assert ThreadTyped(st.threads[t], |st.semas|);
    var th := Adjusted(st.threads[t].(intrinsic := p), st.semas);
    var st1 := SetThread(st, t, th);
    UpdateShape(st, t, th);
    assert Unblocked(st1) == Unblocked(st);
    SetOutUrgent(st1, t);
    if PriorityTakesEffect(st, t, p) {
      NewPriority(st, t, th);
    } else {
      assert st1.threads[t].intrinsic == p && st1.threads[t].priority == th.priority;
    }
  }

  lemma NewPriority(st: State, t: Tid, th: Thread)
    requires OnCpu(st, t) && Urgent(st) && LockInv(st) && WaitingInv(st, {}) && st.threads[t].pc == Free
    requires PRI_MIN <= th.intrinsic && Ids(st.threads[t].held, |st.semas|)
    requires th == Adjusted(st.threads[t].(intrinsic := th.intrinsic), st.semas)
    requires th.intrinsic <= th.priority
    requires st.threads[t].held == [] || th.intrinsic < MaxDonation(st.semas, st.threads[t].held) || th.priority == st.threads[t].priority
    ensures Urgent(SetThread(st, t, th))
  {
    var st' := SetThread(st, t, th);
    assert Unblocked(st') == Unblocked(st);
    forall k | 0 <= k < |st.semas| && st.semas[k].holder == Some(t)
      ensures st.semas[k].maxPriority <= th.priority
    {
      assert k in st.threads[t].held;
    }
    assert Owned(st'.threads, st'.semas);
  }

  lemma SpawnUrgent(st: State, t: Tid, p: int)
    requires Inv(st) && AtCpu(st, t, Free) && Urgent(st) && PRI_MIN <= p
    ensures Urgent(Spawn(st, t, p))
  {
    var st1, n := Spawned(st, p), |st.threads|;
    SpawnShape(st, t, p);
    forall s | 0 <= s < |st.semas| ensures st.semas[s].holder != Some(n) {
      assert SemaTyped(st.semas[s], n);
    }
    assert Unblocked(st1) == Unblocked(st) + {n};
    assert Owned(st1.threads, st1.semas);
    SetOutUrgent(st1, t);
  }

  lemma SleepUrgent(st: State, t: Tid, until: int)
    requires Inv(st) && AtCpu(st, t, Free) && Urgent(st)
    ensures Urgent(ThreadSleep(st, t, until))
  {
    var st1 := FallAsleep(st, t, until);
    FallAsleepShape(st, t, until);
    assert Unblocked(st1) == Unblocked(st) - {t};
    BoundsFrame(st, st1, Unblocked(st), Unblocked(st1));
    DispatchUrgent(st1);
  }

  lemma RouseUrgent(st: State)
    requires Shape(st) && Urgent(st) && st.sleeping != []
    ensures Urgent(RouseFirst(st))
  {
    var st1 := RouseFirst(st);
    assert Unblocked(st) <= Unblocked(st1);
    BoundsFrame(st, st1, Unblocked(st), Unblocked(st1));
  }

  lemma {:induction false} AlarmUrgent(st: State, st': State)
    requires Shape(st) && Urgent(st) && st' == Alarm(st)
    ensures Urgent(st')
    decreases |st.sleeping|
  {
    if FrontDue(st) {
      RouseShape(st);
      RouseUrgent(st);
      AlarmUrgent(RouseFirst(st), st');
    }
  }

  lemma TickUrgent(st: State, expired: bool)
    requires Shape(st) && Urgent(st)
    ensures Urgent(TimerInterrupt(st, expired))
  {
    TickedUrgent(st);
    PreemptUrgent(Ticked(st));
  }

  lemma TickedUrgent(st: State)
    requires Shape(st) && Urgent(st)
    ensures Urgent(Ticked(st))
  {
    var st1 := st.(ticks := st.ticks + 1);
    ClockShape(st, st.ticks + 1);
    ClockUrgent(st, st.ticks + 1);
    AlarmUrgent(st1, Ticked(st));
  }

  lemma ClockUrgent(st: State, now: int)
    requires Urgent(st)
    ensures Urgent(st.(ticks := now))
  {
    assert Unblocked(st.(ticks := now)) == Unblocked(st);
  }

  lemma PreemptUrgent(st: State)
    requires Shape(st) && Urgent(st)
    ensures Urgent(Preempt(st))
  {
    match st.cur
    case Some(t) =>
      assert Placed(st, t);
      YieldUrgent(st, t);
    case None => DispatchUrgent(st);
  }

  // ---------------------------------------------------------------- exactly when a step keeps the bounds

  /** The two steps that can break the bounds, and when they do not. */
  ghost predicate Harmless(st: State, step: Step)
    requires Shape(st) && Enabled(st, step)
  {
    match step
    case Act(Resume) =>
      var th := st.threads[st.cur.value];
      th.pc.InDown? ==>
        assert ThreadTyped(th, |st.semas|);
        var x := st.semas[th.pc.sema];
        x.isLock && x.value == 0 ==> th.priority <= x.maxPriority
    case Act(Priority(p)) => PriorityTakesEffect(st, st.cur.value, p)
    case _ => true
  }

  /** A step keeps the bounds if and only if it is harmless. */
  lemma StepUrgent(st: State, step: Step)
    requires Inv(st) && Enabled(st, step) && Urgent(st)
    ensures Urgent(Next(st, step)) <==> Harmless(st, step)
  {
    match step
    case Act(a) =>
      var t := st.cur.value;
      assert Placed(st, t);
      assert ThreadTyped(st.threads[t], |st.semas|);
      PerformUrgent(st, t, a);
    case Idle => DispatchUrgent(st);
    case UpFromInterrupt(s) => WakeUrgent(st, s);
    case Tick(expired) => TickUrgent(st, expired);
  }

  lemma PerformUrgent(st: State, t: Tid, a: Action)
    requires Inv(st) && OnCpu(st, t) && CanAct(st, t, a) && Urgent(st)
    ensures Enabled(st, Act(a)) && (Urgent(Perform(st, t, a)) <==> Harmless(st, Act(a)))
  {
    assert ThreadTyped(st.threads[t], |st.semas|);
    match a
    case Acquire(l) => AcquireUrgent(st, t, l);
    case TryAcquire(l) => if st.semas[l].value > 0 { GrabUrgent(st, t, l); }
    case Release(l) => ReleaseUrgent(st, t, l);
    case Down(s) => if st.semas[s].value > 0 { TakeUrgent(st, t, s); } else { WaitUrgent(st, t, s); }
    case TryDown(s) => if st.semas[s].value > 0 { TakeUrgent(st, t, s); }
    case Up(s) =>
      WakeUrgent(st, s);
      WakeKeepsCpu(st, t, s);
      SetOutUrgent(Wake(st, s), t);
    case Resume =>
      if st.threads[t].pc.InDown? {
        RetryUrgent(st, t, st.threads[t].pc.sema);
      } else if st.threads[t].pc.InRelease? {
        FinishUrgent(st, t, st.threads[t].pc.lck);
      } else {
        FinalYieldUrgent(st, t);
      }
    case GiveWay => YieldUrgent(st, t);
    case Sleep(until) => SleepUrgent(st, t, until);
    case Priority(p) => SetPriorityUrgent(st, t, p);
    case Create(p) => SpawnUrgent(st, t, p);
  }

  ghost predicate HarmlessAt(states: seq<State>, steps: seq<Step>, i: nat)
    requires |states| == |steps| + 1 && i < |steps|
  {
    StepAt(states, steps, i) && Harmless(states[i], steps[i])
  }

  /** Along every run whose steps are harmless, the bounds hold in every state. */
  lemma {:induction false} RunUrgent(states: seq<State>, steps: seq<Step>, i: nat)
    requires IsKernelRun(states, steps) && i < |states|
    requires forall j | 0 <= j < |steps| :: HarmlessAt(states, steps, j)
    ensures Urgent(states[i])
  {
    if i == 0 {
      InitialUrgent(states[0]);
    } else {
      RunUrgent(states, steps, i - 1);
      RunInv(states, steps, i - 1);
      assert HarmlessAt(states, steps, i - 1);
      RunStepUrgent(states, steps, i - 1);
    }
  }

  lemma InitialUrgent(st: State)
    requires Initial(st)
    ensures Urgent(st)
  {
    InitialInv(st);
  }

  lemma RunStepUrgent(states: seq<State>, steps: seq<Step>, i: nat)
    requires |states| == |steps| + 1 && i < |steps| && HarmlessAt(states, steps, i)
    requires Inv(states[i]) && Urgent(states[i])
    ensures Urgent(states[i + 1])
  {
    StepUrgent(states[i], steps[i]);
  }
}
