/** Runs of the kernel and the invariants of every reachable state. */
module KernelRuns {
  import opened Common
  import opened Ordering
  import opened KernelState
  import opened KernelDonation
  import opened KernelSteps
  import opened KernelShape
  import opened KernelOps
  import opened KernelSync

  /** What the running thread may do next. */
  datatype Action =
    | Acquire(l: SemaId)
    | TryAcquire(l: SemaId)
    | Release(l: SemaId)
    | Down(s: SemaId)
    | TryDown(s: SemaId)
    | Up(s: SemaId)
    | Resume
    | GiveWay
    | Sleep(until: int)
    | Priority(p: int)
    | Create(p: int)

  /** Besides what the running thread does: the idle thread's own call of schedule, an up by an
      interrupt handler, and the timer interrupt. */
  datatype Step = Act(a: Action) | Idle | UpFromInterrupt(s: SemaId) | Tick(expired: bool)

  /** Interrupts are on: the CPU is idle, or the running thread is outside the synchronization code or
      about to yield at the end of it. */
  predicate Interruptible(st: State) {
    st.cur == None
    || (st.cur.value < |st.threads| && (st.threads[st.cur.value].pc == Free || st.threads[st.cur.value].pc == Yielding))
  }

  /** What the code asserts about its callers, and where control can be. */
  predicate CanAct(st: State, t: Tid, a: Action)
    requires t < |st.threads|
  {
    var n, pc := |st.semas|, st.threads[t].pc;
    match a
    case Acquire(l) => pc == Free && l < n && st.semas[l].isLock && st.semas[l].holder != Some(t)
    case TryAcquire(l) => pc == Free && l < n && st.semas[l].isLock && st.semas[l].holder != Some(t)
    case Release(l) => pc == Free && l < n && st.semas[l].isLock && st.semas[l].holder == Some(t)
    case Down(s) => pc == Free && s < n && !st.semas[s].isLock
    case TryDown(s) => pc == Free && s < n && !st.semas[s].isLock
    case Up(s) => pc == Free && s < n && !st.semas[s].isLock
    case Resume => pc.InDown? || pc.InRelease? || pc == Yielding
    case GiveWay => pc == Free
    case Sleep(_) => pc == Free
    case Priority(_) => pc == Free
    case Create(p) => pc == Free && PRI_MIN <= p <= PRI_MAX
  }

  predicate Enabled(st: State, step: Step) {
    match step
    case Act(a) => st.cur.Some? && st.cur.value < |st.threads| && CanAct(st, st.cur.value, a)
    case Idle => st.cur == None
    case UpFromInterrupt(s) => Interruptible(st) && s < |st.semas| && !st.semas[s].isLock
    case Tick(_) => Interruptible(st)
  }

  function Perform(st: State, t: Tid, a: Action): (st': State)
    requires Shape(st) && OnCpu(st, t) && CanAct(st, t, a)
    ensures Shape(st')
  {
    assert ThreadTyped(st.threads[t], |st.semas|);
    match a
    case Acquire(l) => LockAcquire(st, t, l)
    case TryAcquire(l) => LockTryAcquire(st, t, l)
    case Release(l) => LockRelease(st, t, l)
    case Down(s) => SemaDown(st, t, s)
    case TryDown(s) => SemaTryDown(st, t, s)
    case Up(s) => SemaUp(st, t, s)
    case Resume =>
      if st.threads[t].pc.InDown? then Retry(st, t, st.threads[t].pc.sema)
      else if st.threads[t].pc.InRelease? then FinishRelease(st, t, st.threads[t].pc.lck)
      else FinalYield(st, t)
    case GiveWay => Yield(st, t)
    case Sleep(until) => ThreadSleep(st, t, until)
    case Priority(p) => SetPriority(st, t, p)
    case Create(p) => Spawn(st, t, p)
  }

  function Next(st: State, step: Step): (st': State)
    requires Shape(st) && Enabled(st, step)
    ensures Shape(st')
  {
    match step
    case Act(a) =>
      assert Placed(st, st.cur.value);
      Perform(st, st.cur.value, a)
    case Idle => DispatchShape(st); Dispatch(st)
    case UpFromInterrupt(s) => WakeShape(st, s); Wake(st, s)
    case Tick(expired) => TimerInterrupt(st, expired)
  }

  /** Sleepers are kept in order of wakeup time. */
  ghost predicate SleepInv(st: State) {
    forall i, j | 0 <= i < j < |st.sleeping| ::
      st.sleeping[i] < |st.threads| && st.sleeping[j] < |st.threads| ==>
      st.threads[st.sleeping[i]].wakeup <= st.threads[st.sleeping[j]].wakeup
  }

  ghost predicate Inv(st: State) {
    Shape(st) && SemaInv(st) && LockInv(st) && WaitingInv(st, {}) && SleepInv(st)
  }

  /** A booted kernel: one thread runs, nobody waits, no lock is held. */
  ghost predicate Initial(st: State) {
    && |st.threads| == 1 && st.cur == Some(0) && st.ready == [] && st.sleeping == []
    && st.threads[0].status == Running && st.threads[0].pc == Free
    && st.threads[0].waiting == None && st.threads[0].held == []
    && st.threads[0].priority == st.threads[0].intrinsic == PRI_DEFAULT
    && forall s | 0 <= s < |st.semas| :: Fresh(st.semas[s])
  }

  /** sema_init and lock_init. */
  ghost predicate Fresh(x: Sema) {
    && x.waiters == [] && x.holder == None && x.maxPriority == PRI_MIN
    && x.downs == 0 && x.ups == 0 && x.value == x.initial
    && (x.isLock ==> x.value == 1)
  }

  lemma InitialInv(st: State)
    requires Initial(st)
    ensures Inv(st)
  {
    forall s | 0 <= s < |st.semas|
      ensures SemaTyped(st.semas[s], 1) && Served(st, s) && LockValue(st.semas[s]) && NoDup(st.semas[s].waiters)
    {
      assert Fresh(st.semas[s]);
    }
    assert Placed(st, 0);
    assert forall s | 0 <= s < |st.semas| :: Fresh(st.semas[s]);
  }

  // ---------------------------------------------------------------- pieces that touch no semaphore

  /** Everything but the shape survives a move of one thread between CPU and ready list, and other
      changes that no semaphore, lock or sleeper notices. */
  ghost predicate Quiet(st: State, st': State) {
    && SameSync(st, st') && SameLocks(st, st')
    && st'.sleeping == st.sleeping
    && (forall t | 0 <= t < |st.threads| ::
          && st'.threads[t].waiting == st.threads[t].waiting && st'.threads[t].wakeup == st.threads[t].wakeup
          && Awaited(st', st'.threads[t].pc) == Awaited(st, st.threads[t].pc))
  }

  ghost predicate Rest(st: State, except: set<Tid>) {
    SemaInv(st) && LockInv(st) && WaitingInv(st, except) && SleepInv(st)
  }

  lemma QuietRest(st: State, st': State, except: set<Tid>)
    requires Rest(st, except) && Quiet(st, st')
    ensures Rest(st', except)
  {
    SameSyncInv(st, st');
    SameLocksInv(st, st');
  }

  lemma DispatchQuiet(st: State)
    requires Shape(st) && st.cur == None
    ensures Quiet(st, Dispatch(st))
  {
    if st.ready != [] {
      assert Placed(st, st.ready[Top(st.threads, st.ready)]);
    }
  }

  lemma DescheduleQuiet(st: State, t: Tid)
    requires OnCpu(st, t)
    ensures Quiet(st, Deschedule(st, t))
  {
  }

  lemma YieldRest(st: State, t: Tid)
    requires Shape(st) && OnCpu(st, t) && Rest(st, {})
    ensures Inv(Yield(st, t))
  {
    DescheduleShape(st, t);
    DescheduleQuiet(st, t);
    QuietRest(st, Deschedule(st, t), {});
    DispatchQuiet(Deschedule(st, t));
    QuietRest(Deschedule(st, t), Dispatch(Deschedule(st, t)), {});
  }

  // ---------------------------------------------------------------- preservation, operation by operation

  lemma WaitRest(st: State, t: Tid, s: SemaId)
    requires Shape(st) && OnCpu(st, t) && s < |st.semas| && st.semas[s].value == 0
    requires st.threads[t].pc == Free || st.threads[t].pc == InDown(s)
    requires Rest(st, {t}) && st.threads[t].waiting == Awaited(st, InDown(s))
    ensures Inv(Wait(st, t, s))
  {
    var st1 := Park(st, t, s);
    ParkShape(st, t, s);
    ParkSync(st, t, s);
    SameLocksInv(st, st1);
    assert Rest(st1, {});
    DispatchQuiet(st1);
    QuietRest(st1, Dispatch(st1), {});
  }

  lemma TakeRest(st: State, t: Tid, s: SemaId)
    requires Shape(st) && OnCpu(st, t) && s < |st.semas| && st.semas[s].value > 0 && !st.semas[s].isLock
    requires st.threads[t].pc == Free || st.threads[t].pc == InDown(s)
    requires Rest(st, {})
    ensures Inv(Take(st, t, s))
  {
    TakeShape(st, t, s);
    TakeSync(st, t, s);
    TakeRawLocks(st, t, s);
  }

  lemma GrabRest(st: State, t: Tid, l: SemaId)
    requires Shape(st) && OnCpu(st, t) && l < |st.semas| && st.semas[l].value > 0 && st.semas[l].isLock
    requires st.threads[t].pc == Free || st.threads[t].pc == InDown(l)
    requires Rest(st, {t})
    ensures Inv(Grab(st, t, l))
  {
    GrabFrame(st, t, l);
    GrabSync(st, t, l);
    GrabLocks(st, t, l);
  }

  lemma AwaitRest(st: State, t: Tid, l: SemaId)
    requires Shape(st) && OnCpu(st, t) && l < |st.semas| && Rest(st, {})
    ensures var st' := Await(st, t, l);
            && Rest(st', {t}) && st'.threads[t].waiting == Some(l) && st'.threads[t].pc == st.threads[t].pc
            && st'.semas[l].isLock == st.semas[l].isLock
  {
    var st' := Await(st, t, l);
    AwaitFrame(st, t, l);
    SameSyncInv(st, st');
    SameLocksInv(st, st');
  }

  /** Setting waiting_lock and donating changes one waiting_lock field and priorities, nothing else. */
  lemma AwaitFrame(st: State, t: Tid, l: SemaId)
    requires Shape(st) && OnCpu(st, t) && l < |st.semas|
    ensures var st' := Await(st, t, l);
            && st' == st.(threads := st'.threads, semas := st'.semas)
            && |st'.threads| == |st.threads| && |st'.semas| == |st.semas|
            && (forall u | 0 <= u < |st.threads| && u != t :: st'.threads[u] == st.threads[u].(priority := st'.threads[u].priority))
            && st'.threads[t] == st.threads[t].(waiting := Some(l), priority := st'.threads[t].priority)
            && (forall s | 0 <= s < |st.semas| :: st'.semas[s] == st.semas[s].(maxPriority := st'.semas[s].maxPriority))
  {
    var st1 := SetThread(st, t, st.threads[t].(waiting := Some(l)));
    assert ThreadTyped(st.threads[t], |st.semas|);
    UpdateShape(st, t, st1.threads[t]);
    DonateFrame(st1, t);
  }

  lemma AcquireInv(st: State, t: Tid, l: SemaId)
    requires Inv(st) && AtCpu(st, t, Free) && l < |st.semas|
    requires st.semas[l].isLock && st.semas[l].holder != Some(t)
    ensures Inv(LockAcquire(st, t, l))
  {
    var st1 := Await(st, t, l);
    AwaitRest(st, t, l);
    if st1.semas[l].value > 0 {
      GrabRest(st1, t, l);
    } else {
      WaitRest(st1, t, l);
    }
  }

  lemma RetryInv(st: State, t: Tid, s: SemaId)
    requires Inv(st) && AtCpu(st, t, InDown(s)) && s < |st.semas|
    ensures Inv(Retry(st, t, s))
  {
    if st.semas[s].value == 0 {
      WaitRest(st, t, s);
    } else if st.semas[s].isLock {
      GrabRest(st, t, s);
    } else {
      TakeRest(st, t, s);
    }
  }

  lemma GiveUpRest(st: State, t: Tid, l: SemaId)
    requires Inv(st) && AtCpu(st, t, Free) && l < |st.semas| && st.semas[l].isLock && st.semas[l].holder == Some(t)
    ensures var st' := GiveUp(st, t, l); Rest(st', {}) && AtCpu(st', t, Free)
  {
    GiveUpFields(st, t, l);
    GiveUpSync(st, t, l);
    GiveUpLocks(st, t, l);
  }

  lemma GiveUpFields(st: State, t: Tid, l: SemaId)
    requires Inv(st) && AtCpu(st, t, Free) && l < |st.semas| && st.semas[l].isLock && st.semas[l].holder == Some(t)
    ensures var st' := GiveUp(st, t, l); WaitingInv(st', {}) && SleepInv(st') && AtCpu(st', t, Free)
  {
    var st1 := Disown(st, t, l);
    DisownShape(st, t, l);
    WakeKeepsCpu(st1, t, l);
    WakeKeepsFields(st1, l);
  }

  /** Waking a thread changes no waiting_lock, no code position and no sleeper. */
  lemma WakeKeepsFields(st: State, s: SemaId)
    requires Typed(st) && s < |st.semas|
    ensures var st' := Wake(st, s);
            && |st'.threads| == |st.threads| && |st'.semas| == |st.semas| && st'.sleeping == st.sleeping
            && (forall u | 0 <= u < |st.threads| ::
                  && st'.threads[u].waiting == st.threads[u].waiting && st'.threads[u].pc == st.threads[u].pc
                  && st'.threads[u].wakeup == st.threads[u].wakeup && st'.threads[u].priority == st.threads[u].priority
                  && st'.threads[u].intrinsic == st.threads[u].intrinsic && st'.threads[u].held == st.threads[u].held)
            && (forall r | 0 <= r < |st.semas| ::
                  && st'.semas[r].isLock == st.semas[r].isLock && st'.semas[r].holder == st.semas[r].holder
                  && st'.semas[r].maxPriority == st.semas[r].maxPriority)
  {
    assert SemaTyped(st.semas[s], |st.threads|);
  }

  lemma ReleaseInv(st: State, t: Tid, l: SemaId)
    requires Inv(st) && AtCpu(st, t, Free) && l < |st.semas| && st.semas[l].isLock && st.semas[l].holder == Some(t)
    ensures Inv(LockRelease(st, t, l))
  {
    var st1 := GiveUp(st, t, l);
    GiveUpRest(st, t, l);
    var st2 := SetThread(st1, t, st1.threads[t].(pc := InRelease(l)));
    assert ThreadTyped(st1.threads[t], |st1.semas|);
    UpdateShape(st1, t, st2.threads[t]);
    QuietRest(st1, st2, {});
    YieldRest(st2, t);
  }

  lemma FinishInv(st: State, t: Tid, l: SemaId)
    requires Inv(st) && AtCpu(st, t, InRelease(l)) && l < |st.semas|
    ensures Inv(FinishRelease(st, t, l))
  {
    RecomputeShape(st, l);
    QuietRest(st, FinishRelease(st, t, l), {});
  }

  lemma SetOutRest(st: State, t: Tid)
    requires Shape(st) && AtCpu(st, t, Free) && Rest(st, {})
    ensures Inv(SetOut(st, t))
  {
    QuietRest(st, SetOut(st, t), {});
  }

  lemma FinalYieldInv(st: State, t: Tid)
    requires Inv(st) && AtCpu(st, t, Yielding)
    ensures Inv(FinalYield(st, t))
  {
    var st1 := SetThread(st, t, st.threads[t].(pc := Free));
    assert ThreadTyped(st.threads[t], |st.semas|);
    UpdateShape(st, t, st1.threads[t]);
    QuietRest(st, st1, {});
    YieldRest(st1, t);
  }

  lemma UpRest(st: State, s: SemaId)
    requires Inv(st) && s < |st.semas| && !st.semas[s].isLock
    ensures Inv(Wake(st, s)) && |Wake(st, s).semas| == |st.semas| && Wake(st, s).semas[s].value == st.semas[s].value + 1
  {
    WakeShape(st, s);
    WakeSync(st, s);
    WakeRawLocks(st, s);
    WakeKeepsFields(st, s);
  }

  lemma UpInv(st: State, t: Tid, s: SemaId)
    requires Inv(st) && AtCpu(st, t, Free) && s < |st.semas| && !st.semas[s].isLock
    ensures Inv(SemaUp(st, t, s)) && |SemaUp(st, t, s).semas| == |st.semas| && SemaUp(st, t, s).semas[s].value == st.semas[s].value + 1
  {
    UpRest(st, s);
    WakeKeepsCpu(st, t, s);
    SetOutRest(Wake(st, s), t);
  }

  lemma SetPriorityInv(st: State, t: Tid, p: int)
    requires Inv(st) && AtCpu(st, t, Free)
    ensures Inv(SetPriority(st, t, p))
  {
    assert ThreadTyped(st.threads[t], |st.semas|);
    var st1 := SetThread(st, t, Adjusted(st.threads[t].(intrinsic := p), st.semas));
    UpdateShape(st, t, st1.threads[t]);
    QuietRest(st, st1, {});
    SetOutRest(st1, t);
  }

  lemma SpawnInv(st: State, t: Tid, p: int)
    requires Inv(st) && AtCpu(st, t, Free)
    ensures Inv(Spawn(st, t, p))
  {
    var st1 := Spawned(st, p);
    SpawnShape(st, t, p);
    SameSyncInv(st, st1);
    assert LockInv(st1) by {
      forall s | 0 <= s < |st.semas| ensures LockValue(st1.semas[s]) && st.semas[s].holder != Some(|st.threads|) {
        assert LockValue(st.semas[s]) && SemaTyped(st.semas[s], |st.threads|);
      }
    }
    SetOutRest(st1, t);
  }

  // ---------------------------------------------------------------- sleeping

  /** SleepInv says the list is sorted in the order ordered insertion uses. */
  lemma SleepSorted(ts: seq<Thread>, q: seq<Tid>)
    requires Ids(q, |ts|)
    ensures Sorted(ByWakeup(ts), q) <==> forall i, j | 0 <= i < j < |q| :: ts[q[i]].wakeup <= ts[q[j]].wakeup
  {
    var less := ByWakeup(ts);
    if Sorted(less, q) {
      forall i, j | 0 <= i < j < |q| ensures ts[q[i]].wakeup <= ts[q[j]].wakeup {
        assert !less(q[j], q[i]);
      }
    }
  }

  lemma ThreadSleepInv(st: State, t: Tid, until: int)
    requires Inv(st) && AtCpu(st, t, Free)
    ensures Inv(ThreadSleep(st, t, until))
  {
    var st1 := FallAsleep(st, t, until);
    FallAsleepShape(st, t, until);
    SameSyncInv(st, st1);
    SameLocksInv(st, st1);
    FallAsleepSorted(st, t, until);
    DispatchQuiet(st1);
    QuietRest(st1, Dispatch(st1), {});
  }

  lemma FallAsleepSorted(st: State, t: Tid, until: int)
    requires Shape(st) && OnCpu(st, t) && SleepInv(st)
    ensures SleepInv(FallAsleep(st, t, until))
  {
    var st1 := FallAsleep(st, t, until);
    assert Placed(st, t);
    FallAsleepShape(st, t, until);
    forall k | 0 <= k < |st.sleeping| ensures st1.threads[st.sleeping[k]].wakeup == st.threads[st.sleeping[k]].wakeup {
      assert st.sleeping[k] in st.sleeping;
    }
    SleepSorted(st1.threads, st.sleeping);
    var dom: set<Tid> := (set u: Tid | u in st.sleeping) + {t};
    InsertOrderedCorrect(ByWakeup(st1.threads), t, st.sleeping, dom);
    SleepSorted(st1.threads, st1.sleeping);
  }

  lemma RouseInv(st: State)
    requires Inv(st) && st.sleeping != []
    ensures Inv(RouseFirst(st))
  {
    var st1 := RouseFirst(st);
    RouseShape(st);
    assert Placed(st, st.sleeping[0]);
    SameSyncInv(st, st1);
    SameLocksInv(st, st1);
    assert forall k | 0 <= k < |st1.sleeping| :: st1.sleeping[k] == st.sleeping[k + 1];
  }

  lemma {:induction false} AlarmInv(st: State)
    requires Inv(st)
    ensures Inv(Alarm(st))
    decreases |st.sleeping|
  {
    if FrontDue(st) {
      RouseInv(st);
      AlarmInv(RouseFirst(st));
    }
  }

  lemma TickInv(st: State, expired: bool)
    requires Inv(st)
    ensures Inv(TimerInterrupt(st, expired))
  {
    TickedInv(st);
    PreemptInv(Ticked(st));
  }

  lemma TickedInv(st: State)
    requires Inv(st)
    ensures Inv(Ticked(st))
  {
    var st1 := st.(ticks := st.ticks + 1);
    ClockShape(st, st.ticks + 1);
    QuietRest(st, st1, {});
    AlarmInv(st1);
  }

  lemma PreemptInv(st: State)
    requires Inv(st)
    ensures Inv(Preempt(st))
  {
    match st.cur
    case Some(t) =>
      assert Placed(st, t);
      YieldRest(st, t);
    case None =>
      DispatchQuiet(st);
      QuietRest(st, Dispatch(st), {});
  }

  // ---------------------------------------------------------------- runs

  lemma PerformInv(st: State, t: Tid, a: Action)
    requires Inv(st) && OnCpu(st, t) && CanAct(st, t, a)
    ensures Inv(Perform(st, t, a))
  {
    assert ThreadTyped(st.threads[t], |st.semas|);
    match a
    case Acquire(l) => AcquireInv(st, t, l);
    case TryAcquire(l) => if st.semas[l].value > 0 { GrabRest(st, t, l); }
    case Release(l) => ReleaseInv(st, t, l);
    case Down(s) => if st.semas[s].value > 0 { TakeRest(st, t, s); } else { WaitRest(st, t, s); }
    case TryDown(s) => if st.semas[s].value > 0 { TakeRest(st, t, s); }
    case Up(s) => UpInv(st, t, s);
    case Resume =>
      if st.threads[t].pc.InDown? {
        RetryInv(st, t, st.threads[t].pc.sema);
      } else if st.threads[t].pc.InRelease? {
        FinishInv(st, t, st.threads[t].pc.lck);
      } else {
        FinalYieldInv(st, t);
      }
    case GiveWay => YieldRest(st, t);
    case Sleep(until) => ThreadSleepInv(st, t, until);
    case Priority(p) => SetPriorityInv(st, t, p);
    case Create(p) => SpawnInv(st, t, p);
  }

  /** Every step of every thread keeps the kernel invariant. */
  lemma StepInv(st: State, step: Step)
    requires Inv(st) && Enabled(st, step)
    ensures Inv(Next(st, step))
  {
    match step
    case Act(a) =>
      assert Placed(st, st.cur.value);
      PerformInv(st, st.cur.value, a);
    case Idle =>
      DispatchQuiet(st);
      QuietRest(st, Dispatch(st), {});
    case UpFromInterrupt(s) => UpRest(st, s);
    case Tick(expired) => TickInv(st, expired);
  }

  /** Each state follows from the one before by the step at that place. */
  ghost predicate Follows(states: seq<State>, steps: seq<Step>) {
    |states| == |steps| + 1 && forall i | 0 <= i < |steps| :: StepAt(states, steps, i)
  }

  ghost predicate StepAt(states: seq<State>, steps: seq<Step>, i: nat)
    requires |states| == |steps| + 1 && i < |steps|
  {
    Shape(states[i]) && Enabled(states[i], steps[i]) && states[i + 1] == Next(states[i], steps[i])
  }

  /** `states` is what the kernel goes through when it takes `steps` from boot. */
  ghost predicate IsKernelRun(states: seq<State>, steps: seq<Step>) {
    Follows(states, steps) && Initial(states[0])
  }

  lemma SingleStep(st: State, step: Step, st': State)
    requires Shape(st) && Enabled(st, step) && Next(st, step) == st'
    ensures Follows([st, st'], [step]) && Shape(st')
  {
    assert StepAt([st, st'], [step], 0);
  }

  /** Two stretches of a run put together. */
  lemma Join(a: seq<State>, steps: seq<Step>, b: seq<State>, more: seq<Step>) returns (states: seq<State>)
    requires Follows(a, steps) && Follows(b, more) && a[|steps|] == b[0]
    ensures Follows(states, steps + more) && states[0] == a[0] && states[|steps| + |more|] == b[|more|]
  {
    states := a + b[1..];
    var all := steps + more;
    forall i | 0 <= i < |all| ensures StepAt(states, all, i) {
      if i < |steps| {
        assert StepAt(a, steps, i);
      } else {
        assert StepAt(b, more, i - |steps|);
        assert states[i] == b[i - |steps|] && states[i + 1] == b[i - |steps| + 1];
      }
    }
  }

  /** In every state of every run, whatever the interleaving, the kernel invariant holds. */
  lemma {:induction false} RunInv(states: seq<State>, steps: seq<Step>, i: nat)
    requires IsKernelRun(states, steps) && i < |states|
    ensures Inv(states[i])
  {
    if i == 0 {
      InitialInv(states[0]);
    } else {
      RunInv(states, steps, i - 1);
      assert StepAt(states, steps, i - 1);
      StepInv(states[i - 1], steps[i - 1]);
    }
  }
}
