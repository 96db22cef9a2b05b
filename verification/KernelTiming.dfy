/** When threads run again: sleepers never early and never late, ready threads after bounded waiting. */
module KernelTiming {
  import opened Common
  import opened Ordering
  import opened KernelState
  import opened KernelDonation
  import opened KernelSteps
  import opened KernelShape
  import opened KernelOps
  import opened KernelSync
  import opened KernelRuns

  // ---------------------------------------------------------------- the alarm

  /** What thread_alarm does: it moves a prefix of the sleep list to the end of the ready list, in
      order; everyone in the prefix is due and nobody after it is. */
  ghost predicate Rouses(st: State, st': State, k: nat) {
    && k <= |st.sleeping| && Ids(st.sleeping, |st.threads|)
    && st'.ticks == st.ticks && |st'.threads| == |st.threads|
    && st'.ready == st.ready + st.sleeping[..k]
    && st'.sleeping == st.sleeping[k..]
    && (forall j | 0 <= j < k :: st.threads[st.sleeping[j]].wakeup <= st.ticks)
    && (forall j | k <= j < |st.sleeping| :: st.threads[st.sleeping[j]].wakeup > st.ticks)
    && (forall t | 0 <= t < |st.threads| :: st'.threads[t].wakeup == st.threads[t].wakeup)
  }

  lemma {:induction false} AlarmRouses(st: State, st': State) returns (k: nat)
    requires Inv(st) && st' == Alarm(st)
    ensures Rouses(st, st', k)
    decreases |st.sleeping|
  {
    if FrontDue(st) {
      RouseInv(st);
      var st1 := RouseFirst(st);
      var j := AlarmRouses(st1, st');
      k := j + 1;
      RousesMore(st, st1, st', j);
    } else {
      k := 0;
      assert st.sleeping[0..] == st.sleeping;
    }
  }

  lemma RousesMore(st: State, st1: State, st': State, j: nat)
    requires Typed(st) && FrontDue(st) && st1 == RouseFirst(st) && Rouses(st1, st', j)
    ensures Rouses(st, st', j + 1)
  {
    assert st.sleeping[..j + 1] == [st.sleeping[0]] + st1.sleeping[..j];
    assert st.sleeping[j + 1..] == st1.sleeping[j..];
    assert forall i | 1 <= i < |st.sleeping| :: st.sleeping[i] == st1.sleeping[i - 1];
  }

  /** The alarm of a timer interrupt, on the advanced clock. */
  lemma TickedRouses(st: State) returns (st1: State, st2: State, k: nat)
    requires Inv(st)
    ensures st1 == st.(ticks := st.ticks + 1) && st2 == Ticked(st) && Shape(st2) && Rouses(st1, st2, k)
  {
    st1 := st.(ticks := st.ticks + 1);
    st2 := Ticked(st);
    ClockShape(st, st.ticks + 1);
    QuietRest(st, st1, {});
    k := AlarmRouses(st1, st2);
  }

  lemma TimerSleepers(st: State, expired: bool, st2: State)
    requires Shape(st) && st2 == Ticked(st)
    ensures var st' := TimerInterrupt(st, expired);
            LetsSleep(st2, st')
  {
    PreemptSleepers(st2);
  }

  /** After every timer interrupt nobody whose time has come is still asleep. */
  lemma NoneOverslept(st: State, expired: bool, t: Tid, st': State)
    requires Inv(st) && st' == TimerInterrupt(st, expired) && t in st'.sleeping
    ensures t < |st'.threads| && st'.threads[t].wakeup > st'.ticks
  {
    var st1, st2, k := TickedRouses(st);
    TimerSleepers(st, expired, st2);
    var j :| 0 <= j < |st2.sleeping| && st2.sleeping[j] == t;
    assert st2.sleeping[j] == st1.sleeping[k + j];
  }

  // ---------------------------------------------------------------- sleepers are left alone

  /** The clock stands still, and the sleepers keep their wakeup times. */
  ghost predicate SameTimes(st: State, st': State) {
    && st'.ticks == st.ticks && |st.threads| <= |st'.threads|
    && (forall t | t in st.sleeping && t < |st.threads| :: st'.threads[t].wakeup == st.threads[t].wakeup)
  }

  /** The sleep list is left alone. */
  ghost predicate LetsSleep(st: State, st': State) {
    SameTimes(st, st') && st'.sleeping == st.sleeping
  }

  /** Thread t joins the sleepers, behind everyone who is to wake no later. */
  ghost predicate NewSleeper(st: State, st': State, t: Tid, until: int) {
    && SameTimes(st, st') && t < |st'.threads| && st'.threads[t].wakeup == until && t !in st.sleeping
    && exists p: nat :: InsertedAt(st, st', t, until, p)
  }

  ghost predicate InsertedAt(st: State, st': State, t: Tid, until: int, p: nat) {
    && p <= |st.sleeping| && st'.sleeping == st.sleeping[..p] + [t] + st.sleeping[p..]
    && forall k | p <= k < |st.sleeping| :: st.sleeping[k] < |st.threads| && st.threads[st.sleeping[k]].wakeup > until
  }

  lemma DispatchSleepers(st: State)
    requires Typed(st) && st.cur == None
    ensures LetsSleep(st, Dispatch(st))
  {
  }

  lemma YieldSleepers(st: State, t: Tid)
    requires Shape(st) && OnCpu(st, t)
    ensures LetsSleep(st, Yield(st, t))
  {
    DescheduleShape(st, t);
    DispatchSleepers(Deschedule(st, t));
  }

  lemma PreemptSleepers(st: State)
    requires Shape(st)
    ensures LetsSleep(st, Preempt(st))
  {
    match st.cur
    case Some(t) =>
      assert Placed(st, t);
      YieldSleepers(st, t);
    case None => DispatchSleepers(st);
  }

  lemma WaitSleepers(st: State, t: Tid, s: SemaId)
    requires Shape(st) && OnCpu(st, t) && s < |st.semas|
    ensures LetsSleep(st, Wait(st, t, s))
  {
    ParkShape(st, t, s);
    DispatchSleepers(Park(st, t, s));
  }

  lemma GrabSleepers(st: State, t: Tid, l: SemaId)
    requires Shape(st) && OnCpu(st, t) && l < |st.semas| && st.semas[l].value > 0
    ensures LetsSleep(st, Grab(st, t, l))
  {
    GrabFrame(st, t, l);
  }

  lemma AcquireSleepers(st: State, t: Tid, l: SemaId)
    requires Shape(st) && AtCpu(st, t, Free) && l < |st.semas| && st.semas[l].isLock && st.semas[l].holder != Some(t)
    ensures LetsSleep(st, LockAcquire(st, t, l))
  {
    AwaitFrame(st, t, l);
    var st1 := Await(st, t, l);
    if st1.semas[l].value > 0 {
      GrabSleepers(st1, t, l);
    } else {
      WaitSleepers(st1, t, l);
    }
  }

  lemma ReleaseSleepers(st: State, t: Tid, l: SemaId)
    requires Shape(st) && AtCpu(st, t, Free) && l < |st.semas| && st.semas[l].isLock && st.semas[l].holder == Some(t)
    ensures LetsSleep(st, LockRelease(st, t, l))
  {
    var st0, st1 := Disown(st, t, l), GiveUp(st, t, l);
    DisownShape(st, t, l);
    WakeKeepsFields(st0, l);
    assert LetsSleep(st0, st1) by {
      assert SemaTyped(st0.semas[l], |st0.threads|);
    }
    var st2 := SetThread(st1, t, st1.threads[t].(pc := InRelease(l)));
    assert ThreadTyped(st1.threads[t], |st1.semas|);
    UpdateShape(st1, t, st2.threads[t]);
    YieldSleepers(st2, t);
  }

  lemma FinishSleepers(st: State, t: Tid, l: SemaId)
    requires Shape(st) && AtCpu(st, t, InRelease(l)) && l < |st.semas|
    ensures LetsSleep(st, FinishRelease(st, t, l))
  {
    RecomputeShape(st, l);
  }

  lemma FinalYieldSleepers(st: State, t: Tid)
    requires Shape(st) && AtCpu(st, t, Yielding)
    ensures LetsSleep(st, FinalYield(st, t))
  {
    var st1 := SetThread(st, t, st.threads[t].(pc := Free));
    assert ThreadTyped(st.threads[t], |st.semas|);
    UpdateShape(st, t, st1.threads[t]);
    YieldSleepers(st1, t);
  }

  lemma SleepSleepers(st: State, t: Tid, until: int)
    requires Shape(st) && SleepInv(st) && AtCpu(st, t, Free)
    ensures NewSleeper(st, ThreadSleep(st, t, until), t, until)
  {
    var st1 := FallAsleep(st, t, until);
    FallAsleepShape(st, t, until);
    assert Placed(st, t);
    var less, p := ByWakeup(st1.threads), InsertPosition(ByWakeup(st1.threads), t, st.sleeping);
    forall k | p <= k < |st.sleeping| ensures st.threads[st.sleeping[k]].wakeup > until {
      assert less(t, st.sleeping[p]);
      assert st.sleeping[p] in st.sleeping;
      assert p < k ==> st.threads[st.sleeping[p]].wakeup <= st.threads[st.sleeping[k]].wakeup;
    }
    DispatchSleepers(st1);
    assert InsertedAt(st, ThreadSleep(st, t, until), t, until, p);
  }

  lemma UpSleepers(st: State, t: Tid, s: SemaId)
    requires Shape(st) && AtCpu(st, t, Free) && s < |st.semas| && !st.semas[s].isLock
    ensures LetsSleep(st, SemaUp(st, t, s))
  {
    WakeKeepsCpu(st, t, s);
    WakeKeepsFields(st, s);
    WakeClock(st, s);
  }

  lemma RetrySleepers(st: State, t: Tid, s: SemaId)
    requires Shape(st) && AtCpu(st, t, InDown(s)) && s < |st.semas|
    ensures LetsSleep(st, Retry(st, t, s))
  {
    if st.semas[s].value == 0 {
      WaitSleepers(st, t, s);
    } else if st.semas[s].isLock {
      GrabSleepers(st, t, s);
    }
  }

  lemma PrioritySleepers(st: State, t: Tid, p: int)
    requires Shape(st) && AtCpu(st, t, Free)
    ensures LetsSleep(st, SetPriority(st, t, p))
  {
    assert ThreadTyped(st.threads[t], |st.semas|);
    var th := Adjusted(st.threads[t].(intrinsic := p), st.semas);
    UpdateShape(st, t, th);
  }

  lemma PerformSleepers(st: State, t: Tid, a: Action)
    requires Inv(st) && OnCpu(st, t) && CanAct(st, t, a)
    ensures if a.Sleep? then NewSleeper(st, Perform(st, t, a), t, a.until) else LetsSleep(st, Perform(st, t, a))
  {
    assert ThreadTyped(st.threads[t], |st.semas|);
    match a
    case Acquire(l) => AcquireSleepers(st, t, l);
    case TryAcquire(l) => if st.semas[l].value > 0 { GrabSleepers(st, t, l); }
    case Release(l) => ReleaseSleepers(st, t, l);
    case Down(s) => if st.semas[s].value == 0 { WaitSleepers(st, t, s); }
    case TryDown(s) =>
    case Up(s) => UpSleepers(st, t, s);
    case Resume =>
      if st.threads[t].pc.InDown? {
        RetrySleepers(st, t, st.threads[t].pc.sema);
      } else if st.threads[t].pc.InRelease? {
        FinishSleepers(st, t, st.threads[t].pc.lck);
      } else {
        FinalYieldSleepers(st, t);
      }
    case GiveWay => YieldSleepers(st, t);
    case Sleep(until) => SleepSleepers(st, t, until);
    case Priority(p) => PrioritySleepers(st, t, p);
    case Create(p) =>
      SpawnShape(st, t, p);
  }

  lemma WakeClock(st: State, s: SemaId)
    requires Typed(st) && s < |st.semas|
    ensures Wake(st, s).ticks == st.ticks
  {
    assert SemaTyped(st.semas[s], |st.threads|);
  }

  /** The clock never runs backwards, and a thread that went to sleep until `until` is either still
      asleep or the clock has reached `until`. */
  ghost predicate NotEarly(st: State, t: Tid, until: int) {
    st.ticks >= until || (t in st.sleeping && t < |st.threads| && st.threads[t].wakeup == until)
  }

  lemma StepNotEarly(st: State, step: Step, st': State, t: Tid, until: int)
    requires Inv(st) && Enabled(st, step) && NotEarly(st, t, until) && st' == Next(st, step)
    ensures NotEarly(st', t, until) && st'.ticks >= st.ticks
  {
    match step
    case Act(a) =>
      assert Placed(st, st.cur.value);
      PerformSleepers(st, st.cur.value, a);
      if a.Sleep? {
        OthersSleepOn(st, st', st.cur.value, a.until);
      }
    case Idle => DispatchSleepers(st);
    case UpFromInterrupt(s) =>
      WakeKeepsFields(st, s);
      WakeClock(st, s);
    case Tick(expired) => TickNotEarly(st, expired, t, until);
  }

  lemma OthersSleepOn(st: State, st': State, t: Tid, until: int)
    requires NewSleeper(st, st', t, until)
    ensures forall u | u in st.sleeping :: u in st'.sleeping
  {
    var p: nat :| InsertedAt(st, st', t, until, p);
    assert st.sleeping == st.sleeping[..p] + st.sleeping[p..];
  }

  lemma TickNotEarly(st: State, expired: bool, t: Tid, until: int)
    requires Inv(st) && NotEarly(st, t, until)
    ensures var st' := TimerInterrupt(st, expired); NotEarly(st', t, until) && st'.ticks == st.ticks + 1
  {
    var st1, st2, k := TickedRouses(st);
    TimerSleepers(st, expired, st2);
    if st.ticks < until {
      var j :| 0 <= j < |st.sleeping| && st.sleeping[j] == t;
      if j >= k {
        assert st2.sleeping[j - k] == t;
      }
    }
  }

  /** No thread is unblocked before its wakeup time: in every run, if thread t is asleep until `until`
      in state i, then in every later state it still is or the clock has reached `until`. */
  lemma {:induction false} NeverWokenEarly(states: seq<State>, steps: seq<Step>, i: nat, j: nat, t: Tid, until: int)
    requires IsKernelRun(states, steps) && i <= j < |states|
    requires NotEarly(states[i], t, until)
    ensures NotEarly(states[j], t, until)
    decreases j
  {
    if i < j {
      NeverWokenEarly(states, steps, i, j - 1, t, until);
      RunInv(states, steps, j - 1);
      assert StepAt(states, steps, j - 1);
      StepNotEarly(states[j - 1], steps[j - 1], states[j], t, until);
    }
  }
}
