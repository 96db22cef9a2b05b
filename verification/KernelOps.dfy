/** The kernel's operations, each up to where it returns or gives up the CPU. */
module KernelOps {
  import opened Common
  import opened Ordering
  import opened KernelState
  import opened KernelDonation
  import opened KernelSteps
  import opened KernelShape

  /** Some value that no priority in the state exceeds. */
  ghost function Ceiling(ts: seq<Thread>, ls: seq<Sema>): (cap: int)
    ensures Capped(ts, ls, cap)
  {
    var a := ThreadCeiling(ts);
    var b := LockCeiling(ls);
    if a < b then b else a
  }

  ghost function ThreadCeiling(ts: seq<Thread>): (c: int)
    ensures forall t | 0 <= t < |ts| :: ts[t].priority <= c && ts[t].intrinsic <= c
  {
    if ts == [] then 0
    else
      var n := |ts| - 1;
      var c := ThreadCeiling(ts[..n]);
      var d := if c < ts[n].priority then ts[n].priority else c;
      assert forall t | 0 <= t < n :: ts[t] == ts[..n][t];
      if d < ts[n].intrinsic then ts[n].intrinsic else d
  }

  ghost function LockCeiling(ls: seq<Sema>): (c: int)
    ensures forall s | 0 <= s < |ls| :: ls[s].maxPriority <= c
  {
    if ls == [] then 0
    else
      var n := |ls| - 1;
      var c := LockCeiling(ls[..n]);
      assert forall s | 0 <= s < n :: ls[s] == ls[..n][s];
      if c < ls[n].maxPriority then ls[n].maxPriority else c
  }

  lemma TypedLinks(st: State)
    requires Typed(st)
    ensures Links(st.threads, st.semas)
  {
  }

  /** flush_priority on the whole state. */
  function Donate(st: State, t: Tid): (st': State)
    requires Typed(st) && t < |st.threads|
  {
    TypedLinks(st);
    var (ts, ls) := Flush(st.threads, st.semas, t, Ceiling(st.threads, st.semas));
    st.(threads := ts, semas := ls)
  }

  lemma DonateFrame(st: State, t: Tid)
    requires Typed(st) && t < |st.threads|
    ensures var st' := Donate(st, t);
            && OnlyPriorities(st.threads, st.semas, st'.threads, st'.semas)
            && st' == st.(threads := st'.threads, semas := st'.semas)
            && Typed(st')
  {
    TypedLinks(st);
    FlushFrame(st.threads, st.semas, t, Ceiling(st.threads, st.semas));
  }

  lemma DonateShape(st: State, t: Tid)
    requires Shape(st) && t < |st.threads|
    ensures Shape(Donate(st, t))
  {
    DonateFrame(st, t);
    SamePlacesShape(st, Donate(st, t));
  }

  // ---------------------------------------------------------------- small updates of the running thread

  /** Changing fields of the running thread that no list depends on. */
  lemma UpdateShape(st: State, t: Tid, th: Thread)
    requires Shape(st) && OnCpu(st, t) && th.status == Running && ThreadTyped(th, |st.semas|)
    ensures Shape(SetThread(st, t, th)) && OnCpu(SetThread(st, t, th), t)
  {
    var st' := SetThread(st, t, th);
    forall u | 0 <= u < |st.threads| ensures ThreadTyped(st'.threads[u], |st.semas|) {
      assert ThreadTyped(st.threads[u], |st.semas|);
    }
    SamePlacesShape(st, st');
  }

  lemma TakeShape(st: State, t: Tid, s: SemaId)
    requires Shape(st) && OnCpu(st, t) && s < |st.semas| && st.semas[s].value > 0
    ensures Shape(Take(st, t, s)) && OnCpu(Take(st, t, s), t)
  {
    var st' := Take(st, t, s);
    forall u | 0 <= u < |st.threads| ensures ThreadTyped(st'.threads[u], |st.semas|) {
      assert ThreadTyped(st.threads[u], |st.semas|);
    }
    forall r | 0 <= r < |st.semas| ensures SemaTyped(st'.semas[r], |st.threads|) {
      assert SemaTyped(st.semas[r], |st.threads|);
    }
    SamePlacesShape(st, st');
  }

  lemma OwnShape(st: State, t: Tid, l: SemaId)
    requires Shape(st) && OnCpu(st, t) && l < |st.semas|
    ensures Shape(Own(st, t, l)) && OnCpu(Own(st, t, l), t)
  {
    var st' := Own(st, t, l);
    forall u | 0 <= u < |st.threads| ensures ThreadTyped(st'.threads[u], |st.semas|) {
      assert ThreadTyped(st.threads[u], |st.semas|);
    }
    forall r | 0 <= r < |st.semas| ensures SemaTyped(st'.semas[r], |st.threads|) {
      assert SemaTyped(st.semas[r], |st.threads|);
    }
    SamePlacesShape(st, st');
  }

  lemma DisownShape(st: State, t: Tid, l: SemaId)
    requires Shape(st) && OnCpu(st, t) && l < |st.semas|
    ensures Shape(Disown(st, t, l)) && OnCpu(Disown(st, t, l), t)
  {
    var st' := Disown(st, t, l);
    assert ThreadTyped(st.threads[t], |st.semas|);
    WithoutIds(st.threads[t].held, l, |st.semas|);
    forall u | 0 <= u < |st.threads| ensures ThreadTyped(st'.threads[u], |st.semas|) {
      assert ThreadTyped(st.threads[u], |st.semas|);
    }
    forall r | 0 <= r < |st.semas| ensures SemaTyped(st'.semas[r], |st.threads|) {
      assert SemaTyped(st.semas[r], |st.threads|);
    }
    SamePlacesShape(st, st');
  }

  lemma RecomputeShape(st: State, l: SemaId)
    requires Shape(st) && l < |st.semas|
    ensures Shape(Recompute(st, l))
  {
    var st' := Recompute(st, l);
    forall u | 0 <= u < |st.threads| ensures ThreadTyped(st'.threads[u], |st.semas|) {
      assert ThreadTyped(st.threads[u], |st.semas|);
    }
    forall r | 0 <= r < |st.semas| ensures SemaTyped(st'.semas[r], |st.threads|) {
      assert SemaTyped(st.semas[r], |st.threads|);
    }
    SamePlacesShape(st, st');
  }

  lemma WakeKeepsCpu(st: State, t: Tid, s: SemaId)
    requires Shape(st) && OnCpu(st, t) && s < |st.semas|
    ensures Shape(Wake(st, s)) && OnCpu(Wake(st, s), t) && Wake(st, s).threads[t] == st.threads[t]
  {
    WakeShape(st, s);
    assert Placed(st, t);
    var x := st.semas[s];
    assert SemaTyped(x, |st.threads|);
    if x.waiters != [] {
      assert x.waiters[Top(st.threads, x.waiters)] in x.waiters;
    }
  }

  // ---------------------------------------------------------------- operations

  predicate AtCpu(st: State, t: Tid, pc: Pc) {
    OnCpu(st, t) && st.threads[t].pc == pc
  }

  function Yield(st: State, t: Tid): (st': State)
    requires Shape(st) && OnCpu(st, t)
    ensures Shape(st')
  {
    DescheduleShape(st, t);
    DispatchShape(Deschedule(st, t));
    Dispatch(Deschedule(st, t))
  }

  function Wait(st: State, t: Tid, s: SemaId): (st': State)
    requires Shape(st) && OnCpu(st, t) && s < |st.semas|
    ensures Shape(st')
  {
    ParkShape(st, t, s);
    DispatchShape(Park(st, t, s));
    Dispatch(Park(st, t, s))
  }

  /** The end of a successful lock_acquire or lock_try_acquire. */
  function Grab(st: State, t: Tid, l: SemaId): (st': State)
    requires Shape(st) && OnCpu(st, t) && l < |st.semas| && st.semas[l].value > 0
    ensures Shape(st')
  {
    TakeShape(st, t, l);
    OwnShape(Take(st, t, l), t, l);
    Own(Take(st, t, l), t, l)
  }

  function Await(st: State, t: Tid, l: SemaId): (st': State)
    requires Shape(st) && OnCpu(st, t) && l < |st.semas|
    ensures Shape(st') && OnCpu(st', t) && |st'.semas| == |st.semas| && |st'.threads| == |st.threads|
  {
    var th := st.threads[t].(waiting := Some(l));
    assert ThreadTyped(st.threads[t], |st.semas|);
    UpdateShape(st, t, th);
    var st1 := SetThread(st, t, th);
    DonateShape(st1, t);
    DonateFrame(st1, t);
    Donate(st1, t)
  }

  /** lock_acquire up to where it has the lock or sleeps. */
  function LockAcquire(st: State, t: Tid, l: SemaId): (st': State)
    requires Shape(st) && AtCpu(st, t, Free) && l < |st.semas|
    requires st.semas[l].isLock && st.semas[l].holder != Some(t)
    ensures Shape(st')
  {
    var st1 := Await(st, t, l);
    if st1.semas[l].value > 0 then Grab(st1, t, l) else Wait(st1, t, l)
  }

  function LockTryAcquire(st: State, t: Tid, l: SemaId): (st': State)
    requires Shape(st) && AtCpu(st, t, Free) && l < |st.semas|
    requires st.semas[l].isLock && st.semas[l].holder != Some(t)
    ensures Shape(st')
  {
    if st.semas[l].value > 0 then Grab(st, t, l) else st
  }

  /** The start of lock_release up to the end of sema_up. */
  function GiveUp(st: State, t: Tid, l: SemaId): (st': State)
    requires Shape(st) && OnCpu(st, t) && l < |st.semas|
    ensures Shape(st') && OnCpu(st', t) && |st'.semas| == |st.semas|
  {
    DisownShape(st, t, l);
    WakeKeepsCpu(Disown(st, t, l), t, l);
    Wake(Disown(st, t, l), l)
  }

  /** lock_release up to the yield inside sema_up. */
  function LockRelease(st: State, t: Tid, l: SemaId): (st': State)
    requires Shape(st) && AtCpu(st, t, Free) && l < |st.semas|
    requires st.semas[l].isLock && st.semas[l].holder == Some(t)
    ensures Shape(st')
  {
    var st1 := GiveUp(st, t, l);
    assert ThreadTyped(st1.threads[t], |st1.semas|);
    UpdateShape(st1, t, st1.threads[t].(pc := InRelease(l)));
    Yield(SetThread(st1, t, st1.threads[t].(pc := InRelease(l))), t)
  }

  /** Interrupts are turned on again; the final thread_yield of the routine is still to come. */
  function SetOut(st: State, t: Tid): (st': State)
    requires Shape(st) && OnCpu(st, t)
    ensures Shape(st') && OnCpu(st', t)
  {
    assert ThreadTyped(st.threads[t], |st.semas|);
    UpdateShape(st, t, st.threads[t].(pc := Yielding));
    SetThread(st, t, st.threads[t].(pc := Yielding))
  }

  /** That thread_yield. */
  function FinalYield(st: State, t: Tid): (st': State)
    requires Shape(st) && AtCpu(st, t, Yielding)
    ensures Shape(st')
  {
    assert ThreadTyped(st.threads[t], |st.semas|);
    UpdateShape(st, t, st.threads[t].(pc := Free));
    Yield(SetThread(st, t, st.threads[t].(pc := Free)), t)
  }

  /** The rest of lock_release, once the releasing thread runs again, up to its final yield. */
  function FinishRelease(st: State, t: Tid, l: SemaId): (st': State)
    requires Shape(st) && AtCpu(st, t, InRelease(l)) && l < |st.semas|
    ensures Shape(st')
  {
    RecomputeShape(st, l);
    SetOut(Recompute(st, l), t)
  }

  /** sema_down up to where it succeeds or sleeps. */
  function SemaDown(st: State, t: Tid, s: SemaId): (st': State)
    requires Shape(st) && AtCpu(st, t, Free) && s < |st.semas| && !st.semas[s].isLock
    ensures Shape(st')
  {
    if st.semas[s].value > 0 then (TakeShape(st, t, s); Take(st, t, s)) else Wait(st, t, s)
  }

  function SemaTryDown(st: State, t: Tid, s: SemaId): (st': State)
    requires Shape(st) && AtCpu(st, t, Free) && s < |st.semas| && !st.semas[s].isLock
    ensures Shape(st')
  {
    if st.semas[s].value > 0 then (TakeShape(st, t, s); Take(st, t, s)) else st
  }

  /** sema_up by a thread, up to its final yield. */
  function SemaUp(st: State, t: Tid, s: SemaId): (st': State)
    requires Shape(st) && AtCpu(st, t, Free) && s < |st.semas| && !st.semas[s].isLock
    ensures Shape(st')
  {
    WakeKeepsCpu(st, t, s);
    SetOut(Wake(st, s), t)
  }

  /** The retry loop of a down, once a woken thread runs again: it takes the semaphore if the value
      is still positive and otherwise goes back to sleep, without donating again. */
  function Retry(st: State, t: Tid, s: SemaId): (st': State)
    requires Shape(st) && AtCpu(st, t, InDown(s)) && s < |st.semas|
    ensures Shape(st')
  {
    if st.semas[s].value == 0 then Wait(st, t, s)
    else if st.semas[s].isLock then Grab(st, t, s)
    else (TakeShape(st, t, s); Take(st, t, s))
  }

  function ThreadSleep(st: State, t: Tid, until: int): (st': State)
    requires Shape(st) && AtCpu(st, t, Free)
    ensures Shape(st')
  {
    FallAsleepShape(st, t, until);
    DispatchShape(FallAsleep(st, t, until));
    Dispatch(FallAsleep(st, t, until))
  }

  /** thread_set_priority up to its final yield. */
  function SetPriority(st: State, t: Tid, p: int): (st': State)
    requires Shape(st) && AtCpu(st, t, Free)
    ensures Shape(st')
  {
    assert ThreadTyped(st.threads[t], |st.semas|);
    var th := Adjusted(st.threads[t].(intrinsic := p), st.semas);
    UpdateShape(st, t, th);
    SetOut(SetThread(st, t, th), t)
  }

  // ---------------------------------------------------------------- the timer

  /** thread_unblock for the front sleeper. */
  function RouseFirst(st: State): State
    requires Typed(st) && st.sleeping != []
  {
    var t := st.sleeping[0];
    SetThread(st, t, st.threads[t].(status := Ready, pc := Free)).(sleeping := st.sleeping[1..], ready := st.ready + [t])
  }

  lemma RouseShape(st: State)
    requires Shape(st) && st.sleeping != []
    ensures Shape(RouseFirst(st))
  {
    var st' := RouseFirst(st);
    var t := st.sleeping[0];
    assert Placed(st, t);
    assert st.sleeping[1..] == st.sleeping[..0] + st.sleeping[1..];
    RemoveAt(st.sleeping, 0);
    AppendNew(st.ready, t);
    forall u | 0 <= u < |st.threads| ensures Placed(st', u) && ThreadTyped(st'.threads[u], |st.semas|) {
      assert Placed(st, u) && ThreadTyped(st.threads[u], |st.semas|);
    }
    forall r | 0 <= r < |st.semas| ensures SemaTyped(st'.semas[r], |st.threads|) {
      assert SemaTyped(st.semas[r], |st.threads|);
    }
  }

  /** The front sleeper's time has come. */
  predicate FrontDue(st: State)
    requires Typed(st)
  {
    st.sleeping != [] && st.ticks >= st.threads[st.sleeping[0]].wakeup
  }

  /** thread_alarm. */
  function Alarm(st: State): (st': State)
    requires Shape(st)
    ensures Shape(st')
    decreases |st.sleeping|
  {
    if FrontDue(st) then
      RouseShape(st);
      Alarm(RouseFirst(st))
    else st
  }

  lemma ClockShape(st: State, now: int)
    requires Shape(st)
    ensures Shape(st.(ticks := now))
  {
    SamePlacesShape(st, st.(ticks := now));
  }

  /** The tick count and the alarm. */
  function Ticked(st: State): (st': State)
    requires Shape(st)
    ensures Shape(st')
  {
    ClockShape(st, st.ticks + 1);
    Alarm(st.(ticks := st.ticks + 1))
  }

  /** The yield on return from the interrupt. */
  function Preempt(st: State): (st': State)
    requires Shape(st)
    ensures Shape(st')
  {
    match st.cur
    case Some(t) => assert Placed(st, t); Yield(st, t)
    case None => DispatchShape(st); Dispatch(st)
  }

  /** timer_interrupt; `expired` says whether the running thread's time slice has run out. */
  function TimerInterrupt(st: State, expired: bool): (st': State)
    requires Shape(st)
    ensures Shape(st')
  {
    if expired then Preempt(Ticked(st)) else Ticked(st)
  }

  /** thread_create, from a running thread, up to its final yield. */
  function Spawn(st: State, t: Tid, priority: int): (st': State)
    requires Shape(st) && AtCpu(st, t, Free)
    ensures Shape(st')
  {
    SpawnShape(st, t, priority);
    SetOut(Spawned(st, priority), t)
  }

  function Spawned(st: State, priority: int): State {
    st.(threads := st.threads + [Thread(Ready, Free, priority, priority, None, [], 0)],
        ready := st.ready + [|st.threads|])
  }

  lemma SpawnShape(st: State, t: Tid, priority: int)
    requires Shape(st) && OnCpu(st, t)
    ensures Shape(Spawned(st, priority)) && OnCpu(Spawned(st, priority), t)
  {
    var st', n := Spawned(st, priority), |st.threads|;
    assert n !in st.ready && n !in st.sleeping;
    AppendNew(st.ready, n);
    forall u | 0 <= u < n + 1 ensures Placed(st', u) && ThreadTyped(st'.threads[u], |st.semas|) {
      if u < n {
        assert Placed(st, u) && ThreadTyped(st.threads[u], |st.semas|);
      } else {
        forall s | 0 <= s < |st.semas| ensures n !in st.semas[s].waiters {
          assert SemaTyped(st.semas[s], n);
        }
      }
    }
    forall r | 0 <= r < |st.semas| ensures SemaTyped(st'.semas[r], n + 1) {
      assert SemaTyped(st.semas[r], n);
    }
  }
}
