/** What every step does to every semaphore and lock, and what that adds up to over whole runs: the value
    counts ups and downs, locks exclude, and waiters are served by urgency and in order of arrival.

    The laws speak of the steps taken and of the states only; the history fields play no part in them. */
module KernelLaws {
  import opened Common
  import opened KernelState
  import opened KernelDonation
  import opened KernelSteps
  import opened KernelShape
  import opened KernelOps
  import opened KernelSync
  import opened KernelRuns

  // ---------------------------------------------------------------- the effect of one step

  /** The semaphore that an action counts up. */
  function UpOf(a: Action): Option<SemaId> {
    match a
    case Up(s) => Some(s)
    case Release(l) => Some(l)
    case _ => None
  }

  /** The semaphore whose down the action asks for, or goes on asking for. */
  function Wants(th: Thread, a: Action): Option<SemaId> {
    match a
    case Acquire(l) => Some(l)
    case Down(s) => Some(s)
    case Resume => if th.pc.InDown? then Some(th.pc.sema) else None
    case _ => None
  }

  /** The semaphore that the action tries without waiting. */
  function Tries(a: Action): Option<SemaId> {
    match a
    case TryAcquire(l) => Some(l)
    case TryDown(s) => Some(s)
    case _ => None
  }

  function Positive(st: State, s: Option<SemaId>): bool {
    s.Some? && s.value < |st.semas| && st.semas[s.value].value > 0
  }

  /** The semaphore that the action takes. */
  function DownOf(st: State, th: Thread, a: Action): Option<SemaId> {
    if Positive(st, Wants(th, a)) then Wants(th, a) else if Positive(st, Tries(a)) then Tries(a) else None
  }

  /** The semaphore on which the action blocks the running thread. */
  function BlockOf(st: State, th: Thread, a: Action): Option<SemaId> {
    if Positive(st, Wants(th, a)) then None else Wants(th, a)
  }

  /** The first most urgent of a queue stands at k. */
  ghost predicate IsTop(ts: seq<Thread>, q: seq<Tid>, k: nat) {
    && k < |q| && Ids(q, |ts|)
    && (forall j | 0 <= j < |q| :: ts[q[j]].priority <= ts[q[k]].priority)
    && (forall j | 0 <= j < k :: ts[q[j]].priority < ts[q[k]].priority)
  }

  /** An up takes the first most urgent waiter off the list, a thread that blocks goes to its end, and nothing
      else changes it. */
  ghost predicate Queued(ts: seq<Thread>, cur: Option<Tid>, q: seq<Tid>, q': seq<Tid>, up: bool, block: bool) {
    if up && q != [] then exists k: nat :: IsTop(ts, q, k) && q' == q[..k] + q[k + 1..]
    else if block then cur.Some? && q' == q + [cur.value]
    else q' == q
  }

  /** One semaphore before and after a step that counts it up, takes it, or blocks the running thread on it. */
  ghost predicate Changed(ts: seq<Thread>, cur: Option<Tid>, x: Sema, x': Sema, up: bool, down: bool, block: bool) {
    && x'.isLock == x.isLock
    && x'.value == x.value + (if up then 1 else 0) - (if down then 1 else 0)
    && x'.holder == (if x.isLock && down then cur else if x.isLock && up then None else x.holder)
    && Queued(ts, cur, x.waiters, x'.waiters, up, block)
  }

  ghost predicate Effect(st: State, st': State, up: Option<SemaId>, down: Option<SemaId>, block: Option<SemaId>) {
    && |st'.semas| == |st.semas|
    && forall s | 0 <= s < |st.semas| ::
         Changed(st.threads, st.cur, st.semas[s], st'.semas[s], up == Some(s), down == Some(s), block == Some(s))
  }

  // ---------------------------------------------------------------- step by step

  /** Dispatching, yielding and going to sleep touch no semaphore. */
  lemma SameSemas(st: State, st': State)
    requires st'.semas == st.semas
    ensures AsUnit(Effect(st, st', None, None, None))
  {
  }

  lemma YieldSemas(st: State, t: Tid)
    requires Shape(st) && OnCpu(st, t)
    ensures Yield(st, t).semas == st.semas
  {
  }

  lemma TakeEffect(st: State, t: Tid, s: SemaId)
    requires OnCpu(st, t) && s < |st.semas| && st.semas[s].value > 0 && !st.semas[s].isLock
    ensures AsUnit(Effect(st, Take(st, t, s), None, Some(s), None))
  {
  }

  lemma GrabEffect(st: State, t: Tid, l: SemaId)
    requires Shape(st) && OnCpu(st, t) && l < |st.semas| && st.semas[l].value > 0 && st.semas[l].isLock
    ensures AsUnit(Effect(st, Grab(st, t, l), None, Some(l), None))
  {
    TakeShape(st, t, l);
  }

  lemma WaitEffect(st: State, t: Tid, s: SemaId)
    requires Shape(st) && OnCpu(st, t) && s < |st.semas|
    ensures AsUnit(Effect(st, Wait(st, t, s), None, None, Some(s)))
  {
    ParkShape(st, t, s);
    assert Wait(st, t, s).semas == Park(st, t, s).semas;
  }

  lemma WakeEffect(st: State, s: SemaId)
    requires Shape(st) && s < |st.semas| && !st.semas[s].isLock
    ensures AsUnit(Effect(st, Wake(st, s), Some(s), None, None))
  {
    var x := st.semas[s];
    assert SemaTyped(x, |st.threads|);
    if x.waiters != [] {
      assert IsTop(st.threads, x.waiters, Top(st.threads, x.waiters));
    }
  }

  lemma GiveUpEffect(st: State, t: Tid, l: SemaId)
    requires Shape(st) && OnCpu(st, t) && l < |st.semas| && st.semas[l].isLock
    ensures AsUnit(Effect(st, GiveUp(st, t, l), Some(l), None, None))
  {
    var st1, x := Disown(st, t, l), st.semas[l];
    DisownShape(st, t, l);
    assert SemaTyped(x, |st.threads|) && Placed(st, t);
    if x.waiters != [] {
      var k := Top(st1.threads, x.waiters);
      forall j | 0 <= j < |x.waiters| ensures st1.threads[x.waiters[j]] == st.threads[x.waiters[j]] {
        assert x.waiters[j] in x.waiters;
      }
      assert IsTop(st.threads, x.waiters, k);
    }
  }

  lemma ReleaseEffect(st: State, t: Tid, l: SemaId)
    requires Shape(st) && AtCpu(st, t, Free) && l < |st.semas| && st.semas[l].isLock && st.semas[l].holder == Some(t)
    ensures AsUnit(Effect(st, LockRelease(st, t, l), Some(l), None, None))
  {
    GiveUpEffect(st, t, l);
    var st1 := GiveUp(st, t, l);
    assert ThreadTyped(st1.threads[t], |st1.semas|);
    UpdateShape(st1, t, st1.threads[t].(pc := InRelease(l)));
    YieldSemas(SetThread(st1, t, st1.threads[t].(pc := InRelease(l))), t);
  }

  /** Donation changes no semaphore but for its priority. */
  lemma AcquireEffect(st: State, t: Tid, l: SemaId)
    requires Shape(st) && AtCpu(st, t, Free) && l < |st.semas| && st.semas[l].isLock && st.semas[l].holder != Some(t)
    ensures if st.semas[l].value > 0 then Effect(st, LockAcquire(st, t, l), None, Some(l), None)
            else Effect(st, LockAcquire(st, t, l), None, None, Some(l))
  {
    var st1 := Await(st, t, l);
    AwaitFrame(st, t, l);
    if st.semas[l].value > 0 {
      GrabEffect(st1, t, l);
      AfterAwait(st, st1, LockAcquire(st, t, l), Some(l), None);
    } else {
      WaitEffect(st1, t, l);
      AfterAwait(st, st1, LockAcquire(st, t, l), None, Some(l));
    }
  }

  lemma AfterAwait(st: State, st1: State, st': State, down: Option<SemaId>, block: Option<SemaId>)
    requires |st1.semas| == |st.semas| && st1.cur == st.cur
    requires forall s | 0 <= s < |st.semas| :: st1.semas[s] == st.semas[s].(maxPriority := st1.semas[s].maxPriority)
    requires Effect(st1, st', None, down, block)
    ensures Effect(st, st', None, down, block)
  {
    forall s | 0 <= s < |st.semas|
      ensures Changed(st.threads, st.cur, st.semas[s], st'.semas[s], false, down == Some(s), block == Some(s))
    {
      assert Changed(st1.threads, st1.cur, st1.semas[s], st'.semas[s], false, down == Some(s), block == Some(s));
    }
  }

  lemma FinishEffect(st: State, t: Tid, l: SemaId)
    requires Shape(st) && AtCpu(st, t, InRelease(l)) && l < |st.semas|
    ensures AsUnit(Effect(st, FinishRelease(st, t, l), None, None, None))
  {
  }

  lemma ResumeEffect(st: State, t: Tid)
    requires Shape(st) && OnCpu(st, t) && CanAct(st, t, Resume)
    ensures var th := st.threads[t];
            Effect(st, Perform(st, t, Resume), None, DownOf(st, th, Resume), BlockOf(st, th, Resume))
  {
    var th := st.threads[t];
    assert ThreadTyped(th, |st.semas|);
    if th.pc.InDown? {
      var s := th.pc.sema;
      if st.semas[s].value == 0 {
        WaitEffect(st, t, s);
      } else if st.semas[s].isLock {
        GrabEffect(st, t, s);
      } else {
        TakeEffect(st, t, s);
      }
    } else if th.pc.InRelease? {
      FinishEffect(st, t, th.pc.lck);
    } else {
      SameSemas(st, FinalYield(st, t));
    }
  }

  lemma PerformEffect(st: State, t: Tid, a: Action)
    requires Shape(st) && OnCpu(st, t) && CanAct(st, t, a)
    ensures AsUnit(Effect(st, Perform(st, t, a), UpOf(a), DownOf(st, st.threads[t], a), BlockOf(st, st.threads[t], a)))
  {
    assert ThreadTyped(st.threads[t], |st.semas|);
    match a
    case Acquire(l) => AcquireEffect(st, t, l);
    case TryAcquire(l) => if st.semas[l].value > 0 { GrabEffect(st, t, l); } else { SameSemas(st, st); }
    case Release(l) => ReleaseEffect(st, t, l);
    case Down(s) => if st.semas[s].value > 0 { TakeEffect(st, t, s); } else { WaitEffect(st, t, s); }
    case TryDown(s) => if st.semas[s].value > 0 { TakeEffect(st, t, s); } else { SameSemas(st, st); }
    case Up(s) =>
      WakeEffect(st, s);
      WakeKeepsCpu(st, t, s);
    case Resume => ResumeEffect(st, t);
    case _ =>
      QuietSemas(st, t, a);
      SameSemas(st, Perform(st, t, a));
  }

  lemma QuietSemas(st: State, t: Tid, a: Action)
    requires Shape(st) && OnCpu(st, t) && CanAct(st, t, a) && (a.GiveWay? || a.Sleep? || a.Priority? || a.Create?)
    ensures Perform(st, t, a).semas == st.semas
  {
  }

  // ---------------------------------------------------------------- any step

  function UpBy(step: Step): Option<SemaId> {
    match step
    case Act(a) => UpOf(a)
    case UpFromInterrupt(s) => Some(s)
    case _ => None
  }

  function DownBy(st: State, step: Step): Option<SemaId> {
    if step.Act? && st.cur.Some? && st.cur.value < |st.threads| then DownOf(st, st.threads[st.cur.value], step.a) else None
  }

  function BlockBy(st: State, step: Step): Option<SemaId> {
    if step.Act? && st.cur.Some? && st.cur.value < |st.threads| then BlockOf(st, st.threads[st.cur.value], step.a) else None
  }

  /** The whole effect of any step on any semaphore or lock. */
  lemma StepEffect(st: State, step: Step)
    requires Shape(st) && Enabled(st, step)
    ensures Effect(st, Next(st, step), UpBy(step), DownBy(st, step), BlockBy(st, step))
  {
    match step
    case Act(a) =>
      assert Placed(st, st.cur.value);
      PerformEffect(st, st.cur.value, a);
    case Idle => SameSemas(st, Dispatch(st));
    case UpFromInterrupt(s) => WakeEffect(st, s);
    case Tick(expired) =>
      TickSemas(st, expired);
      SameSemas(st, TimerInterrupt(st, expired));
  }

  lemma TickSemas(st: State, expired: bool)
    requires Shape(st)
    ensures TimerInterrupt(st, expired).semas == st.semas
    ensures TimerInterrupt(st, expired).ticks == st.ticks + 1
  {
    ClockShape(st, st.ticks + 1);
    AlarmSemas(st.(ticks := st.ticks + 1));
    var st1 := Ticked(st);
    if expired && st1.cur.Some? {
      assert Placed(st1, st1.cur.value);
    }
  }

  lemma {:induction false} AlarmSemas(st: State)
    requires Shape(st)
    ensures Alarm(st).semas == st.semas && Alarm(st).ticks == st.ticks && Alarm(st).cur == st.cur
    decreases |st.sleeping|
  {
    if FrontDue(st) {
      RouseShape(st);
      AlarmSemas(RouseFirst(st));
    }
  }

  // ---------------------------------------------------------------- what a caller sees of a down

  /** Thread t is on the CPU and outside the synchronization code. */
  ghost predicate Past(st: State, t: Tid) {
    st.cur == Some(t) && t < |st.threads| && st.threads[t].pc == Free
  }

  /** The step completes a down of s, as its thread can tell: a down or an acquire has come to its end with the
      thread still running, or a try reports success. */
  ghost predicate Completes(st: State, step: Step, st': State, s: SemaId) {
    && step.Act? && st.cur.Some? && st.cur.value < |st.threads| && s < |st.semas|
    && ((Wants(st.threads[st.cur.value], step.a) == Some(s) && Past(st', st.cur.value))
        || (Tries(step.a) == Some(s) && st.semas[s].value > 0))
  }

  /** A down that comes to its end has taken the semaphore, and only such a down takes it. */
  lemma CompletesExactly(st: State, step: Step, s: SemaId)
    requires Shape(st) && Enabled(st, step) && s < |st.semas|
    ensures Completes(st, step, Next(st, step), s) <==> DownBy(st, step) == Some(s)
  {
    if step.Act? {
      var t := st.cur.value;
      assert Placed(st, t) && ThreadTyped(st.threads[t], |st.semas|);
      if Wants(st.threads[t], step.a) == Some(s) {
        EndOfDown(st, t, step.a, s);
      }
    }
  }

  lemma EndOfDown(st: State, t: Tid, a: Action, s: SemaId)
    requires Shape(st) && OnCpu(st, t) && CanAct(st, t, a) && Wants(st.threads[t], a) == Some(s) && s < |st.semas|
    ensures Past(Perform(st, t, a), t) <==> st.semas[s].value > 0
  {
    match a
    case Acquire(l) =>
      var st1 := Await(st, t, l);
      AwaitFrame(st, t, l);
      if st1.semas[l].value > 0 {
        GrabPast(st1, t, l);
      } else {
        WaitPast(st1, t, l);
      }
    case Down(_) => if st.semas[s].value == 0 { WaitPast(st, t, s); }
    case Resume =>
      if st.semas[s].value == 0 {
        WaitPast(st, t, s);
      } else if st.semas[s].isLock {
        GrabPast(st, t, s);
      }
  }

  lemma GrabPast(st: State, t: Tid, l: SemaId)
    requires Shape(st) && OnCpu(st, t) && l < |st.semas| && st.semas[l].value > 0
    ensures Past(Grab(st, t, l), t)
  {
    TakeShape(st, t, l);
    assert ThreadTyped(Take(st, t, l).threads[t], |st.semas|);
  }

  lemma WaitPast(st: State, t: Tid, s: SemaId)
    requires Shape(st) && OnCpu(st, t) && s < |st.semas|
    ensures !Past(Wait(st, t, s), t)
  {
    var st1 := Park(st, t, s);
    ParkShape(st, t, s);
    assert Placed(st1, t);
    if st1.ready != [] {
      assert st1.ready[Top(st1.threads, st1.ready)] in st1.ready;
    }
  }

  // ---------------------------------------------------------------- semaphores over runs

  /** How many of the first i steps count s up. */
  ghost function Ups(steps: seq<Step>, s: SemaId, i: nat): nat
    requires i <= |steps|
  {
    if i == 0 then 0 else Ups(steps, s, i - 1) + if UpBy(steps[i - 1]) == Some(s) then 1 else 0
  }

  /** How many of them complete a down of s. */
  ghost function Downs(states: seq<State>, steps: seq<Step>, s: SemaId, i: nat): nat
    requires |states| == |steps| + 1 && i <= |steps|
  {
    if i == 0 then 0
    else Downs(states, steps, s, i - 1) + if Completes(states[i - 1], steps[i - 1], states[i], s) then 1 else 0
  }

  /** In every state of every run the value is the initial one plus the ups minus the completed downs. */
  lemma {:induction false} ValueCounts(states: seq<State>, steps: seq<Step>, s: SemaId, i: nat)
    requires IsKernelRun(states, steps) && i <= |steps| && s < |states[0].semas|
    ensures |states[i].semas| == |states[0].semas|
    ensures states[i].semas[s].value + Downs(states, steps, s, i) == states[0].semas[s].value + Ups(steps, s, i)
  {
    if i > 0 {
      ValueCounts(states, steps, s, i - 1);
      assert StepAt(states, steps, i - 1);
      StepEffect(states[i - 1], steps[i - 1]);
      CompletesExactly(states[i - 1], steps[i - 1], s);
      assert Changed(states[i - 1].threads, states[i - 1].cur, states[i - 1].semas[s], states[i].semas[s], UpBy(steps[i - 1]) == Some(s),
                     DownBy(states[i - 1], steps[i - 1]) == Some(s), BlockBy(states[i - 1], steps[i - 1]) == Some(s));
    }
  }

  // ---------------------------------------------------------------- locks over runs

  /** Whoever completes an acquire or a successful try holds the lock; nobody else's lock changes hands; and only
      its holder's release takes it away. */
  lemma StepHolder(st: State, step: Step, st': State, l: SemaId)
    requires Inv(st) && Enabled(st, step) && st' == Next(st, step) && l < |st.semas| && st.semas[l].isLock
    ensures |st'.semas| == |st.semas| && st'.semas[l].isLock
    ensures Completes(st, step, st', l) ==>
            && st.semas[l].holder == None && st'.semas[l].holder == st.cur && st'.semas[l].value == 0
            && st.cur.value < |st'.threads| && l in st'.threads[st.cur.value].held
    ensures step == Act(Release(l)) ==> st.semas[l].holder == st.cur && st'.semas[l].holder == None && st'.semas[l].value == 1
    ensures !Completes(st, step, st', l) && step != Act(Release(l)) ==> st'.semas[l].holder == st.semas[l].holder
  {
    StepEffect(st, step);
    CompletesExactly(st, step, l);
    StepInv(st, step);
    assert LockValue(st.semas[l]) && LockValue(st'.semas[l]);
    assert Changed(st.threads, st.cur, st.semas[l], st'.semas[l], UpBy(step) == Some(l), DownBy(st, step) == Some(l), BlockBy(st, step) == Some(l));
    if Completes(st, step, st', l) {
      assert SemaTyped(st'.semas[l], |st'.threads|);
    }
  }

  /** A lock, once taken, stays with the thread until that thread releases it. */
  lemma {:induction false} HeldUntilReleased(states: seq<State>, steps: seq<Step>, l: SemaId, i: nat, j: nat, t: Tid)
    requires IsKernelRun(states, steps) && i < j < |states| && l < |states[i].semas| && states[i].semas[l].isLock
    requires Completes(states[i], steps[i], states[i + 1], l) && states[i].cur == Some(t)
    requires forall k | i < k < j :: steps[k] != Act(Release(l))
    ensures |states[j].semas| == |states[i].semas| && states[j].semas[l].isLock
    ensures states[j].semas[l].holder == Some(t) && states[j].semas[l].value == 0
    decreases j
  {
    RunInv(states, steps, j - 1);
    assert StepAt(states, steps, j - 1);
    if j == i + 1 {
      StepHolder(states[i], steps[i], states[j], l);
    } else {
      HeldUntilReleased(states, steps, l, i, j - 1, t);
      StepHolder(states[j - 1], steps[j - 1], states[j], l);
      RunInv(states, steps, j);
      assert LockValue(states[j].semas[l]);
    }
  }

  /** Mutual exclusion over every run: between two successful acquires of a lock, whether waiting or trying, the
      first thread has released it. */
  lemma ReleasedBetween(states: seq<State>, steps: seq<Step>, l: SemaId, i: nat, j: nat) returns (k: nat)
    requires IsKernelRun(states, steps) && i < j < |steps| && l < |states[i].semas| && states[i].semas[l].isLock
    requires Completes(states[i], steps[i], states[i + 1], l) && Completes(states[j], steps[j], states[j + 1], l)
    ensures i < k < j && steps[k] == Act(Release(l)) && states[k].cur == states[i].cur
  {
    k := i + 1;
    while k < j && steps[k] != Act(Release(l))
      invariant i < k <= j && forall m | i < m < k :: steps[m] != Act(Release(l))
    {
      k := k + 1;
    }
    HeldUntilReleased(states, steps, l, i, k, states[i].cur.value);
    RunInv(states, steps, k);
    assert StepAt(states, steps, k);
    StepHolder(states[k], steps[k], states[k + 1], l);
  }

  // ---------------------------------------------------------------- waiters in order of arrival

  lemma BeforeRemove(q: seq<Tid>, k: nat, u: Tid, t: Tid, a: nat, b: nat)
    requires NoDup(q) && a < b < |q| && q[a] == u && q[b] == t && k < |q| && k != a && k != b
    ensures Before(q[..k] + q[k + 1..], u, t)
  {
    var r := q[..k] + q[k + 1..];
    var a', b' := if a < k then a else a - 1, if b < k then b else b - 1;
    assert r[a'] == u && r[b'] == t;
  }

  lemma QueuedKeepsTurn(ts: seq<Thread>, cur: Option<Tid>, q: seq<Tid>, q': seq<Tid>, up: bool, block: bool, u: Tid, t: Tid)
    requires Queued(ts, cur, q, q', up, block) && NoDup(q) && Before(q, u, t) && u in q'
    requires u < |ts| && t < |ts| && ts[t].priority <= ts[u].priority
    ensures Before(q', u, t)
  {
    var a, b :| 0 <= a < b < |q| && q[a] == u && q[b] == t;
    if up {
      var k: nat :| IsTop(ts, q, k) && q' == q[..k] + q[k + 1..];
      RemoveAt(q, k);
      BeforeRemove(q, k, u, t, a, b);
    } else {
      assert q'[a] == u && q'[b] == t;
    }
  }

  /** No step wakes t before u, if u came first and is no less urgent. */
  lemma StepKeepsTurn(st: State, step: Step, st': State, s: SemaId, u: Tid, t: Tid)
    requires Inv(st) && Enabled(st, step) && st' == Next(st, step) && s < |st.semas| && s < |st'.semas|
    requires Before(st.semas[s].waiters, u, t) && u in st'.semas[s].waiters
    requires u < |st.threads| && t < |st.threads| && st.threads[t].priority <= st.threads[u].priority
    ensures AsUnit(Before(st'.semas[s].waiters, u, t))
  {
    StepQueued(st, step, st', s);
    QueuedKeepsTurn(st.threads, st.cur, st.semas[s].waiters, st'.semas[s].waiters, UpBy(step) == Some(s), BlockBy(st, step) == Some(s), u, t);
  }

  lemma StepQueued(st: State, step: Step, st': State, s: SemaId)
    requires Shape(st) && Enabled(st, step) && st' == Next(st, step) && s < |st.semas| && s < |st'.semas|
    ensures AsUnit(Queued(st.threads, st.cur, st.semas[s].waiters, st'.semas[s].waiters, UpBy(step) == Some(s), BlockBy(st, step) == Some(s)))
  {
    StepEffect(st, step);
    assert Changed(st.threads, st.cur, st.semas[s], st'.semas[s], UpBy(step) == Some(s), DownBy(st, step) == Some(s), BlockBy(st, step) == Some(s));
  }

  /** Over every run: if t blocks on s while u waits there, then for as long as u waits on and is no less urgent,
      t waits on behind it. */
  lemma {:induction false} WaitersFifo(states: seq<State>, steps: seq<Step>, s: SemaId, i: nat, j: nat, u: Tid, t: Tid)
    requires IsKernelRun(states, steps) && i < j < |states| && states[i].cur == Some(t)
    requires BlockBy(states[i], steps[i]) == Some(s) && u < |states[i].threads|
    requires forall m | i <= m <= j :: s < |states[m].semas| && u in states[m].semas[s].waiters
    requires forall m | i < m < j :: u < |states[m].threads| && t < |states[m].threads|
                                     && states[m].threads[t].priority <= states[m].threads[u].priority
    ensures Before(states[j].semas[s].waiters, u, t)
    decreases j
  {
    assert StepAt(states, steps, j - 1);
    RunInv(states, steps, j - 1);
    if j == i + 1 {
      BlocksBehind(states[i], steps[i], states[j], s, u, t);
    } else {
      WaitersFifo(states, steps, s, i, j - 1, u, t);
      StepKeepsTurn(states[j - 1], steps[j - 1], states[j], s, u, t);
    }
  }

  lemma BlocksBehind(st: State, step: Step, st': State, s: SemaId, u: Tid, t: Tid)
    requires Inv(st) && Enabled(st, step) && st' == Next(st, step) && st.cur == Some(t) && BlockBy(st, step) == Some(s)
    requires s < |st.semas| && s < |st'.semas| && u in st.semas[s].waiters
    ensures AsUnit(Before(st'.semas[s].waiters, u, t))
  {
    StepQueued(st, step, st', s);
    var q, q' := st.semas[s].waiters, st'.semas[s].waiters;
    var a :| 0 <= a < |q| && q[a] == u;
    assert q' == q + [t];
    assert q'[a] == u && q'[|q|] == t;
  }

  // ---------------------------------------------------------------- the clock

  /** How many of the first i steps are timer interrupts. */
  ghost function Ticks(steps: seq<Step>, i: nat): nat
    requires i <= |steps|
  {
    if i == 0 then 0 else Ticks(steps, i - 1) + if steps[i - 1].Tick? then 1 else 0
  }

  lemma StepTicks(st: State, step: Step)
    requires Shape(st) && Enabled(st, step)
    ensures Next(st, step).ticks == st.ticks + if step.Tick? then 1 else 0
  {
    match step
    case Act(a) =>
      assert Placed(st, st.cur.value);
      PerformTicks(st, st.cur.value, a);
    case Idle =>
    case UpFromInterrupt(s) =>
    case Tick(expired) => TickSemas(st, expired);
  }

  lemma PerformTicks(st: State, t: Tid, a: Action)
    requires Shape(st) && OnCpu(st, t) && CanAct(st, t, a)
    ensures Perform(st, t, a).ticks == st.ticks
  {
    assert ThreadTyped(st.threads[t], |st.semas|);
    if a.Acquire? {
      AwaitFrame(st, t, a.l);
    }
  }

  /** The clock counts the timer interrupts. */
  lemma {:induction false} ClockCounts(states: seq<State>, steps: seq<Step>, i: nat)
    requires IsKernelRun(states, steps) && i <= |steps|
    ensures states[i].ticks == states[0].ticks + Ticks(steps, i)
  {
    if i > 0 {
      ClockCounts(states, steps, i - 1);
      assert StepAt(states, steps, i - 1);
      StepTicks(states[i - 1], steps[i - 1]);
    }
  }
}
