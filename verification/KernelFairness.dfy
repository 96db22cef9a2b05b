/** Who goes first: sleepers with the same wakeup time, and ready threads of the same priority. */
module KernelFairness {
  import opened Common
  import opened Ordering
  import opened KernelState
  import opened KernelDonation
  import opened KernelSteps
  import opened KernelShape
  import opened KernelOps
  import opened KernelSync
  import opened KernelRuns
  import opened KernelTiming

  // ---------------------------------------------------------------- sleepers wake in order of arrival

  lemma BeforeInsert(q: seq<Tid>, p: nat, x: Tid, u: Tid, t: Tid)
    requires Before(q, u, t) && p <= |q|
    ensures Before(q[..p] + [x] + q[p..], u, t)
  {
    var r := q[..p] + [x] + q[p..];
    var a, b :| 0 <= a < b < |q| && q[a] == u && q[b] == t;
    var a', b' := if a < p then a else a + 1, if b < p then b else b + 1;
    assert r[a'] == u && r[b'] == t;
  }

  lemma BeforeSuffix(q: seq<Tid>, k: nat, u: Tid, t: Tid)
    requires Before(q, u, t) && NoDup(q) && k <= |q| && u in q[k..]
    ensures Before(q[k..], u, t)
  {
    var a, b :| 0 <= a < b < |q| && q[a] == u && q[b] == t;
    var c :| 0 <= c < |q[k..]| && q[k..][c] == u;
    assert q[k + c] == q[a];
    assert q[k..][a - k] == u && q[k..][b - k] == t;
  }

  /** A new sleeper is behind everyone who is to wake no later. */
  lemma JoinsBehind(st: State, st': State, t: Tid, until: int, u: Tid)
    requires NewSleeper(st, st', t, until) && u in st.sleeping && u < |st.threads| && st.threads[u].wakeup <= until
    ensures Before(st'.sleeping, u, t)
  {
    var p: nat :| InsertedAt(st, st', t, until, p);
    var a :| 0 <= a < |st.sleeping| && st.sleeping[a] == u;
    assert a < p;
    assert st'.sleeping[a] == u && st'.sleeping[p] == t;
  }

  /** While u sleeps on, no step puts t before it or wakes t. */
  lemma StepKeepsOrder(st: State, step: Step, st': State, u: Tid, t: Tid)
    requires Inv(st) && Enabled(st, step) && st' == Next(st, step)
    requires Before(st.sleeping, u, t) && u in st'.sleeping
    ensures Before(st'.sleeping, u, t)
  {
    match step
    case Act(a) =>
      assert Placed(st, st.cur.value);
      PerformSleepers(st, st.cur.value, a);
      if a.Sleep? {
        var p: nat :| InsertedAt(st, st', st.cur.value, a.until, p);
        BeforeInsert(st.sleeping, p, st.cur.value, u, t);
      }
    case Idle => DispatchSleepers(st);
    case UpFromInterrupt(s) => WakeKeepsFields(st, s);
    case Tick(expired) =>
      var st1, st2, k := TickedRouses(st);
      TimerSleepers(st, expired, st2);
      BeforeSuffix(st.sleeping, k, u, t);
  }

  /** Over every run: if t goes to sleep while u is asleep until no later a time, then for as long as u
      sleeps on, t sleeps on behind it. */
  lemma {:induction false} SleepersFifo(states: seq<State>, steps: seq<Step>, i: nat, j: nat, u: Tid, t: Tid, until: int)
    requires IsKernelRun(states, steps) && i < j < |states|
    requires steps[i] == Act(Sleep(until)) && states[i].cur == Some(t)
    requires u < |states[i].threads| && states[i].threads[u].wakeup <= until
    requires forall m | i <= m <= j :: u in states[m].sleeping
    ensures Before(states[j].sleeping, u, t)
    decreases j
  {
    assert StepAt(states, steps, j - 1);
    RunInv(states, steps, j - 1);
    if j == i + 1 {
      assert Placed(states[i], t);
      PerformSleepers(states[i], t, Sleep(until));
      JoinsBehind(states[i], states[j], t, until, u);
    } else {
      SleepersFifo(states, steps, i, j - 1, u, t, until);
      StepKeepsOrder(states[j - 1], steps[j - 1], states[j], u, t);
    }
  }

  /** And the interrupt that wakes t wakes u too, unless u is awake already, and makes u ready first. */
  lemma WokenInOrder(states: seq<State>, steps: seq<Step>, i: nat, j: nat, u: Tid, t: Tid, until: int)
    requires IsKernelRun(states, steps) && i < j < |steps| && steps[j].Tick?
    requires steps[i] == Act(Sleep(until)) && states[i].cur == Some(t)
    requires u < |states[i].threads| && states[i].threads[u].wakeup <= until
    requires forall m | i <= m <= j :: u in states[m].sleeping
    ensures Shape(states[j])
    ensures t !in Ticked(states[j]).sleeping ==> u !in Ticked(states[j]).sleeping && Before(Ticked(states[j]).ready, u, t)
  {
    SleepersFifo(states, steps, i, j, u, t, until);
    RunInv(states, steps, j);
    var st := states[j];
    var st1, st2, k := TickedRouses(st);
    RousedInOrder(st.ready, st.sleeping, k, u, t);
  }

  lemma RousedInOrder(ready: seq<Tid>, q: seq<Tid>, k: nat, u: Tid, t: Tid)
    requires Before(q, u, t) && NoDup(q) && k <= |q|
    ensures t !in q[k..] ==> u !in q[k..] && Before(ready + q[..k], u, t)
  {
    var a, b :| 0 <= a < b < |q| && q[a] == u && q[b] == t;
    if b >= k {
      assert q[k..][b - k] == t;
    } else {
      var r := ready + q[..k];
      assert r[|ready| + a] == u && r[|ready| + b] == t;
    }
  }

  // ---------------------------------------------------------------- bounded waiting

  /** The step calls schedule. */
  predicate Schedules(st: State, step: Step)
    requires Enabled(st, step)
  {
    match step
    case Act(a) => Reschedules(st, st.cur.value, a)
    case Idle => true
    case UpFromInterrupt(_) => false
    case Tick(expired) => expired
  }

  predicate Reschedules(st: State, t: Tid, a: Action)
    requires t < |st.threads| && CanAct(st, t, a)
  {
    match a
    case Acquire(l) => st.semas[l].value == 0
    case Down(s) => st.semas[s].value == 0
    case Resume =>
      var pc := st.threads[t].pc;
      if pc.InDown? then pc.sema < |st.semas| && st.semas[pc.sema].value == 0 else pc == Yielding
    case Release(_) => true
    case GiveWay => true
    case Sleep(_) => true
    case _ => false
  }

  /** A step only appends to the ready list and then, if it calls schedule, lets Dispatch choose. */
  ghost predicate Queues(st: State, st': State, scheduled: bool, mid: State, more: seq<Tid>) {
    && mid.ready == st.ready + more
    && if scheduled then Shape(mid) && mid.cur == None && st' == Dispatch(mid) else st' == mid
  }

  lemma YieldQueues(st: State, t: Tid) returns (mid: State)
    requires Shape(st) && OnCpu(st, t)
    ensures Queues(st, Yield(st, t), true, mid, [t])
  {
    mid := Deschedule(st, t);
    DescheduleShape(st, t);
  }

  lemma WaitQueues(st: State, t: Tid, s: SemaId) returns (mid: State)
    requires Shape(st) && OnCpu(st, t) && s < |st.semas|
    ensures Queues(st, Wait(st, t, s), true, mid, [])
  {
    mid := Park(st, t, s);
    ParkShape(st, t, s);
    assert st.ready + [] == st.ready;
  }

  lemma AcquireQueues(st: State, t: Tid, l: SemaId) returns (mid: State)
    requires Shape(st) && AtCpu(st, t, Free) && l < |st.semas| && st.semas[l].isLock && st.semas[l].holder != Some(t)
    ensures Queues(st, LockAcquire(st, t, l), st.semas[l].value == 0, mid, [])
  {
    var st1 := Await(st, t, l);
    AwaitFrame(st, t, l);
    if st1.semas[l].value > 0 {
      GrabFrame(st1, t, l);
      mid := Grab(st1, t, l);
    } else {
      mid := WaitQueues(st1, t, l);
    }
    assert st.ready + [] == st.ready;
  }

  lemma WakeQueues(st: State, s: SemaId) returns (more: seq<Tid>)
    requires Typed(st) && s < |st.semas|
    ensures Wake(st, s).ready == st.ready + more
  {
    var x := st.semas[s];
    assert SemaTyped(x, |st.threads|);
    more := if x.waiters == [] then [] else [x.waiters[Top(st.threads, x.waiters)]];
    assert st.ready + [] == st.ready;
  }

  lemma ReleaseQueues(st: State, t: Tid, l: SemaId) returns (mid: State, more: seq<Tid>)
    requires Shape(st) && AtCpu(st, t, Free) && l < |st.semas| && st.semas[l].isLock && st.semas[l].holder == Some(t)
    ensures Queues(st, LockRelease(st, t, l), true, mid, more)
  {
    var st0, st1 := Disown(st, t, l), GiveUp(st, t, l);
    DisownShape(st, t, l);
    more := WakeQueues(st0, l);
    var st2 := SetThread(st1, t, st1.threads[t].(pc := InRelease(l)));
    assert ThreadTyped(st1.threads[t], |st1.semas|);
    UpdateShape(st1, t, st2.threads[t]);
    mid := YieldQueues(st2, t);
    more := more + [t];
  }

  lemma ResumeQueues(st: State, t: Tid) returns (mid: State, more: seq<Tid>)
    requires Shape(st) && OnCpu(st, t) && CanAct(st, t, Resume)
    ensures Queues(st, Perform(st, t, Resume), Reschedules(st, t, Resume), mid, more)
  {
    var pc := st.threads[t].pc;
    assert ThreadTyped(st.threads[t], |st.semas|);
    more := [];
    assert st.ready + [] == st.ready;
    if pc.InDown? {
      if st.semas[pc.sema].value == 0 {
        mid := WaitQueues(st, t, pc.sema);
      } else {
        mid := Retry(st, t, pc.sema);
        if st.semas[pc.sema].isLock {
          GrabFrame(st, t, pc.sema);
        }
      }
    } else if pc.InRelease? {
      mid := FinishRelease(st, t, pc.lck);
    } else {
      var st1 := SetThread(st, t, st.threads[t].(pc := Free));
      UpdateShape(st, t, st1.threads[t]);
      mid := YieldQueues(st1, t);
      more := [t];
    }
  }

  lemma TickQueues(st: State, expired: bool) returns (mid: State, more: seq<Tid>)
    requires Inv(st)
    ensures Queues(st, TimerInterrupt(st, expired), expired, mid, more)
  {
    var st1, st2, k := TickedRouses(st);
    more := st.sleeping[..k];
    mid := st2;
    if expired && st2.cur.Some? {
      assert Placed(st2, st2.cur.value);
      mid := YieldQueues(st2, st2.cur.value);
      more := more + [st2.cur.value];
    }
  }

  lemma PerformQueues(st: State, t: Tid, a: Action) returns (mid: State, more: seq<Tid>)
    requires Inv(st) && OnCpu(st, t) && CanAct(st, t, a)
    ensures Queues(st, Perform(st, t, a), Reschedules(st, t, a), mid, more)
  {
    assert ThreadTyped(st.threads[t], |st.semas|);
    assert st.ready + [] == st.ready;
    mid, more := Perform(st, t, a), [];
    match a
    case Acquire(l) => mid := AcquireQueues(st, t, l);
    case TryAcquire(l) => if st.semas[l].value > 0 { GrabFrame(st, t, l); }
    case Release(l) => mid, more := ReleaseQueues(st, t, l);
    case Down(s) => if st.semas[s].value == 0 { mid := WaitQueues(st, t, s); }
    case TryDown(s) =>
    case Up(s) =>
      more := WakeQueues(st, s);
      WakeKeepsCpu(st, t, s);
    case Resume => mid, more := ResumeQueues(st, t);
    case GiveWay =>
      mid := YieldQueues(st, t);
      more := [t];
    case Sleep(until) =>
      mid := FallAsleep(st, t, until);
      FallAsleepShape(st, t, until);
    case Priority(p) =>
    case Create(p) =>
      more := [|st.threads|];
      SpawnShape(st, t, p);
  }

  lemma StepQueues(st: State, step: Step) returns (mid: State, more: seq<Tid>)
    requires Inv(st) && Enabled(st, step)
    ensures Queues(st, Next(st, step), Schedules(st, step), mid, more)
  {
    match step
    case Act(a) =>
      assert Placed(st, st.cur.value);
      mid, more := PerformQueues(st, st.cur.value, a);
    case Idle =>
      mid, more := st, [];
      assert st.ready + [] == st.ready;
    case UpFromInterrupt(s) =>
      mid := Wake(st, s);
      more := WakeQueues(st, s);
    case Tick(expired) => mid, more := TickQueues(st, expired);
  }

  /** A step that calls schedule ends with the most urgent thread on the CPU, or with nobody ready. */
  lemma StepChooses(st: State, step: Step, st': State)
    requires Inv(st) && Enabled(st, step) && st' == Next(st, step) && Schedules(st, step)
    ensures st'.cur == None ==> st'.ready == []
    ensures st'.cur.Some? ==> st'.cur.value < |st'.threads|
    ensures st'.cur.Some? ==> forall u | u in st'.ready :: u < |st'.threads| && st'.threads[u].priority <= st'.threads[st'.cur.value].priority
  {
    var mid, more := StepQueues(st, step);
    if mid.ready != [] {
      var k := Top(mid.threads, mid.ready);
      assert Placed(mid, mid.ready[k]);
      forall u | u in st'.ready ensures u < |st'.threads| && st'.threads[u].priority <= st'.threads[mid.ready[k]].priority {
        assert u in mid.ready;
        var j :| 0 <= j < |mid.ready| && mid.ready[j] == u;
      }
    }
  }

  /** The steps after which the thread has still to yield: sema_up, thread_set_priority, thread_create, and the end of
      lock_release. */
  ghost predicate YieldsLater(st: State, step: Step) {
    && step.Act? && st.cur.Some? && st.cur.value < |st.threads|
    && (step.a.Up? || step.a.Priority? || step.a.Create? || (step.a.Resume? && st.threads[st.cur.value].pc.InRelease?))
  }

  /** After such a step the running thread can do nothing before it has called schedule. */
  lemma MustYield(st: State, step: Step, st': State)
    requires Inv(st) && Enabled(st, step) && st' == Next(st, step) && YieldsLater(st, step)
    ensures st'.cur == st.cur && st.cur.value < |st'.threads|
    ensures forall a | CanAct(st', st.cur.value, a) :: Schedules(st', Act(a))
  {
    var t := st.cur.value;
    assert Placed(st, t) && ThreadTyped(st.threads[t], |st.semas|);
    if step.a.Up? {
      WakeKeepsCpu(st, t, step.a.s);
    } else if step.a.Create? {
      SpawnShape(st, t, step.a.p);
    }
    assert st'.threads[t].pc == Yielding;
  }

  /** Threads of the same priority ahead of t. */
  function Ahead(ts: seq<Thread>, q: seq<Tid>, t: Tid): nat
    requires t < |ts| && Ids(q, |ts|)
  {
    if q == [] || q[0] == t then 0
    else (if ts[q[0]].priority == ts[t].priority then 1 else 0) + Ahead(ts, q[1..], t)
  }

  lemma {:induction false} AheadAppend(ts: seq<Thread>, q: seq<Tid>, more: seq<Tid>, t: Tid)
    requires t < |ts| && Ids(q + more, |ts|) && t in q
    ensures Ids(q, |ts|) && Ahead(ts, q + more, t) == Ahead(ts, q, t)
  {
    assert forall k | 0 <= k < |q| :: q[k] == (q + more)[k];
    if q[0] != t {
      assert t in q[1..];
      assert (q + more)[1..] == q[1..] + more;
      AheadAppend(ts, q[1..], more, t);
    }
  }

  lemma {:induction false} AheadSame(ts: seq<Thread>, ts': seq<Thread>, q: seq<Tid>, t: Tid)
    requires t < |ts| && t < |ts'| && Ids(q, |ts|) && Ids(q, |ts'|) && ts'[t].priority == ts[t].priority
    requires forall k | 0 <= k < |q| :: ts'[q[k]].priority == ts[q[k]].priority
    ensures Ahead(ts', q, t) == Ahead(ts, q, t)
  {
    if q != [] && q[0] != t {
      AheadSame(ts, ts', q[1..], t);
    }
  }

  /** If the thread taken is not t, it was one of t's equals ahead of it. */
  lemma {:induction false} AheadSchedule(ts: seq<Thread>, q: seq<Tid>, t: Tid, k: nat)
    requires t < |ts| && Ids(q, |ts|) && t in q && k < |q|
    requires ts[q[k]].priority == ts[t].priority && (forall j | 0 <= j < k :: ts[q[j]].priority < ts[t].priority)
    requires q[k] != t
    ensures t in q[..k] + q[k + 1..] && Ids(q[..k] + q[k + 1..], |ts|)
    ensures Ahead(ts, q[..k] + q[k + 1..], t) == Ahead(ts, q, t) - 1
  {
    OneOut(q, |ts|, t, k);
    if k == 0 {
      assert q[..0] + q[1..] == q[1..];
    } else {
      assert t in q[1..];
      AheadSchedule(ts, q[1..], t, k - 1);
      TailOut(q, k);
    }
  }

  lemma OneOut(q: seq<Tid>, n: nat, t: Tid, k: nat)
    requires Ids(q, n) && t in q && k < |q| && q[k] != t
    ensures t in q[..k] + q[k + 1..] && Ids(q[..k] + q[k + 1..], n)
  {
    var r := q[..k] + q[k + 1..];
    assert q == q[..k] + [q[k]] + q[k + 1..];
    forall j | 0 <= j < |r| ensures r[j] < n {
      assert r[j] == if j < k then q[j] else q[j + 1];
    }
  }

  lemma TailOut(q: seq<Tid>, k: nat)
    requires 0 < k < |q|
    ensures var r := q[..k] + q[k + 1..]; r[0] == q[0] && r[1..] == q[1..][..k - 1] + q[1..][k..]
  {
  }

  /** Thread t is at least as urgent as every ready thread and the running one. */
  ghost predicate Foremost(st: State, t: Tid) {
    t < |st.threads| && forall u | 0 <= u < |st.threads| && (u in st.ready || st.cur == Some(u)) ::
      st.threads[u].priority <= st.threads[t].priority
  }

  /** No ready thread's priority changes. */
  ghost predicate Steady(st: State, st': State) {
    forall u | u in st.ready && u < |st.threads| :: u < |st'.threads| && st'.threads[u].priority == st.threads[u].priority
  }

  /** A step chooses t, or leaves t's place if it does not call schedule and brings t one forward if it does. */
  lemma StepAhead(st: State, step: Step, st': State, t: Tid)
    requires Inv(st) && Enabled(st, step) && st' == Next(st, step)
    requires t in st.ready && Foremost(st', t) && Steady(st, st')
    ensures t < |st.threads| && Shape(st')
    ensures st'.cur == Some(t)
            || (t in st'.ready
                && Ahead(st'.threads, st'.ready, t) == Ahead(st.threads, st.ready, t) - if Schedules(st, step) then 1 else 0)
  {
    var mid, more := StepQueues(st, step);
    var i :| 0 <= i < |st.ready| && st.ready[i] == t;
    assert mid.ready[i] == t;
    KeepsIds(st, st', t);
    AheadSame(st.threads, st'.threads, st.ready, t);
    if Schedules(st, step) {
      ChosenAhead(mid, st', t);
      AheadAppend(st'.threads, st.ready, more, t);
    } else {
      AheadAppend(st'.threads, st.ready, more, t);
    }
  }

  lemma KeepsIds(st: State, st': State, t: Tid)
    requires Typed(st) && t in st.ready && Steady(st, st')
    ensures t < |st.threads| && t < |st'.threads| && Ids(st.ready, |st'.threads|)
    ensures st'.threads[t].priority == st.threads[t].priority
    ensures forall k | 0 <= k < |st.ready| :: st'.threads[st.ready[k]].priority == st.threads[st.ready[k]].priority
  {
    var i :| 0 <= i < |st.ready| && st.ready[i] == t;
    forall k | 0 <= k < |st.ready|
      ensures st.ready[k] < |st'.threads| && st'.threads[st.ready[k]].priority == st.threads[st.ready[k]].priority
    {
      assert st.ready[k] in st.ready;
    }
  }

  /** What Dispatch does to t's place. */
  lemma ChosenAhead(mid: State, st': State, t: Tid)
    requires Shape(mid) && mid.cur == None && st' == Dispatch(mid) && t in mid.ready && Foremost(st', t)
    ensures |st'.threads| == |mid.threads|
    ensures st'.cur == Some(t)
            || (t in st'.ready && Ids(st'.ready, |st'.threads|)
                && Ahead(st'.threads, st'.ready, t) == Ahead(st'.threads, mid.ready, t) - 1)
  {
    var q, k := mid.ready, Top(mid.threads, mid.ready);
    var c := q[k];
    assert forall u | 0 <= u < |mid.threads| :: st'.threads[u].priority == mid.threads[u].priority;
    if c != t {
      var i :| 0 <= i < |q| && q[i] == t;
      assert st'.threads[c].priority == st'.threads[t].priority;
      AheadSchedule(st'.threads, q, t, k);
    }
  }

  /** The calls of schedule in the steps from i to j. */
  ghost function ScheduleCount(states: seq<State>, steps: seq<Step>, i: nat, j: nat): nat
    requires Follows(states, steps) && i <= j <= |steps|
    decreases j - i
  {
    if i == j then 0
    else
      assert StepAt(states, steps, i);
      (if Schedules(states[i], steps[i]) then 1 else 0) + ScheduleCount(states, steps, i + 1, j)
  }

  /** Bounded waiting, over every run: a ready thread with k equals ahead of it, which stays at least as
      urgent as every ready thread and the running one while priorities stand still, is on the CPU by the
      time schedule has been called k + 1 times. */
  lemma {:induction false} BoundedWaiting(states: seq<State>, steps: seq<Step>, i: nat, j: nat, t: Tid)
    requires IsKernelRun(states, steps) && i <= j <= |steps|
    requires t in states[i].ready && Ids(states[i].ready, |states[i].threads|) && t < |states[i].threads|
    requires forall m | i <= m <= j :: Foremost(states[m], t)
    requires forall m | i <= m < j :: Steady(states[m], states[m + 1])
    requires ScheduleCount(states, steps, i, j) >= Ahead(states[i].threads, states[i].ready, t) + 1
    ensures exists m :: i < m <= j && states[m].cur == Some(t)
    decreases j - i
  {
    RunInv(states, steps, i);
    assert StepAt(states, steps, i);
    assert Steady(states[i], states[i + 1]);
    StepAhead(states[i], steps[i], states[i + 1], t);
    if states[i + 1].cur != Some(t) {
      BoundedWaiting(states, steps, i + 1, j, t);
    }
  }
}
