/** Donation is exact: what every step does to every priority and to every lock's donation.

    A thread's priority moves only to its own priority, when it holds no lock, or to the greatest donation
    among the locks it holds; a lock's donation moves only to the priority of a thread that waits for it, or,
    when its release ends, to the greatest priority on its wait list. */
module KernelExact {
  import opened Common
  import opened KernelState
  import opened KernelDonation
  import opened KernelSteps
  import opened KernelShape
  import opened KernelOps
  import opened KernelSync
  import opened KernelRuns
  import opened KernelLaws

  /** m is the greatest donation among the locks. */
  ghost predicate TopDonation(ls: seq<Sema>, held: seq<SemaId>, m: int) {
    && Ids(held, |ls|) && (forall k | 0 <= k < |held| :: ls[held[k]].maxPriority <= m)
    && exists k | 0 <= k < |held| :: ls[held[k]].maxPriority == m
  }

  /** A thread that was at priority p takes its place: its own priority without locks, else the greatest
      donation if that is more than its own priority. */
  ghost predicate InPlace(p: int, th: Thread, ls: seq<Sema>) {
    if th.held == [] then th.priority == th.intrinsic
    else exists m :: TopDonation(ls, th.held, m) && th.priority == if th.intrinsic < m then m else p
  }

  lemma AdjustedPlaced(th: Thread, ls: seq<Sema>)
    requires Ids(th.held, |ls|)
    ensures InPlace(th.priority, Adjusted(th, ls), ls)
  {
    if th.held != [] {
      assert TopDonation(ls, th.held, MaxDonation(ls, th.held));
    }
  }

  // ---------------------------------------------------------------- flush_priority

  ghost predicate SameLocksOf(held: seq<SemaId>, ls: seq<Sema>, ls': seq<Sema>) {
    forall k | 0 <= k < |held| && held[k] < |ls| && held[k] < |ls'| :: ls'[held[k]].maxPriority == ls[held[k]].maxPriority
  }

  /** A thread none of whose locks changed is as it was, and any other takes its place. */
  ghost predicate Settled(th: Thread, th': Thread, ls: seq<Sema>, ls': seq<Sema>) {
    || (th'.priority == th.priority && SameLocksOf(th.held, ls, ls'))
    || (th.held != [] && InPlace(th.priority, th', ls'))
  }

  /** A lock's donation is as it was, or has risen to the priority of a thread that waits for it. */
  ghost predicate Risen(ts: seq<Thread>, ts': seq<Thread>, x: Sema, x': Sema, l: SemaId) {
    || x'.maxPriority == x.maxPriority
    || (x.maxPriority < x'.maxPriority && |ts'| == |ts| && exists v :: RaisedBy(ts, ts', v, l, x'.maxPriority))
  }

  ghost predicate RaisedBy(ts: seq<Thread>, ts': seq<Thread>, v: int, l: SemaId, m: int)
    requires |ts'| == |ts|
  {
    0 <= v < |ts| && ts[v].waiting == Some(l) && (ts[v].priority == m || ts'[v].priority == m)
  }

  ghost predicate Donated(ts: seq<Thread>, ls: seq<Sema>, ts': seq<Thread>, ls': seq<Sema>, t: Tid) {
    && OnlyPriorities(ts, ls, ts', ls')
    && (forall u | 0 <= u < |ts| :: Settled(ts[u], ts'[u], ls, ls'))
    && (forall l | 0 <= l < |ls| :: Risen(ts, ts', ls[l], ls'[l], l))
    && (forall u | 0 <= u < |ts| :: u == t || ts'[u].priority != ts[u].priority ==> Passed(ts'[u], ls'))
  }

  /** The thread's priority has been passed on to the lock it waits for. */
  ghost predicate Passed(th: Thread, ls: seq<Sema>) {
    th.waiting.Some? && th.waiting.value < |ls| ==> th.priority <= ls[th.waiting.value].maxPriority
  }

  lemma StopDonated(ts: seq<Thread>, ls: seq<Sema>, t: Tid, ls': seq<Sema>)
    requires t < |ts| && Owned(ts, ls) && (ts[t].waiting.Some? ==> ts[t].waiting.value < |ls|)
    requires if ts[t].waiting.Some? && ts[t].priority > ls[ts[t].waiting.value].maxPriority
             then ls[ts[t].waiting.value].holder == None && ls' == Raise(ls, ts[t].waiting.value, ts[t].priority)
             else ls' == ls
    ensures Donated(ts, ls, ts, ls', t)
  {
    forall l | 0 <= l < |ls| ensures Risen(ts, ts, ls[l], ls'[l], l) {
      if ls'[l].maxPriority != ls[l].maxPriority {
        assert RaisedBy(ts, ts, t, l, ls'[l].maxPriority);
      }
    }
    forall u | 0 <= u < |ts| ensures Settled(ts[u], ts[u], ls, ls') {
      forall k | 0 <= k < |ts[u].held| && ts[u].held[k] < |ls| ensures ls'[ts[u].held[k]].maxPriority == ls[ts[u].held[k]].maxPriority {
        assert ts[u].held[k] in ts[u].held;
      }
    }
  }

  lemma {:induction false} FlushExact(ts: seq<Thread>, ls: seq<Sema>, t: Tid, cap: int, ts': seq<Thread>, ls': seq<Sema>)
    requires t < |ts| && Links(ts, ls) && Capped(ts, ls, cap) && Owned(ts, ls) && (ts', ls') == Flush(ts, ls, t, cap)
    ensures AsUnit(Donated(ts, ls, ts', ls', t))
    decreases Slack(ls, cap)
  {
    assert ThreadTyped(ts[t], |ls|);
    if ts[t].waiting.Some? && ts[t].priority > ls[ts[t].waiting.value].maxPriority && ls[ts[t].waiting.value].holder.Some? {
      var l := ts[t].waiting.value;
      var x := ls[l].holder.value;
      assert SemaTyped(ls[l], |ts|);
      SlackRaise(ls, l, ts[t].priority, cap);
      TurnKeepsTypes(ts, ls, t, cap);
      var ls1 := Raise(ls, l, ts[t].priority);
      var ts1 := ts[x := Adjusted(ts[x], ls1)];
      TurnTurned(ts, ls, t, l, x);
      FlushExact(ts1, ls1, x, cap, ts', ls');
      DonatedOn(ts, ls, ts1, ls1, ts', ls', t, l, x);
    } else {
      StopDonated(ts, ls, t, ls');
    }
  }

  /** A first turn, which raised lock l and placed its holder x, and the rest. */
  ghost predicate Turned(ts: seq<Thread>, ls: seq<Sema>, ts1: seq<Thread>, ls1: seq<Sema>, t: Tid, l: SemaId, x: Tid) {
    && t < |ts| && x < |ts| && l < |ls| && Owned(ts, ls) && ts[t].waiting == Some(l) && ls[l].holder == Some(x)
    && ls[l].maxPriority < ts[t].priority && ls1 == Raise(ls, l, ts[t].priority)
    && |ts1| == |ts| && (forall u | 0 <= u < |ts| && u != x :: ts1[u] == ts[u])
    && ts1[x] == ts[x].(priority := ts1[x].priority) && InPlace(ts[x].priority, ts1[x], ls1)
  }

  lemma TurnTurned(ts: seq<Thread>, ls: seq<Sema>, t: Tid, l: SemaId, x: Tid)
    requires t < |ts| && Links(ts, ls) && Owned(ts, ls) && l < |ls| && x < |ts|
    requires ts[t].waiting == Some(l) && ls[l].holder == Some(x) && ls[l].maxPriority < ts[t].priority
    ensures Ids(ts[x].held, |ls|)
    ensures var ls1 := Raise(ls, l, ts[t].priority);
            var ts1 := ts[x := Adjusted(ts[x], ls1)];
            AsUnit(Turned(ts, ls, ts1, ls1, t, l, x)) && AsUnit(Owned(ts1, ls1))
  {
    assert ThreadTyped(ts[x], |ls|);
    AdjustedPlaced(ts[x], Raise(ls, l, ts[t].priority));
  }

  lemma DonatedOn(ts: seq<Thread>, ls: seq<Sema>, ts1: seq<Thread>, ls1: seq<Sema>, ts': seq<Thread>, ls': seq<Sema>,
                  t: Tid, l: SemaId, x: Tid)
    requires Turned(ts, ls, ts1, ls1, t, l, x) && Donated(ts1, ls1, ts', ls', x)
    ensures AsUnit(Donated(ts, ls, ts', ls', t))
  {
    assert OnlyPriorities(ts, ls, ts', ls') by {
      forall u | 0 <= u < |ts| ensures ts'[u] == ts[u].(priority := ts'[u].priority) {
        assert ts'[u] == ts1[u].(priority := ts'[u].priority);
      }
      forall s | 0 <= s < |ls| ensures ls'[s] == ls[s].(maxPriority := ls'[s].maxPriority) {
        assert ls'[s] == ls1[s].(maxPriority := ls'[s].maxPriority);
      }
    }
    forall u | 0 <= u < |ts| ensures Settled(ts[u], ts'[u], ls, ls') {
      if u == x {
        HolderSettled(ts, ls, ts1, ls1, ts', ls', t, l, x);
      } else {
        OtherSettled(ts, ls, ts1, ls1, ts', ls', t, l, x, u);
      }
    }
    forall r | 0 <= r < |ls| ensures Risen(ts, ts', ls[r], ls'[r], r) {
      LockRisen(ts, ls, ts1, ls1, ts', ls', t, l, x, r);
    }
    forall u | 0 <= u < |ts| && (u == t || ts'[u].priority != ts[u].priority) ensures Passed(ts'[u], ls') {
      assert ts'[u] == ts1[u].(priority := ts'[u].priority);
      assert u == x || ts'[u].priority != ts1[u].priority ==> Passed(ts'[u], ls');
      assert Risen(ts1, ts', ls1[l], ls'[l], l);
    }
  }

  lemma OtherSettled(ts: seq<Thread>, ls: seq<Sema>, ts1: seq<Thread>, ls1: seq<Sema>, ts': seq<Thread>, ls': seq<Sema>,
                     t: Tid, l: SemaId, x: Tid, u: Tid)
    requires Turned(ts, ls, ts1, ls1, t, l, x) && Donated(ts1, ls1, ts', ls', x) && u < |ts| && u != x
    ensures Settled(ts[u], ts'[u], ls, ls')
  {
    assert Settled(ts1[u], ts'[u], ls1, ls');
    if SameLocksOf(ts[u].held, ls1, ls') {
      forall k | 0 <= k < |ts[u].held| && ts[u].held[k] < |ls| ensures ls1[ts[u].held[k]].maxPriority == ls[ts[u].held[k]].maxPriority {
        assert ts[u].held[k] in ts[u].held;
      }
    }
  }

  lemma HolderSettled(ts: seq<Thread>, ls: seq<Sema>, ts1: seq<Thread>, ls1: seq<Sema>, ts': seq<Thread>, ls': seq<Sema>,
                      t: Tid, l: SemaId, x: Tid)
    requires Turned(ts, ls, ts1, ls1, t, l, x) && Donated(ts1, ls1, ts', ls', x)
    ensures ts[x].held != [] && InPlace(ts[x].priority, ts'[x], ls')
  {
    assert l in ts[x].held;
    var held := ts[x].held;
    assert ts'[x] == ts1[x].(priority := ts'[x].priority) && Settled(ts1[x], ts'[x], ls1, ls');
    var m1 :| TopDonation(ls1, held, m1) && ts1[x].priority == if ts[x].intrinsic < m1 then m1 else ts[x].priority;
    if ts'[x].priority == ts1[x].priority && SameLocksOf(held, ls1, ls') {
      SameTop(ls1, ls', held, m1);
    } else {
      var m :| TopDonation(ls', held, m) && ts'[x].priority == if ts[x].intrinsic < m then m else ts1[x].priority;
      forall k | 0 <= k < |held| ensures ls1[held[k]].maxPriority <= ls'[held[k]].maxPriority {
        assert Risen(ts1, ts', ls1[held[k]], ls'[held[k]], held[k]);
      }
      TopGrows(ls1, ls', held, m1, m);
    }
  }

  lemma SameTop(ls: seq<Sema>, ls': seq<Sema>, held: seq<SemaId>, m: int)
    requires TopDonation(ls, held, m) && |ls'| == |ls| && SameLocksOf(held, ls, ls')
    ensures TopDonation(ls', held, m)
  {
    var k :| 0 <= k < |held| && ls[held[k]].maxPriority == m;
    assert ls'[held[k]].maxPriority == m;
  }

  lemma TopGrows(ls: seq<Sema>, ls': seq<Sema>, held: seq<SemaId>, m: int, m': int)
    requires TopDonation(ls, held, m) && TopDonation(ls', held, m') && |ls'| == |ls|
    requires forall k | 0 <= k < |held| :: ls[held[k]].maxPriority <= ls'[held[k]].maxPriority
    ensures m <= m'
  {
    var k :| 0 <= k < |held| && ls[held[k]].maxPriority == m;
    assert ls'[held[k]].maxPriority <= m';
  }

  lemma LockRisen(ts: seq<Thread>, ls: seq<Sema>, ts1: seq<Thread>, ls1: seq<Sema>, ts': seq<Thread>, ls': seq<Sema>,
                  t: Tid, l: SemaId, x: Tid, r: SemaId)
    requires Turned(ts, ls, ts1, ls1, t, l, x) && Donated(ts1, ls1, ts', ls', x) && r < |ls|
    ensures Risen(ts, ts', ls[r], ls'[r], r)
  {
    assert Risen(ts1, ts', ls1[r], ls'[r], r);
    var m := ls'[r].maxPriority;
    if m == ls1[r].maxPriority {
      assert r == l ==> RaisedBy(ts, ts', t, l, m);
    } else {
      var v :| RaisedBy(ts1, ts', v, r, m);
      if v == x && ts1[x].priority == m && ts'[x].priority != m {
        StaleStart(ts, ls, ts1, ls1, ts', ls', t, l, x, r);
      }
      assert RaisedBy(ts, ts', v, r, m);
    }
  }

  /** If the holder was placed again after it had raised a lock, the lock has been raised again too, unless its
      first placing had left it as it was. */
  lemma StaleStart(ts: seq<Thread>, ls: seq<Sema>, ts1: seq<Thread>, ls1: seq<Sema>, ts': seq<Thread>, ls': seq<Sema>,
                   t: Tid, l: SemaId, x: Tid, r: SemaId)
    requires Turned(ts, ls, ts1, ls1, t, l, x) && Donated(ts1, ls1, ts', ls', x) && r < |ls|
    requires ts1[x].waiting == Some(r) && ls'[r].maxPriority == ts1[x].priority != ts'[x].priority
    ensures ts[x].priority == ts1[x].priority
  {
    var held := ts[x].held;
    assert l in held && Settled(ts1[x], ts'[x], ls1, ls') && ts'[x] == ts1[x].(priority := ts'[x].priority);
    assert Passed(ts'[x], ls');
    var m1 :| TopDonation(ls1, held, m1) && ts1[x].priority == if ts[x].intrinsic < m1 then m1 else ts[x].priority;
    var m :| TopDonation(ls', held, m) && ts'[x].priority == if ts[x].intrinsic < m then m else ts1[x].priority;
    forall k | 0 <= k < |held| ensures ls1[held[k]].maxPriority <= ls'[held[k]].maxPriority {
      assert Risen(ts1, ts', ls1[held[k]], ls'[held[k]], held[k]);
    }
    TopGrows(ls1, ls', held, m1, m);
  }

  // ---------------------------------------------------------------- what a step does

  /** The lock whose donation the step computes anew: flush_lock_priority at the end of its release. */
  function Recomputes(st: State, step: Step): Option<SemaId> {
    if step == Act(Resume) && st.cur.Some? && st.cur.value < |st.threads| && st.threads[st.cur.value].pc.InRelease?
    then Some(st.threads[st.cur.value].pc.lck) else None
  }

  /** The step ends with adjust_priority of u: it takes a lock, gives one back, or sets its own priority. */
  ghost predicate Settles(st: State, step: Step, u: Tid) {
    && step.Act? && st.cur == Some(u) && u < |st.threads|
    && (step.a.Release? || step.a.Priority? || TakesLock(st, step))
  }

  ghost predicate TakesLock(st: State, step: Step) {
    var l := DownBy(st, step);
    l.Some? && l.value < |st.semas| && st.semas[l.value].isLock
  }

  ghost predicate SetsOwn(st: State, step: Step, u: Tid) {
    step.Act? && step.a.Priority? && st.cur == Some(u)
  }

  /** What the step may do to thread u. */
  ghost predicate ThreadAccount(st: State, step: Step, st': State, u: Tid)
    requires u < |st.threads| && u < |st'.threads|
  {
    var th, th' := st.threads[u], st'.threads[u];
    && th'.intrinsic == (if SetsOwn(st, step, u) then step.a.p else th.intrinsic)
    && if Settles(st, step, u) then InPlace(th.priority, th', st'.semas)
       else if Recomputes(st, step).Some? then th'.held == th.held && th'.priority == th.priority
       else th'.held == th.held && Settled(th, th', st.semas, st'.semas)
  }

  /** Thread v waits for lock l, or begins to with this step. */
  ghost predicate Asks(st: State, step: Step, v: Tid, l: SemaId)
    requires v < |st.threads|
  {
    st.threads[v].waiting == Some(l) || (step == Act(Acquire(l)) && st.cur == Some(v))
  }

  ghost predicate AskedBy(st: State, step: Step, st': State, v: int, l: SemaId, m: int) {
    && 0 <= v < |st.threads| && v < |st'.threads| && Asks(st, step, v, l)
    && (st.threads[v].priority == m || st'.threads[v].priority == m)
  }

  /** The greatest priority on a wait list, or the least there is. */
  ghost predicate TopOf(ts: seq<Thread>, q: seq<Tid>, m: int) {
    if q == [] then m == PRI_MIN else exists k: nat :: IsTop(ts, q, k) && ts[q[k]].priority == m
  }

  /** What it may do to the donation of lock l. */
  ghost predicate LockAccount(st: State, step: Step, st': State, l: SemaId)
    requires l < |st.semas| && l < |st'.semas|
  {
    var x, x' := st.semas[l], st'.semas[l];
    if Recomputes(st, step) == Some(l) then TopOf(st.threads, x.waiters, x'.maxPriority)
    else x'.maxPriority == x.maxPriority
         || (x.maxPriority < x'.maxPriority && exists v :: AskedBy(st, step, st', v, l, x'.maxPriority))
  }

  /** Threads only come by thread_create, with the priority asked for. */
  ghost predicate Population(st: State, step: Step, st': State) {
    if step.Act? && step.a.Create? then
      |st'.threads| == |st.threads| + 1 && st'.threads[|st.threads|] == Thread(Ready, Free, step.a.p, step.a.p, None, [], 0)
    else |st'.threads| == |st.threads|
  }

  ghost predicate Accounts(st: State, step: Step, st': State) {
    && Population(st, step, st') && |st'.semas| == |st.semas|
    && (forall u | 0 <= u < |st.threads| :: ThreadAccount(st, step, st', u))
    && (forall l | 0 <= l < |st.semas| :: LockAccount(st, step, st', l))
  }

  // ---------------------------------------------------------------- steps that move no priority

  ghost predicate Kept(th: Thread, th': Thread) {
    th'.priority == th.priority && th'.intrinsic == th.intrinsic && th'.held == th.held
  }

  ghost predicate AllKept(st: State, st': State) {
    && |st.threads| <= |st'.threads| && |st'.semas| == |st.semas|
    && (forall u | 0 <= u < |st.threads| :: Kept(st.threads[u], st'.threads[u]))
    && (forall l | 0 <= l < |st.semas| :: st'.semas[l].maxPriority == st.semas[l].maxPriority)
  }

  lemma KeptAccounts(st: State, step: Step, st': State)
    requires AllKept(st, st') && Population(st, step, st') && Recomputes(st, step) == None
    requires forall u | 0 <= u < |st.threads| :: !Settles(st, step, u) && !SetsOwn(st, step, u)
    ensures AsUnit(Accounts(st, step, st'))
  {
    forall u | 0 <= u < |st.threads| ensures ThreadAccount(st, step, st', u) {
      assert Kept(st.threads[u], st'.threads[u]);
    }
  }

  lemma KeptOn(st: State, st1: State, st': State)
    requires AllKept(st, st1) && AllKept(st1, st') && |st1.threads| == |st.threads|
    ensures AllKept(st, st')
  {
    forall u | 0 <= u < |st.threads| ensures Kept(st.threads[u], st'.threads[u]) {
      assert Kept(st.threads[u], st1.threads[u]) && Kept(st1.threads[u], st'.threads[u]);
    }
  }

  lemma DispatchKept(st: State)
    requires Typed(st) && st.cur == None
    ensures AllKept(st, Dispatch(st)) && |Dispatch(st).threads| == |st.threads|
  {
  }

  lemma YieldKept(st: State, t: Tid)
    requires Shape(st) && OnCpu(st, t)
    ensures AllKept(st, Yield(st, t)) && |Yield(st, t).threads| == |st.threads|
  {
    var st1 := Deschedule(st, t);
    DescheduleShape(st, t);
    DispatchKept(st1);
    KeptOn(st, st1, Dispatch(st1));
  }

  lemma WaitKept(st: State, t: Tid, s: SemaId)
    requires Shape(st) && OnCpu(st, t) && s < |st.semas|
    ensures AllKept(st, Wait(st, t, s)) && |Wait(st, t, s).threads| == |st.threads|
  {
    var st1 := Park(st, t, s);
    ParkShape(st, t, s);
    DispatchKept(st1);
    KeptOn(st, st1, Dispatch(st1));
  }

  lemma WakeKept(st: State, s: SemaId)
    requires Typed(st) && s < |st.semas|
    ensures AllKept(st, Wake(st, s)) && |Wake(st, s).threads| == |st.threads|
  {
    WakeKeepsFields(st, s);
  }

  lemma SleepKept(st: State, t: Tid, until: int)
    requires Shape(st) && AtCpu(st, t, Free)
    ensures AllKept(st, ThreadSleep(st, t, until)) && |ThreadSleep(st, t, until).threads| == |st.threads|
  {
    var st1 := FallAsleep(st, t, until);
    FallAsleepShape(st, t, until);
    DispatchKept(st1);
    KeptOn(st, st1, Dispatch(st1));
  }

  lemma {:induction false} AlarmKept(st: State)
    requires Shape(st)
    ensures AllKept(st, Alarm(st)) && |Alarm(st).threads| == |st.threads|
    decreases |st.sleeping|
  {
    if FrontDue(st) {
      RouseShape(st);
      AlarmKept(RouseFirst(st));
      KeptOn(st, RouseFirst(st), Alarm(st));
    }
  }

  lemma TickKept(st: State, expired: bool)
    requires Shape(st)
    ensures AllKept(st, TimerInterrupt(st, expired)) && |TimerInterrupt(st, expired).threads| == |st.threads|
  {
    var st1 := st.(ticks := st.ticks + 1);
    ClockShape(st, st.ticks + 1);
    AlarmKept(st1);
    var st2 := Ticked(st);
    KeptOn(st, st1, st2);
    if expired {
      if st2.cur.Some? {
        assert Placed(st2, st2.cur.value);
        YieldKept(st2, st2.cur.value);
      } else {
        DispatchKept(st2);
      }
      KeptOn(st, st2, Preempt(st2));
    }
  }

  // ---------------------------------------------------------------- steps that do

  /** Thread u is in place, and no other thread and no donation has moved. */
  ghost predicate Seated(st: State, st': State, t: Tid, p: int) {
    && t < |st.threads| == |st'.threads| && |st'.semas| == |st.semas|
    && (forall u | 0 <= u < |st.threads| && u != t :: Kept(st.threads[u], st'.threads[u]))
    && (forall l | 0 <= l < |st.semas| :: st'.semas[l].maxPriority == st.semas[l].maxPriority)
    && st'.threads[t].intrinsic == p && InPlace(st.threads[t].priority, st'.threads[t], st'.semas)
  }

  lemma SeatedOn(st: State, st1: State, st': State, t: Tid, p: int)
    requires Seated(st, st1, t, p) && AllKept(st1, st') && |st'.threads| == |st.threads|
    ensures Seated(st, st', t, p)
  {
    forall u | 0 <= u < |st.threads| && u != t ensures Kept(st.threads[u], st'.threads[u]) {
      assert Kept(st.threads[u], st1.threads[u]) && Kept(st1.threads[u], st'.threads[u]);
    }
    assert Kept(st1.threads[t], st'.threads[t]);
    SameSeat(st.threads[t].priority, st1.threads[t], st'.threads[t], st1.semas, st'.semas);
  }

  lemma SameSeat(p: int, th: Thread, th': Thread, ls: seq<Sema>, ls': seq<Sema>)
    requires InPlace(p, th, ls) && Kept(th, th') && |ls'| == |ls|
    requires forall l | 0 <= l < |ls| :: ls'[l].maxPriority == ls[l].maxPriority
    ensures InPlace(p, th', ls')
  {
    if th.held != [] {
      var m :| TopDonation(ls, th.held, m) && th.priority == if th.intrinsic < m then m else p;
      SameTop(ls, ls', th.held, m);
    }
  }

  lemma SeatedAccounts(st: State, step: Step, st': State, t: Tid)
    requires st.cur == Some(t) && Settles(st, step, t) && Recomputes(st, step) == None && !step.a.Create?
    requires Seated(st, st', t, if SetsOwn(st, step, t) then step.a.p else st.threads[t].intrinsic)
    ensures AsUnit(Accounts(st, step, st'))
  {
    forall u | 0 <= u < |st.threads| ensures ThreadAccount(st, step, st', u) {
      if u != t {
        assert Kept(st.threads[u], st'.threads[u]);
      }
    }
  }

  lemma GrabSeated(st: State, t: Tid, l: SemaId)
    requires Shape(st) && OnCpu(st, t) && l < |st.semas| && st.semas[l].value > 0
    ensures AsUnit(Seated(st, Grab(st, t, l), t, st.threads[t].intrinsic))
  {
    var st1, st' := Take(st, t, l), Grab(st, t, l);
    TakeShape(st, t, l);
    assert ThreadTyped(st1.threads[t], |st.semas|);
    var th := st1.threads[t].(held := st.threads[t].held + [l]);
    AdjustedPlaced(th, st1.semas);
    SameSeat(th.priority, Adjusted(th, st1.semas), st'.threads[t], st1.semas, st'.semas);
  }

  lemma DisownSeated(st: State, t: Tid, l: SemaId)
    requires OnCpu(st, t) && l < |st.semas|
    ensures Seated(st, Disown(st, t, l), t, st.threads[t].intrinsic)
  {
    var st' := Disown(st, t, l);
    assert ThreadTyped(st.threads[t], |st.semas|);
    WithoutIds(st.threads[t].held, l, |st.semas|);
    var th := st.threads[t].(held := Without(st.threads[t].held, l));
    AdjustedPlaced(th, st.semas);
    SameSeat(th.priority, Adjusted(th, st.semas), st'.threads[t], st.semas, st'.semas);
  }

  lemma ReleaseSeated(st: State, t: Tid, l: SemaId)
    requires Shape(st) && AtCpu(st, t, Free) && l < |st.semas| && st.semas[l].isLock && st.semas[l].holder == Some(t)
    ensures Seated(st, LockRelease(st, t, l), t, st.threads[t].intrinsic)
  {
    DisownSeated(st, t, l);
    DisownShape(st, t, l);
    var st1, st2 := Disown(st, t, l), GiveUp(st, t, l);
    WakeKept(st1, l);
    var st3 := SetThread(st2, t, st2.threads[t].(pc := InRelease(l)));
    assert ThreadTyped(st2.threads[t], |st2.semas|);
    UpdateShape(st2, t, st3.threads[t]);
    YieldKept(st3, t);
    KeptOn(st1, st2, st3);
    KeptOn(st1, st3, Yield(st3, t));
    SeatedOn(st, st1, Yield(st3, t), t, st.threads[t].intrinsic);
  }

  lemma PrioritySeated(st: State, t: Tid, p: int)
    requires Shape(st) && AtCpu(st, t, Free)
    ensures Seated(st, SetPriority(st, t, p), t, p)
  {
    assert ThreadTyped(st.threads[t], |st.semas|);
    var th := st.threads[t].(intrinsic := p);
    AdjustedPlaced(th, st.semas);
    SameSeat(th.priority, Adjusted(th, st.semas), SetPriority(st, t, p).threads[t], st.semas, st.semas);
  }

  /** lock_acquire of a free lock raises its donation, if at all, to the thread's own priority. */
  lemma AcquireFree(st: State, t: Tid, l: SemaId)
    requires Inv(st) && AtCpu(st, t, Free) && l < |st.semas| && st.semas[l].isLock && st.semas[l].value > 0
    ensures var st1 := Await(st, t, l);
            && st1.threads == st.threads[t := st.threads[t].(waiting := Some(l))]
            && st1.semas == (if st.threads[t].priority > st.semas[l].maxPriority then Raise(st.semas, l, st.threads[t].priority) else st.semas)
  {
    var th := st.threads[t].(waiting := Some(l));
    assert ThreadTyped(st.threads[t], |st.semas|) && LockValue(st.semas[l]);
    UpdateShape(st, t, th);
    TypedLinks(SetThread(st, t, th));
  }

  lemma AcquireFreeAccounts(st: State, t: Tid, l: SemaId)
    requires Inv(st) && AtCpu(st, t, Free) && l < |st.semas| && st.semas[l].isLock && st.semas[l].value > 0
    requires st.semas[l].holder != Some(t)
    ensures AsUnit(Accounts(st, Act(Acquire(l)), LockAcquire(st, t, l)))
  {
    var st1 := Await(st, t, l);
    AcquireFree(st, t, l);
    GrabSeated(st1, t, l);
    FreeAccounts(st, st1, LockAcquire(st, t, l), t, l);
  }

  lemma FreeAccounts(st: State, st1: State, st': State, t: Tid, l: SemaId)
    requires Inv(st) && AtCpu(st, t, Free) && l < |st.semas| && st.semas[l].isLock && st.semas[l].value > 0
    requires st1.threads == st.threads[t := st.threads[t].(waiting := Some(l))]
    requires st1.semas == if st.threads[t].priority > st.semas[l].maxPriority then Raise(st.semas, l, st.threads[t].priority) else st.semas
    requires Seated(st1, st', t, st.threads[t].intrinsic)
    ensures AsUnit(Accounts(st, Act(Acquire(l)), st'))
  {
    var step := Act(Acquire(l));
    assert Settles(st, step, t);
    forall u | 0 <= u < |st.threads| ensures ThreadAccount(st, step, st', u) {
      if u != t {
        assert Kept(st1.threads[u], st'.threads[u]);
        OtherLocks(st, t, l, u, st'.semas);
      }
    }
    forall r | 0 <= r < |st.semas| ensures LockAccount(st, step, st', r) {
      assert st'.semas[r].maxPriority != st.semas[r].maxPriority ==> AskedBy(st, step, st', t, l, st'.semas[l].maxPriority);
    }
  }

  lemma OtherLocks(st: State, t: Tid, l: SemaId, u: Tid, ls': seq<Sema>)
    requires Inv(st) && l < |st.semas| && st.semas[l].isLock && st.semas[l].value > 0 && u < |st.threads|
    requires |ls'| == |st.semas| && forall r | 0 <= r < |ls'| && r != l :: ls'[r].maxPriority == st.semas[r].maxPriority
    ensures SameLocksOf(st.threads[u].held, st.semas, ls')
  {
    assert LockValue(st.semas[l]);
    forall k | 0 <= k < |st.threads[u].held| && st.threads[u].held[k] < |ls'| ensures st.threads[u].held[k] != l {
      assert st.threads[u].held[k] in st.threads[u].held;
    }
  }

  /** lock_acquire of a lock somebody holds: donation, and then sleep. */
  lemma AcquireHeldAccounts(st: State, t: Tid, l: SemaId)
    requires Inv(st) && AtCpu(st, t, Free) && l < |st.semas| && st.semas[l].isLock && st.semas[l].value == 0
    requires st.semas[l].holder != Some(t)
    ensures AsUnit(Accounts(st, Act(Acquire(l)), LockAcquire(st, t, l)))
  {
    var st1, st' := Await(st, t, l), LockAcquire(st, t, l);
    var ts := st.threads[t := st.threads[t].(waiting := Some(l))];
    AwaitDonated(st, t, l);
    AwaitFrame(st, t, l);
    WaitKept(st1, t, l);
    DonatedAccounts(st, st1, st', t, l);
  }

  lemma AwaitDonated(st: State, t: Tid, l: SemaId)
    requires Inv(st) && AtCpu(st, t, Free) && l < |st.semas|
    ensures var st1 := Await(st, t, l);
            AsUnit(Donated(st.threads[t := st.threads[t].(waiting := Some(l))], st.semas, st1.threads, st1.semas, t))
  {
    var ts := st.threads[t := st.threads[t].(waiting := Some(l))];
    var st1 := Await(st, t, l);
    assert ThreadTyped(st.threads[t], |st.semas|);
    UpdateShape(st, t, ts[t]);
    TypedLinks(SetThread(st, t, ts[t]));
    assert Owned(ts, st.semas);
    FlushExact(ts, st.semas, t, Ceiling(ts, st.semas), st1.threads, st1.semas);
  }

  lemma DonatedAccounts(st: State, st1: State, st': State, t: Tid, l: SemaId)
    requires Inv(st) && AtCpu(st, t, Free) && l < |st.semas| && st.semas[l].value == 0
    requires Donated(st.threads[t := st.threads[t].(waiting := Some(l))], st.semas, st1.threads, st1.semas, t)
    requires AllKept(st1, st') && |st'.threads| == |st.threads|
    ensures AsUnit(Accounts(st, Act(Acquire(l)), st'))
  {
    var step, ts := Act(Acquire(l)), st.threads[t := st.threads[t].(waiting := Some(l))];
    forall u | 0 <= u < |st.threads| ensures ThreadAccount(st, step, st', u) {
      assert Settled(ts[u], st1.threads[u], st.semas, st1.semas) && Kept(st1.threads[u], st'.threads[u]);
      assert st1.threads[u] == ts[u].(priority := st1.threads[u].priority);
      if st.threads[u].held != [] && InPlace(ts[u].priority, st1.threads[u], st1.semas) {
        SameSeat(ts[u].priority, st1.threads[u], st'.threads[u], st1.semas, st'.semas);
      }
    }
    forall r | 0 <= r < |st.semas| ensures LockAccount(st, step, st', r) {
      assert Risen(ts, st1.threads, st.semas[r], st1.semas[r], r);
      if st1.semas[r].maxPriority != st.semas[r].maxPriority {
        var v :| RaisedBy(ts, st1.threads, v, r, st1.semas[r].maxPriority);
        assert Kept(st1.threads[v], st'.threads[v]);
        assert AskedBy(st, step, st', v, r, st'.semas[r].maxPriority);
      }
    }
  }

  lemma FinishAccounts(st: State, t: Tid, l: SemaId)
    requires Shape(st) && AtCpu(st, t, InRelease(l)) && l < |st.semas|
    ensures AsUnit(Accounts(st, Act(Resume), FinishRelease(st, t, l)))
  {
    var step, st', x := Act(Resume), FinishRelease(st, t, l), st.semas[l];
    assert SemaTyped(x, |st.threads|);
    if x.waiters != [] {
      assert IsTop(st.threads, x.waiters, Top(st.threads, x.waiters));
    }
    assert LockAccount(st, step, st', l);
  }

  lemma RetryAccounts(st: State, t: Tid, s: SemaId)
    requires Inv(st) && AtCpu(st, t, InDown(s)) && s < |st.semas|
    ensures AsUnit(Accounts(st, Act(Resume), Retry(st, t, s)))
  {
    var st' := Retry(st, t, s);
    if st.semas[s].value == 0 {
      WaitKept(st, t, s);
      KeptAccounts(st, Act(Resume), st');
    } else if st.semas[s].isLock {
      GrabSeated(st, t, s);
      SeatedAccounts(st, Act(Resume), st', t);
    } else {
      KeptAccounts(st, Act(Resume), st');
    }
  }

  lemma ResumeAccounts(st: State, t: Tid)
    requires Inv(st) && OnCpu(st, t) && CanAct(st, t, Resume)
    ensures AsUnit(Accounts(st, Act(Resume), Perform(st, t, Resume)))
  {
    var th, st' := st.threads[t], Perform(st, t, Resume);
    assert ThreadTyped(th, |st.semas|);
    if th.pc.InDown? {
      RetryAccounts(st, t, th.pc.sema);
    } else if th.pc.InRelease? {
      FinishAccounts(st, t, th.pc.lck);
    } else {
      var st1 := SetThread(st, t, th.(pc := Free));
      UpdateShape(st, t, st1.threads[t]);
      YieldKept(st1, t);
      KeptOn(st, st1, st');
      KeptAccounts(st, Act(Resume), st');
    }
  }

  lemma PerformAccounts(st: State, t: Tid, a: Action)
    requires Inv(st) && OnCpu(st, t) && CanAct(st, t, a)
    ensures AsUnit(Accounts(st, Act(a), Perform(st, t, a)))
  {
    var st' := Perform(st, t, a);
    assert ThreadTyped(st.threads[t], |st.semas|);
    match a
    case Acquire(l) => if st.semas[l].value > 0 { AcquireFreeAccounts(st, t, l); } else { AcquireHeldAccounts(st, t, l); }
    case TryAcquire(l) => TryAcquireAccounts(st, t, l);
    case Release(l) => ReleaseAccounts(st, t, l);
    case Resume => ResumeAccounts(st, t);
    case Priority(p) => PriorityAccounts(st, t, p);
    case _ =>
      PerformKept(st, t, a);
      KeptAccounts(st, Act(a), st');
  }

  lemma ReleaseAccounts(st: State, t: Tid, l: SemaId)
    requires Shape(st) && AtCpu(st, t, Free) && l < |st.semas| && st.semas[l].isLock && st.semas[l].holder == Some(t)
    ensures AsUnit(Accounts(st, Act(Release(l)), LockRelease(st, t, l)))
  {
    ReleaseSeated(st, t, l);
    SeatedAccounts(st, Act(Release(l)), LockRelease(st, t, l), t);
  }

  lemma PriorityAccounts(st: State, t: Tid, p: int)
    requires Shape(st) && AtCpu(st, t, Free)
    ensures AsUnit(Accounts(st, Act(Priority(p)), SetPriority(st, t, p)))
  {
    PrioritySeated(st, t, p);
    SeatedAccounts(st, Act(Priority(p)), SetPriority(st, t, p), t);
  }

  lemma TryAcquireAccounts(st: State, t: Tid, l: SemaId)
    requires Inv(st) && OnCpu(st, t) && CanAct(st, t, TryAcquire(l))
    ensures AsUnit(Accounts(st, Act(TryAcquire(l)), LockTryAcquire(st, t, l)))
  {
    var st' := LockTryAcquire(st, t, l);
    if st.semas[l].value > 0 {
      assert Settles(st, Act(TryAcquire(l)), t);
      GrabSeated(st, t, l);
      SeatedAccounts(st, Act(TryAcquire(l)), st', t);
    } else {
      KeptAccounts(st, Act(TryAcquire(l)), st');
    }
  }

  lemma UpKept(st: State, t: Tid, s: SemaId)
    requires Shape(st) && AtCpu(st, t, Free) && s < |st.semas| && !st.semas[s].isLock
    ensures AllKept(st, SemaUp(st, t, s)) && |SemaUp(st, t, s).threads| == |st.threads|
  {
    WakeKept(st, s);
    WakeKeepsCpu(st, t, s);
    KeptOn(st, Wake(st, s), SemaUp(st, t, s));
  }

  lemma PerformKept(st: State, t: Tid, a: Action)
    requires Inv(st) && OnCpu(st, t) && CanAct(st, t, a)
    requires a.Down? || a.TryDown? || a.Up? || a.GiveWay? || a.Sleep? || a.Create?
    ensures AllKept(st, Perform(st, t, a)) && Population(st, Act(a), Perform(st, t, a))
  {
    match a
    case Down(s) => if st.semas[s].value == 0 { WaitKept(st, t, s); }
    case Up(s) => UpKept(st, t, s);
    case GiveWay => YieldKept(st, t);
    case Sleep(until) => SleepKept(st, t, until);
    case _ =>
  }

  /** Every priority and every donation is accounted for in every step. */
  lemma StepAccounts(st: State, step: Step)
    requires Inv(st) && Enabled(st, step)
    ensures Accounts(st, step, Next(st, step))
  {
    match step
    case Act(a) =>
      assert Placed(st, st.cur.value);
      PerformAccounts(st, st.cur.value, a);
    case Idle =>
      DispatchKept(st);
      KeptAccounts(st, step, Dispatch(st));
    case UpFromInterrupt(s) =>
      WakeKept(st, s);
      KeptAccounts(st, step, Wake(st, s));
    case Tick(expired) =>
      TickKept(st, expired);
      KeptAccounts(st, step, TimerInterrupt(st, expired));
  }

  // ---------------------------------------------------------------- over runs

  /** A thread without locks runs at its own priority. */
  ghost predicate OwnPriority(st: State) {
    forall t | 0 <= t < |st.threads| && st.threads[t].held == [] :: st.threads[t].priority == st.threads[t].intrinsic
  }

  lemma StepOwnPriority(st: State, step: Step, st': State)
    requires Inv(st) && Enabled(st, step) && st' == Next(st, step) && OwnPriority(st)
    ensures OwnPriority(st')
  {
    StepAccounts(st, step);
    forall u | 0 <= u < |st'.threads| && st'.threads[u].held == [] ensures st'.threads[u].priority == st'.threads[u].intrinsic {
      if u < |st.threads| {
        assert ThreadAccount(st, step, st', u);
      }
    }
  }

  /** In every state of every run, a donated priority is gone with the last lock. */
  lemma {:induction false} RunOwnPriority(states: seq<State>, steps: seq<Step>, i: nat)
    requires IsKernelRun(states, steps) && i < |states|
    ensures OwnPriority(states[i])
  {
    if i > 0 {
      RunOwnPriority(states, steps, i - 1);
      RunInv(states, steps, i - 1);
      assert StepAt(states, steps, i - 1);
      StepOwnPriority(states[i - 1], steps[i - 1], states[i]);
    }
  }
}
