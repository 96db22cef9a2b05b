/** What semaphores and locks promise in every interleaving: nothing is lost, nobody is forgotten,
    and a lock has one owner. */
module KernelSync {
  import opened Common
  import opened KernelState
  import opened KernelDonation
  import opened KernelSteps
  import opened KernelShape
  import opened KernelOps

  /** The value plus the completed downs is the initial value plus the ups. */
  ghost predicate Conserved(st: State) {
    forall s | 0 <= s < |st.semas| ::
      st.semas[s].value + st.semas[s].downs == st.semas[s].initial + st.semas[s].ups
  }

  /** Woken from semaphore s, but its retry is still to come. */
  ghost predicate Awake(th: Thread, s: SemaId) {
    th.pc == InDown(s) && th.status != Blocked
  }

  ghost function Woken(st: State, s: SemaId): set<Tid> {
    set t | 0 <= t < |st.threads| && Awake(st.threads[t], s)
  }

  /** No lost wakeup: while threads wait, every unit of the value has a woken thread coming for it. */
  ghost predicate NoneForgotten(st: State) {
    forall s | 0 <= s < |st.semas| :: Served(st, s)
  }

  ghost predicate Served(st: State, s: SemaId)
    requires s < |st.semas|
  {
    st.semas[s].waiters != [] ==> st.semas[s].value <= |Woken(st, s)|
  }

  ghost predicate SemaInv(st: State) {
    Conserved(st) && NoneForgotten(st)
  }

  // ---------------------------------------------------------------- semaphores, primitive by primitive

  /** The set of woken threads changes in at most one element. */
  lemma WokenChange(st: State, st': State, s: SemaId, t: Tid)
    requires |st.threads| <= |st'.threads| && t < |st.threads|
    requires forall u | 0 <= u < |st.threads| && u != t :: Awake(st'.threads[u], s) <==> Awake(st.threads[u], s)
    requires forall u | |st.threads| <= u < |st'.threads| :: !Awake(st'.threads[u], s)
    ensures Awake(st.threads[t], s) == Awake(st'.threads[t], s) ==> Woken(st', s) == Woken(st, s)
    ensures Awake(st.threads[t], s) && !Awake(st'.threads[t], s) ==> |Woken(st', s)| == |Woken(st, s)| - 1
    ensures !Awake(st.threads[t], s) && Awake(st'.threads[t], s) ==> |Woken(st', s)| == |Woken(st, s)| + 1
  {
    var a, b := Woken(st, s), Woken(st', s);
    if Awake(st.threads[t], s) && !Awake(st'.threads[t], s) {
      assert a == b + {t};
    } else if !Awake(st.threads[t], s) && Awake(st'.threads[t], s) {
      assert b == a + {t};
    } else {
      assert a == b;
    }
  }

  /** Steps that touch neither the semaphores nor anyone's retry. */
  ghost predicate SameSync(st: State, st': State) {
    && |st.threads| <= |st'.threads| && |st'.semas| == |st.semas|
    && (forall s | 0 <= s < |st.semas| ::
          && st'.semas[s].value == st.semas[s].value && st'.semas[s].waiters == st.semas[s].waiters
          && st'.semas[s].downs == st.semas[s].downs && st'.semas[s].ups == st.semas[s].ups
          && st'.semas[s].initial == st.semas[s].initial)
    && (forall t, s | 0 <= t < |st.threads| :: Awake(st'.threads[t], s) <==> Awake(st.threads[t], s))
    && (forall t, s | |st.threads| <= t < |st'.threads| :: !Awake(st'.threads[t], s))
  }

  lemma SameSyncInv(st: State, st': State)
    requires SemaInv(st) && SameSync(st, st')
    ensures SemaInv(st')
  {
    forall s | 0 <= s < |st.semas| ensures Served(st', s) {
      assert Served(st, s);
      assert Woken(st', s) == Woken(st, s);
    }
  }

  lemma ParkSync(st: State, t: Tid, s: SemaId)
    requires SemaInv(st) && OnCpu(st, t) && s < |st.semas| && st.semas[s].value == 0
    requires st.threads[t].pc == Free || st.threads[t].pc == InDown(s)
    ensures SemaInv(Park(st, t, s))
  {
    var st' := Park(st, t, s);
    forall r | 0 <= r < |st.semas| ensures Served(st', r) {
      assert Served(st, r);
      WokenChange(st, st', r, t);
    }
  }

  lemma TakeSync(st: State, t: Tid, s: SemaId)
    requires SemaInv(st) && OnCpu(st, t) && s < |st.semas| && st.semas[s].value > 0
    requires st.threads[t].pc == Free || st.threads[t].pc == InDown(s)
    ensures SemaInv(Take(st, t, s)) && |Take(st, t, s).semas| == |st.semas| && Take(st, t, s).semas[s].value == st.semas[s].value - 1
  {
    var st' := Take(st, t, s);
    forall r | 0 <= r < |st.semas| ensures Served(st', r) {
      assert Served(st, r);
      WokenChange(st, st', r, t);
    }
  }

  lemma WakeSync(st: State, s: SemaId)
    requires SemaInv(st) && Shape(st) && s < |st.semas|
    ensures SemaInv(Wake(st, s)) && |Wake(st, s).semas| == |st.semas| && Wake(st, s).semas[s].value == st.semas[s].value + 1
  {
    var st', x := Wake(st, s), st.semas[s];
    assert SemaTyped(x, |st.threads|);
    if x.waiters == [] {
      forall r | 0 <= r < |st.semas| ensures Served(st', r) {
        assert Served(st, r);
        assert Woken(st', r) == Woken(st, r);
      }
    } else {
      var w := x.waiters[Top(st.threads, x.waiters)];
      assert w in x.waiters;
      assert Placed(st, w);
      forall r | 0 <= r < |st.semas| ensures Served(st', r) {
        assert Served(st, r);
        WokenChange(st, st', r, w);
      }
    }
  }

  // ---------------------------------------------------------------- locks

  /** The lock a thread at this point of the code is waiting for. */
  ghost function Awaited(st: State, pc: Pc): Option<SemaId> {
    if pc.InDown? && pc.sema < |st.semas| && st.semas[pc.sema].isLock then Some(pc.sema) else None
  }

  /** A lock's value is 0 exactly while it has a holder; a thread holds exactly the locks that name it
      as their holder, each once. */
  ghost predicate LockInv(st: State) {
    && (forall s | 0 <= s < |st.semas| :: LockValue(st.semas[s]))
    && Owned(st.threads, st.semas)
    && (forall t | 0 <= t < |st.threads| :: NoDup(st.threads[t].held))
  }

  ghost predicate LockValue(x: Sema) {
    if x.isLock then x.value == (if x.holder == None then 1 else 0) else x.holder == None
  }

  /** The waiting_lock fields agree with the code positions, the thread in `except` aside. */
  ghost predicate WaitingInv(st: State, except: set<Tid>) {
    forall t | 0 <= t < |st.threads| && t !in except :: st.threads[t].waiting == Awaited(st, st.threads[t].pc)
  }

  /** At most one thread holds a lock, and while one does the value is 0. */
  lemma MutualExclusion(st: State, l: SemaId, t: Tid, u: Tid)
    requires LockInv(st) && l < |st.semas| && t < |st.threads| && u < |st.threads|
    requires l in st.threads[t].held && l in st.threads[u].held
    ensures t == u && (st.semas[l].isLock ==> st.semas[l].value == 0)
  {
    assert st.semas[l].holder == Some(t) && st.semas[l].holder == Some(u);
    assert LockValue(st.semas[l]);
  }

  ghost predicate SameLocks(st: State, st': State) {
    && |st.threads| == |st'.threads| && |st'.semas| == |st.semas|
    && (forall s | 0 <= s < |st.semas| ::
          && st'.semas[s].value == st.semas[s].value && st'.semas[s].holder == st.semas[s].holder
          && st'.semas[s].isLock == st.semas[s].isLock)
    && (forall t | 0 <= t < |st.threads| :: st'.threads[t].held == st.threads[t].held)
  }

  lemma SameLocksInv(st: State, st': State)
    requires LockInv(st) && SameLocks(st, st')
    ensures LockInv(st')
  {
    forall s | 0 <= s < |st.semas| ensures LockValue(st'.semas[s]) {
      assert LockValue(st.semas[s]);
    }
  }

  lemma WithoutSpec(held: seq<SemaId>, l: SemaId)
    requires NoDup(held)
    ensures NoDup(Without(held, l))
    ensures forall x :: x in Without(held, l) <==> x in held && x != l
  {
    if held != [] {
      assert held == [held[0]] + held[1..];
      WithoutSpec(held[1..], l);
      assert held[0] !in held[1..];
      var r := Without(held[1..], l);
      assert NoDup([held[0]] + r);
    }
  }

  /** What taking a lock writes. */
  lemma GrabFrame(st: State, t: Tid, l: SemaId)
    requires Shape(st) && OnCpu(st, t) && l < |st.semas| && st.semas[l].value > 0
    ensures var st' := Grab(st, t, l);
            && st' == st.(threads := st'.threads, semas := st'.semas)
            && |st'.threads| == |st.threads| && |st'.semas| == |st.semas|
            && (forall u | 0 <= u < |st.threads| && u != t :: st'.threads[u] == st.threads[u])
            && st'.threads[t] == st.threads[t].(held := st.threads[t].held + [l], waiting := None, pc := Free,
                                                priority := st'.threads[t].priority)
            && (forall s | 0 <= s < |st.semas| && s != l :: st'.semas[s] == st.semas[s])
            && st'.semas[l] == st.semas[l].(value := st.semas[l].value - 1, downs := st.semas[l].downs + 1, holder := Some(t))
  {
    TakeShape(st, t, l);
    assert ThreadTyped(st.threads[t], |st.semas|);
  }

  lemma GrabLocks(st: State, t: Tid, l: SemaId)
    requires Shape(st) && OnCpu(st, t) && l < |st.semas| && st.semas[l].value > 0 && st.semas[l].isLock
    requires LockInv(st)
    ensures LockInv(Grab(st, t, l))
  {
    var st' := Grab(st, t, l);
    GrabFrame(st, t, l);
    assert LockValue(st.semas[l]);
    assert l !in st.threads[t].held;
    AppendNew(st.threads[t].held, l);
    forall s | 0 <= s < |st.semas| ensures LockValue(st'.semas[s]) {
      assert LockValue(st.semas[s]);
    }
  }

  lemma GrabSync(st: State, t: Tid, l: SemaId)
    requires SemaInv(st) && Shape(st) && OnCpu(st, t) && l < |st.semas| && st.semas[l].value > 0
    requires st.threads[t].pc == Free || st.threads[t].pc == InDown(l)
    ensures SemaInv(Grab(st, t, l))
  {
    TakeSync(st, t, l);
    TakeShape(st, t, l);
    OwnSync(Take(st, t, l), t, l);
  }

  lemma OwnSync(st: State, t: Tid, l: SemaId)
    requires SemaInv(st) && OnCpu(st, t) && l < |st.semas|
    ensures SemaInv(Own(st, t, l))
  {
    SameSyncInv(st, Own(st, t, l));
  }

  lemma DisownOwned(st: State, t: Tid, l: SemaId)
    requires Shape(st) && OnCpu(st, t) && l < |st.semas| && st.semas[l].holder == Some(t)
    requires LockInv(st)
    ensures var st' := Disown(st, t, l);
            && Owned(st'.threads, st'.semas)
            && (forall u | 0 <= u < |st.threads| :: NoDup(st'.threads[u].held))
  {
    WithoutSpec(st.threads[t].held, l);
    assert ThreadTyped(st.threads[t], |st.semas|);
  }

  lemma GiveUpLocks(st: State, t: Tid, l: SemaId)
    requires Shape(st) && OnCpu(st, t) && l < |st.semas| && st.semas[l].isLock && st.semas[l].holder == Some(t)
    requires LockInv(st)
    ensures LockInv(GiveUp(st, t, l))
  {
    var st1 := Disown(st, t, l);
    var st' := GiveUp(st, t, l);
    DisownShape(st, t, l);
    DisownOwned(st, t, l);
    assert SemaTyped(st1.semas[l], |st1.threads|);
    assert forall u | 0 <= u < |st.threads| :: st'.threads[u].held == st1.threads[u].held;
    assert forall s | 0 <= s < |st.semas| :: st'.semas[s].holder == st1.semas[s].holder;
    forall s | 0 <= s < |st.semas| ensures LockValue(st'.semas[s]) {
      assert LockValue(st.semas[s]);
    }
  }

  lemma GiveUpSync(st: State, t: Tid, l: SemaId)
    requires SemaInv(st) && Shape(st) && OnCpu(st, t) && l < |st.semas|
    ensures SemaInv(GiveUp(st, t, l))
  {
    DisownShape(st, t, l);
    DisownSync(st, t, l);
    WakeSync(Disown(st, t, l), l);
  }

  lemma DisownSync(st: State, t: Tid, l: SemaId)
    requires SemaInv(st) && OnCpu(st, t) && l < |st.semas|
    ensures SemaInv(Disown(st, t, l))
  {
    SameSyncInv(st, Disown(st, t, l));
  }

  lemma WakeRawLocks(st: State, s: SemaId)
    requires Shape(st) && s < |st.semas| && !st.semas[s].isLock && LockInv(st)
    ensures LockInv(Wake(st, s))
  {
    var st' := Wake(st, s);
    assert SemaTyped(st.semas[s], |st.threads|);
    assert forall u | 0 <= u < |st.threads| :: st'.threads[u].held == st.threads[u].held;
    forall r | 0 <= r < |st.semas| ensures LockValue(st'.semas[r]) {
      assert LockValue(st.semas[r]);
    }
  }

  lemma TakeRawLocks(st: State, t: Tid, s: SemaId)
    requires OnCpu(st, t) && s < |st.semas| && !st.semas[s].isLock && st.semas[s].value > 0 && LockInv(st)
    ensures LockInv(Take(st, t, s))
  {
    var st' := Take(st, t, s);
    assert forall u | 0 <= u < |st.threads| :: st'.threads[u].held == st.threads[u].held;
    forall r | 0 <= r < |st.semas| ensures LockValue(st'.semas[r]) {
      assert LockValue(st.semas[r]);
    }
  }
}
