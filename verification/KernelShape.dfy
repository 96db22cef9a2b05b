/** Every thread is on exactly the list that its status says, in every reachable state. */
module KernelShape {
  import opened Common
  import opened Ordering
  import opened KernelState
  import opened KernelDonation
  import opened KernelSteps

  datatype Place = Cpu | ReadyList | SleepList | WaitList(sema: SemaId) | Nowhere

  /** The one place where a thread in this condition must be found. */
  ghost function PlaceOf(th: Thread): Place {
    match th.status
    case Running => Cpu
    case Ready => ReadyList
    case Blocked =>
      match th.pc
      case Asleep => SleepList
      case InDown(s) => WaitList(s)
      case _ => Nowhere
  }

  /** The lists and the threads' own fields tell the same story. */
  ghost predicate Shape(st: State) {
    && Typed(st)
    && NoDup(st.ready) && NoDup(st.sleeping)
    && (forall s | 0 <= s < |st.semas| :: NoDup(st.semas[s].waiters))
    && (forall t | 0 <= t < |st.threads| :: Placed(st, t))
  }

  ghost predicate Placed(st: State, t: Tid)
    requires t < |st.threads|
  {
    var p := PlaceOf(st.threads[t]);
    && p != Nowhere
    && (st.cur == Some(t) <==> p == Cpu)
    && (t in st.ready <==> p == ReadyList)
    && (t in st.sleeping <==> p == SleepList)
    && (forall s | 0 <= s < |st.semas| :: t in st.semas[s].waiters <==> p == WaitList(s))
  }

  /** On a well-shaped state a thread is on at most one list. */
  lemma OnOneList(st: State, t: Tid)
    requires Shape(st) && t < |st.threads|
    ensures !(t in st.ready && t in st.sleeping)
    ensures forall s | 0 <= s < |st.semas| && t in st.semas[s].waiters :: t !in st.ready && t !in st.sleeping
    ensures forall s, r | 0 <= s < |st.semas| && 0 <= r < |st.semas|
                          && t in st.semas[s].waiters && t in st.semas[r].waiters :: s == r
    ensures st.threads[t].status == Blocked <==>
            t in st.sleeping || exists s | 0 <= s < |st.semas| :: t in st.semas[s].waiters
  {
    assert Placed(st, t) && ThreadTyped(st.threads[t], |st.semas|);
  }

  // ---------------------------------------------------------------- preservation, primitive by primitive

  lemma ParkShape(st: State, t: Tid, s: SemaId)
    requires Shape(st) && OnCpu(st, t) && s < |st.semas|
    ensures Shape(Park(st, t, s))
  {
    var st' := Park(st, t, s);
    assert Placed(st, t);
    AppendNew(st.semas[s].waiters, t);
    forall u | 0 <= u < |st.threads| ensures Placed(st', u) && ThreadTyped(st'.threads[u], |st.semas|) {
      assert Placed(st, u) && ThreadTyped(st.threads[u], |st.semas|);
    }
    forall r | 0 <= r < |st.semas| ensures SemaTyped(st'.semas[r], |st.threads|) && NoDup(st'.semas[r].waiters) {
      assert SemaTyped(st.semas[r], |st.threads|);
    }
  }

  lemma DescheduleShape(st: State, t: Tid)
    requires Shape(st) && OnCpu(st, t)
    ensures Shape(Deschedule(st, t))
  {
    var st' := Deschedule(st, t);
    assert Placed(st, t);
    AppendNew(st.ready, t);
    forall u | 0 <= u < |st.threads| ensures Placed(st', u) && ThreadTyped(st'.threads[u], |st.semas|) {
      assert Placed(st, u) && ThreadTyped(st.threads[u], |st.semas|);
    }
    forall r | 0 <= r < |st.semas| ensures SemaTyped(st'.semas[r], |st.threads|) && NoDup(st'.semas[r].waiters) {
      assert SemaTyped(st.semas[r], |st.threads|);
    }
  }

  lemma FallAsleepShape(st: State, t: Tid, until: int)
    requires Shape(st) && OnCpu(st, t)
    ensures Shape(FallAsleep(st, t, until))
  {
    var st' := FallAsleep(st, t, until);
    assert Placed(st, t);
    InsertNew(ByWakeup(st'.threads), t, st.sleeping);
    forall u | 0 <= u < |st.threads| ensures Placed(st', u) && ThreadTyped(st'.threads[u], |st.semas|) {
      assert Placed(st, u) && ThreadTyped(st.threads[u], |st.semas|);
    }
    forall r | 0 <= r < |st.semas| ensures SemaTyped(st'.semas[r], |st.threads|) && NoDup(st'.semas[r].waiters) {
      assert SemaTyped(st.semas[r], |st.threads|);
    }
  }

  lemma InsertNew<T>(less: (T, T) -> bool, x: T, s: seq<T>)
    requires NoDup(s) && x !in s
    ensures NoDup(InsertOrdered(less, x, s))
    ensures forall y :: y in InsertOrdered(less, x, s) <==> y in s || y == x
  {
    InsertAt(s, InsertPosition(less, x, s), x);
  }

  lemma DispatchShape(st: State)
    requires Shape(st) && st.cur == None
    ensures Shape(Dispatch(st))
  {
    if st.ready != [] {
      var st' := Dispatch(st);
      var k := Top(st.threads, st.ready);
      RemoveAt(st.ready, k);
      assert Placed(st, st.ready[k]);
      forall u | 0 <= u < |st.threads| ensures Placed(st', u) && ThreadTyped(st'.threads[u], |st.semas|) {
        assert Placed(st, u) && ThreadTyped(st.threads[u], |st.semas|);
      }
      forall r | 0 <= r < |st.semas| ensures SemaTyped(st'.semas[r], |st.threads|) && NoDup(st'.semas[r].waiters) {
        assert SemaTyped(st.semas[r], |st.threads|);
      }
    }
  }

  lemma WakeShape(st: State, s: SemaId)
    requires Shape(st) && s < |st.semas|
    ensures Shape(Wake(st, s))
  {
    var st', x := Wake(st, s), st.semas[s];
    assert SemaTyped(x, |st.threads|);
    if x.waiters != [] {
      var k := Top(st.threads, x.waiters);
      RemoveAt(x.waiters, k);
      assert x.waiters[k] in x.waiters;
      assert Placed(st, x.waiters[k]);
      AppendNew(st.ready, x.waiters[k]);
    }
    forall u | 0 <= u < |st.threads| ensures Placed(st', u) && ThreadTyped(st'.threads[u], |st.semas|) {
      assert Placed(st, u) && ThreadTyped(st.threads[u], |st.semas|);
    }
    forall r | 0 <= r < |st.semas| ensures SemaTyped(st'.semas[r], |st.threads|) && NoDup(st'.semas[r].waiters) {
      assert SemaTyped(st.semas[r], |st.threads|);
    }
  }

  /** A step that leaves the lists, the statuses and the program counters of blocked threads alone. */
  ghost predicate SamePlaces(st: State, st': State) {
    && |st'.threads| == |st.threads| && |st'.semas| == |st.semas|
    && st'.ready == st.ready && st'.sleeping == st.sleeping && st'.cur == st.cur
    && (forall s | 0 <= s < |st.semas| :: st'.semas[s].waiters == st.semas[s].waiters)
    && (forall t | 0 <= t < |st.threads| :: PlaceOf(st'.threads[t]) == PlaceOf(st.threads[t]))
  }

  lemma SamePlacesShape(st: State, st': State)
    requires Shape(st) && SamePlaces(st, st') && Typed(st')
    ensures Shape(st')
  {
    forall u | 0 <= u < |st.threads| ensures Placed(st', u) {
      assert Placed(st, u);
    }
  }
}
