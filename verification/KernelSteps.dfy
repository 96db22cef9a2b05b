/** The scheduler and the synchronization primitives as atomic steps on the kernel state. */
module KernelSteps {
  import opened Common
  import opened Ordering
  import opened KernelState
  import opened KernelDonation

  // ---------------------------------------------------------------- primitives

  function SetThread(st: State, t: Tid, th: Thread): State
    requires t < |st.threads|
  {
    st.(threads := st.threads[t := th])
  }

  function SetSema(st: State, s: SemaId, x: Sema): State
    requires s < |st.semas|
  {
    st.(semas := st.semas[s := x])
  }

  predicate OnCpu(st: State, t: Tid) {
    Typed(st) && st.cur == Some(t) && st.threads[t].status == Running
  }

  /** thread_block at the end of a semaphore's wait list. */
  function Park(st: State, t: Tid, s: SemaId): State
    requires OnCpu(st, t) && s < |st.semas|
  {
    SetThread(SetSema(st, s, st.semas[s].(waiters := st.semas[s].waiters + [t])),
              t, st.threads[t].(status := Blocked, pc := InDown(s))).(cur := None)
  }

  /** thread_yield up to the call of schedule. */
  function Deschedule(st: State, t: Tid): State
    requires OnCpu(st, t)
  {
    SetThread(st, t, st.threads[t].(status := Ready)).(ready := st.ready + [t], cur := None)
  }

  function ByWakeup(ts: seq<Thread>): (Tid, Tid) -> bool {
    (a: Tid, b: Tid) => a < |ts| && b < |ts| && ts[a].wakeup < ts[b].wakeup
  }

  /** thread_sleep up to the call of schedule. */
  function FallAsleep(st: State, t: Tid, until: int): State
    requires OnCpu(st, t)
  {
    var st' := SetThread(st, t, st.threads[t].(status := Blocked, pc := Asleep, wakeup := until));
    st'.(sleeping := InsertOrdered(ByWakeup(st'.threads), t, st.sleeping), cur := None)
  }

  /** schedule: the first most urgent ready thread gets the CPU; with none, the idle thread. */
  function Dispatch(st: State): State
    requires Typed(st) && st.cur == None
  {
    if st.ready == [] then st
    else
      var k := Top(st.threads, st.ready);
      var t := st.ready[k];
      SetThread(st, t, st.threads[t].(status := Running)).(ready := st.ready[..k] + st.ready[k + 1..], cur := Some(t))
  }

  /** sema_up without its final yield: wakes the first most urgent waiter, then counts up. */
  function Wake(st: State, s: SemaId): State
    requires Typed(st) && s < |st.semas|
  {
    var x := st.semas[s];
    assert SemaTyped(x, |st.threads|);
    if x.waiters == [] then SetSema(st, s, x.(value := x.value + 1, ups := x.ups + 1))
    else
      var k := Top(st.threads, x.waiters);
      var w := x.waiters[k];
      SetThread(SetSema(st, s, x.(value := x.value + 1, ups := x.ups + 1, waiters := x.waiters[..k] + x.waiters[k + 1..])),
                w, st.threads[w].(status := Ready)).(ready := st.ready + [w])
  }

  /** The successful end of a down by the running thread. */
  function Take(st: State, t: Tid, s: SemaId): State
    requires OnCpu(st, t) && s < |st.semas| && st.semas[s].value > 0
  {
    SetThread(SetSema(st, s, st.semas[s].(value := st.semas[s].value - 1, downs := st.semas[s].downs + 1)),
              t, st.threads[t].(pc := Free))
  }

  /** The end of lock_acquire: the thread becomes the holder and takes over the lock's donation. */
  function Own(st: State, t: Tid, l: SemaId): State
    requires OnCpu(st, t) && l < |st.semas|
  {
    assert ThreadTyped(st.threads[t], |st.semas|);
    var th := st.threads[t].(held := st.threads[t].held + [l]);
    SetThread(SetSema(st, l, st.semas[l].(holder := Some(t))),
              t, Adjusted(th, st.semas).(waiting := None))
  }

  function Without(held: seq<SemaId>, l: SemaId): (r: seq<SemaId>)
    ensures forall x | x in r :: x in held
  {
    if held == [] then []
    else if held[0] == l then held[1..]
    else [held[0]] + Without(held[1..], l)
  }

  /** The start of lock_release: gives the lock up and readjusts the former holder. */
  function Disown(st: State, t: Tid, l: SemaId): State
    requires OnCpu(st, t) && l < |st.semas|
  {
    assert ThreadTyped(st.threads[t], |st.semas|);
    var held := Without(st.threads[t].held, l);
    assert Ids(held, |st.semas|) by { WithoutIds(st.threads[t].held, l, |st.semas|); }
    SetThread(SetSema(st, l, st.semas[l].(holder := None)),
              t, Adjusted(st.threads[t].(held := held), st.semas))
  }

  lemma WithoutIds(held: seq<SemaId>, l: SemaId, n: nat)
    requires Ids(held, n)
    ensures Ids(Without(held, l), n)
  {
    var r := Without(held, l);
    forall k | 0 <= k < |r| ensures r[k] < n {
      assert r[k] in held;
    }
  }

  /** flush_lock_priority. */
  function Recompute(st: State, l: SemaId): State
    requires Typed(st) && l < |st.semas|
  {
    var x := st.semas[l];
    assert SemaTyped(x, |st.threads|);
    SetSema(st, l, x.(maxPriority := if x.waiters == [] then PRI_MIN
                                     else st.threads[x.waiters[Top(st.threads, x.waiters)]].priority))
  }
}
