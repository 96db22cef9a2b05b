/** The scheduler's state: threads, semaphores and locks, the ready and sleep lists.

    Interrupts are off inside every operation, so an operation is one atomic step up to the point
    where it gives up the CPU.  `cur == None` stands for the idle thread, which next_thread_to_run
    falls back on and which is on no list. */
module KernelState {
  import opened Common
  import opened Ordering

  type Tid = nat
  type SemaId = nat

  const PRI_MIN := 0
  const PRI_DEFAULT := 31
  const PRI_MAX := 63

  datatype Status = Running | Ready | Blocked

  /** Where a thread is inside the synchronization code when it is not running: nowhere, asleep on
      the sleep list, in the retry loop of a semaphore down, in a lock release that has not yet
      recomputed the lock's priority, or with interrupts on again just before a final thread_yield. */
  datatype Pc = Free | Asleep | InDown(sema: SemaId) | InRelease(lck: SemaId) | Yielding

  datatype Thread = Thread(
    status: Status,
    pc: Pc,
    intrinsic: int,
    priority: int,
    waiting: Option<SemaId>,
    held: seq<SemaId>,
    wakeup: int)

  /** A semaphore, or the semaphore inside a lock together with the lock's other fields.  The last
      three fields are history: the initial value and the completed downs and ups. */
  datatype Sema = Sema(
    value: nat,
    waiters: seq<Tid>,
    isLock: bool,
    holder: Option<Tid>,
    maxPriority: int,
    initial: nat,
    downs: nat,
    ups: nat)

  datatype State = State(
    threads: seq<Thread>,
    semas: seq<Sema>,
    ready: seq<Tid>,
    sleeping: seq<Tid>,
    cur: Option<Tid>,
    ticks: int)

  // ---------------------------------------------------------------- list_max on threads and locks

  function ByPriority(ts: seq<Thread>): (Tid, Tid) -> bool {
    (a: Tid, b: Tid) => a < |ts| && b < |ts| && ts[a].priority < ts[b].priority
  }

  function ByDonation(ls: seq<Sema>): (SemaId, SemaId) -> bool {
    (a: SemaId, b: SemaId) => a < |ls| && b < |ls| && ls[a].maxPriority < ls[b].maxPriority
  }

  predicate Ids(q: seq<nat>, n: nat) {
    forall k | 0 <= k < |q| :: q[k] < n
  }

  /** u comes before t on the list. */
  ghost predicate Before(q: seq<Tid>, u: Tid, t: Tid) {
    exists a, b | 0 <= a < b < |q| :: q[a] == u && q[b] == t
  }

  /** The position of the first most urgent thread in a queue. */
  function Top(ts: seq<Thread>, q: seq<Tid>): (k: nat)
    requires q != [] && Ids(q, |ts|)
    ensures k < |q|
    ensures forall j | 0 <= j < |q| :: ts[q[j]].priority <= ts[q[k]].priority
    ensures forall j | 0 <= j < k :: ts[q[j]].priority < ts[q[k]].priority
  {
    TopCorrect(ts, q);
    MaxIndex(ByPriority(ts), q)
  }

  lemma TopCorrect(ts: seq<Thread>, q: seq<Tid>)
    requires q != [] && Ids(q, |ts|)
    ensures var k := MaxIndex(ByPriority(ts), q);
            && (forall j | 0 <= j < |q| :: ts[q[j]].priority <= ts[q[k]].priority)
            && (forall j | 0 <= j < k :: ts[q[j]].priority < ts[q[k]].priority)
  {
    var less, k := ByPriority(ts), MaxIndex(ByPriority(ts), q);
    MaxIndexCorrect(less, q, set t | t in q);
    forall j | 0 <= j < |q| ensures ts[q[j]].priority <= ts[q[k]].priority {
      assert !less(q[k], q[j]);
    }
    forall j | 0 <= j < k ensures ts[q[j]].priority < ts[q[k]].priority {
      assert less(q[j], q[k]);
    }
  }

  /** The greatest donation among the locks a thread holds. */
  function MaxDonation(ls: seq<Sema>, held: seq<SemaId>): (m: int)
    requires held != [] && Ids(held, |ls|)
    ensures forall j | 0 <= j < |held| :: ls[held[j]].maxPriority <= m
    ensures exists j | 0 <= j < |held| :: ls[held[j]].maxPriority == m
  {
    DonationCorrect(ls, held);
    ls[held[MaxIndex(ByDonation(ls), held)]].maxPriority
  }

  lemma DonationCorrect(ls: seq<Sema>, held: seq<SemaId>)
    requires held != [] && Ids(held, |ls|)
    ensures var k := MaxIndex(ByDonation(ls), held);
            forall j | 0 <= j < |held| :: ls[held[j]].maxPriority <= ls[held[k]].maxPriority
  {
    var less, k := ByDonation(ls), MaxIndex(ByDonation(ls), held);
    MaxIndexCorrect(less, held, set t | t in held);
    forall j | 0 <= j < |held| ensures ls[held[j]].maxPriority <= ls[held[k]].maxPriority {
      assert !less(held[k], held[j]);
    }
  }

  // ---------------------------------------------------------------- well-formedness

  /** Every identifier in the state names an existing thread or semaphore. */
  predicate Typed(st: State) {
    var n, m := |st.threads|, |st.semas|;
    && Ids(st.ready, n) && Ids(st.sleeping, n)
    && (st.cur.Some? ==> st.cur.value < n)
    && (forall s | 0 <= s < m :: SemaTyped(st.semas[s], n))
    && (forall t | 0 <= t < n :: ThreadTyped(st.threads[t], m))
  }

  predicate SemaTyped(s: Sema, n: nat) {
    Ids(s.waiters, n) && (s.holder.Some? ==> s.holder.value < n)
  }

  predicate ThreadTyped(t: Thread, m: nat) {
    && Ids(t.held, m)
    && (t.waiting.Some? ==> t.waiting.value < m)
    && (t.pc.InDown? ==> t.pc.sema < m)
    && (t.pc.InRelease? ==> t.pc.lck < m)
  }
}
