/** Priority donation: adjust_priority and flush_priority, and the lower bounds they maintain. */
module KernelDonation {
  import opened Common
  import opened KernelState

  /** The thread after adjust_priority: a greater donation replaces its priority, without held locks
      it falls back to its own, and otherwise nothing changes. */
  function Adjusted(th: Thread, ls: seq<Sema>): Thread
    requires Ids(th.held, |ls|)
  {
    if th.held == [] then th.(priority := th.intrinsic)
    else
      var m := MaxDonation(ls, th.held);
      if th.intrinsic < m then th.(priority := m) else th
  }

  predicate Links(ts: seq<Thread>, ls: seq<Sema>) {
    && (forall s | 0 <= s < |ls| :: SemaTyped(ls[s], |ts|))
    && (forall t | 0 <= t < |ts| :: ThreadTyped(ts[t], |ls|))
  }

  /** No priority anywhere exceeds `cap`. */
  ghost predicate Capped(ts: seq<Thread>, ls: seq<Sema>, cap: int) {
    && (forall t | 0 <= t < |ts| :: ts[t].priority <= cap && ts[t].intrinsic <= cap)
    && (forall s | 0 <= s < |ls| :: ls[s].maxPriority <= cap)
  }

  ghost function Slack(ls: seq<Sema>, cap: int): (r: int)
    ensures (forall s | 0 <= s < |ls| :: ls[s].maxPriority <= cap) ==> r >= 0
  {
    if ls == [] then 0 else (cap - ls[0].maxPriority) + Slack(ls[1..], cap)
  }

  function Raise(ls: seq<Sema>, l: SemaId, p: int): (r: seq<Sema>)
    requires l < |ls|
    ensures |r| == |ls|
  {
    ls[l := ls[l].(maxPriority := p)]
  }

  lemma {:induction false} SlackRaise(ls: seq<Sema>, l: SemaId, p: int, cap: int)
    requires l < |ls|
    ensures Slack(Raise(ls, l, p), cap) == Slack(ls, cap) - (p - ls[l].maxPriority)
  {
    var r := Raise(ls, l, p);
    if l == 0 {
      assert r[1..] == ls[1..];
    } else {
      SlackRaise(ls[1..], l - 1, p, cap);
      assert r[1..] == Raise(ls[1..], l - 1, p);
    }
  }

  /** flush_priority: raise the awaited lock to the thread's priority, adjust its holder, and go on
      from the holder.  It ends on every wait-for graph, cyclic or not: each turn raises some lock's
      priority, and none ever passes the greatest priority there was at the start. */
  function Flush(ts: seq<Thread>, ls: seq<Sema>, t: Tid, ghost cap: int): (r: (seq<Thread>, seq<Sema>))
    requires t < |ts| && Links(ts, ls) && Capped(ts, ls, cap)
    decreases Slack(ls, cap)
  {
    if t < |ts| && ts[t].waiting.Some? && ts[t].priority > ls[ts[t].waiting.value].maxPriority then
      var l := ts[t].waiting.value;
      var ls' := Raise(ls, l, ts[t].priority);
      if ls[l].holder.Some? then
        var h := ls[l].holder.value;
        SlackRaise(ls, l, ts[t].priority, cap);
        TurnKeepsTypes(ts, ls, t, cap);
        Flush(ts[h := Adjusted(ts[h], ls')], ls', h, cap)
      else (ts, ls')
    else (ts, ls)
  }

  lemma TurnKeepsTypes(ts: seq<Thread>, ls: seq<Sema>, t: Tid, cap: int)
    requires t < |ts| && Links(ts, ls) && Capped(ts, ls, cap)
    requires ts[t].waiting.Some? && ls[ts[t].waiting.value].holder.Some?
    requires ts[t].priority > ls[ts[t].waiting.value].maxPriority
    ensures var l := ts[t].waiting.value;
            var h, ls' := ls[l].holder.value, Raise(ls, l, ts[t].priority);
            && h < |ts| && Ids(ts[h].held, |ls'|)
            && Links(ts[h := Adjusted(ts[h], ls')], ls')
            && Capped(ts[h := Adjusted(ts[h], ls')], ls', cap)
  {
    var l := ts[t].waiting.value;
    assert SemaTyped(ls[l], |ts|) && ThreadTyped(ts[t], |ls|);
    var h, ls' := ls[l].holder.value, Raise(ls, l, ts[t].priority);
    assert ThreadTyped(ts[h], |ls|);
    assert Adjusted(ts[h], ls').priority <= cap;
  }

  // ---------------------------------------------------------------- what donation leaves alone

  /** Donation writes nothing but thread priorities and lock priorities. */
  ghost predicate OnlyPriorities(ts: seq<Thread>, ls: seq<Sema>, ts': seq<Thread>, ls': seq<Sema>) {
    && |ts'| == |ts| && |ls'| == |ls|
    && (forall t | 0 <= t < |ts| :: ts'[t] == ts[t].(priority := ts'[t].priority))
    && (forall s | 0 <= s < |ls| :: ls'[s] == ls[s].(maxPriority := ls'[s].maxPriority))
  }

  lemma {:induction false} FlushFrame(ts: seq<Thread>, ls: seq<Sema>, t: Tid, cap: int)
    requires t < |ts| && Links(ts, ls) && Capped(ts, ls, cap)
    ensures var (ts', ls') := Flush(ts, ls, t, cap);
            OnlyPriorities(ts, ls, ts', ls') && Links(ts', ls') && Capped(ts', ls', cap)
    decreases Slack(ls, cap)
  {
    if ts[t].waiting.Some? && ts[t].priority > ls[ts[t].waiting.value].maxPriority {
      var l := ts[t].waiting.value;
      var ls1 := Raise(ls, l, ts[t].priority);
      assert ThreadTyped(ts[t], |ls|) && SemaTyped(ls[l], |ts|);
      if ls[l].holder.Some? {
        var h := ls[l].holder.value;
        SlackRaise(ls, l, ts[t].priority, cap);
        TurnKeepsTypes(ts, ls, t, cap);
        FlushFrame(ts[h := Adjusted(ts[h], ls1)], ls1, h, cap);
      } else {
        forall s | 0 <= s < |ls| ensures SemaTyped(ls1[s], |ts|) {
          assert SemaTyped(ls[s], |ts|);
        }
      }
    }
  }

  // ---------------------------------------------------------------- the lower bounds

  /** A thread holds exactly the locks whose holder it is. */
  ghost predicate Owned(ts: seq<Thread>, ls: seq<Sema>) {
    forall t, l | 0 <= t < |ts| && 0 <= l < |ls| :: ls[l].holder == Some(t) <==> l in ts[t].held
  }

  /** No thread is below its own priority. */
  ghost predicate AboveOwn(ts: seq<Thread>) {
    forall t | 0 <= t < |ts| :: ts[t].intrinsic <= ts[t].priority
  }

  /** Every holder is at least as urgent as the lock it holds. */
  ghost predicate AboveLocks(ts: seq<Thread>, ls: seq<Sema>) {
    forall l | 0 <= l < |ls| && ls[l].holder.Some? && ls[l].holder.value < |ts| ::
      ls[l].maxPriority <= ts[ls[l].holder.value].priority
  }

  /** Every lock is at least as urgent as a thread waiting for it, the threads in `exempt` aside. */
  ghost predicate AboveWaiters(ts: seq<Thread>, ls: seq<Sema>, exempt: set<Tid>) {
    forall t | 0 <= t < |ts| && t !in exempt && ts[t].waiting.Some? && ts[t].waiting.value < |ls| ::
      ts[t].priority <= ls[ts[t].waiting.value].maxPriority
  }

  ghost predicate Bounds(ts: seq<Thread>, ls: seq<Sema>, exempt: set<Tid>) {
    Owned(ts, ls) && AboveOwn(ts) && AboveLocks(ts, ls) && AboveWaiters(ts, ls, exempt)
  }

  /** After adjust_priority a thread is above its own priority and every lock it holds. */
  lemma AdjustedAbove(th: Thread, ls: seq<Sema>)
    requires Ids(th.held, |ls|) && th.intrinsic <= th.priority
    ensures var a := Adjusted(th, ls);
            && a == th.(priority := a.priority) && th.intrinsic <= a.priority
            && forall l | l in th.held :: ls[l].maxPriority <= a.priority
  {
    if th.held != [] {
      var m := MaxDonation(ls, th.held);
      forall l | l in th.held ensures ls[l].maxPriority <= m {
        var j :| 0 <= j < |th.held| && th.held[j] == l;
      }
    }
  }

  /** One turn of flush_priority: the bounds survive, with the exemption passed on to the holder. */
  lemma TurnKeepsBounds(ts: seq<Thread>, ls: seq<Sema>, t: Tid, l: SemaId, h: Tid, exempt: set<Tid>)
    requires t < |ts| && l < |ls| && h < |ts| && Links(ts, ls) && Bounds(ts, ls, exempt + {t})
    requires ts[t].waiting == Some(l) && ts[t].priority > ls[l].maxPriority && ls[l].holder == Some(h)
    ensures var ls' := Raise(ls, l, ts[t].priority);
            Ids(ts[h].held, |ls'|) && Bounds(ts[h := Adjusted(ts[h], ls')], ls', exempt + {h})
  {
    var ls' := Raise(ls, l, ts[t].priority);
    assert ThreadTyped(ts[h], |ls|);
    AdjustedAbove(ts[h], ls');
    var ts' := ts[h := Adjusted(ts[h], ls')];
    forall k | 0 <= k < |ls'| && ls'[k].holder.Some? && ls'[k].holder.value < |ts'|
      ensures ls'[k].maxPriority <= ts'[ls'[k].holder.value].priority
    {
      assert ls'[k].holder == ls[k].holder;
      if ls[k].holder.value == h {
        assert k in ts[h].held;
      }
    }
    assert Owned(ts', ls');
    assert AboveWaiters(ts', ls', exempt + {h});
  }

  /** flush_priority repairs the bounds: if they hold everywhere except that the calling thread may
      exceed the lock it waits for, they hold everywhere afterwards. */
  lemma FlushRestoresBounds(ts: seq<Thread>, ls: seq<Sema>, t: Tid, cap: int, exempt: set<Tid>)
    requires t < |ts| && Links(ts, ls) && Capped(ts, ls, cap)
    requires Bounds(ts, ls, exempt + {t})
    ensures var (ts', ls') := Flush(ts, ls, t, cap); Bounds(ts', ls', exempt - {t})
  {
    var (ts', ls') := Flush(ts, ls, t, cap);
    FlushBounds(ts, ls, t, cap, exempt, ts', ls');
  }

  lemma {:induction false} FlushBounds(ts: seq<Thread>, ls: seq<Sema>, t: Tid, cap: int, exempt: set<Tid>,
                                       ts': seq<Thread>, ls': seq<Sema>)
    requires t < |ts| && Links(ts, ls) && Capped(ts, ls, cap) && Flush(ts, ls, t, cap) == (ts', ls')
    requires Bounds(ts, ls, exempt + {t})
    ensures AsUnit(Bounds(ts', ls', exempt - {t}))
    decreases Slack(ls, cap)
  {
    assert ThreadTyped(ts[t], |ls|);
    if ts[t].waiting.Some? && ts[t].priority > ls[ts[t].waiting.value].maxPriority {
      var l := ts[t].waiting.value;
      assert SemaTyped(ls[l], |ts|);
      if ls[l].holder.Some? {
        var h, ls1 := ls[l].holder.value, Raise(ls, l, ts[t].priority);
        SlackRaise(ls, l, ts[t].priority, cap);
        TurnKeepsTypes(ts, ls, t, cap);
        assert (exempt - {t}) + {t} == exempt + {t};
        TurnKeepsBounds(ts, ls, t, l, h, exempt - {t});
        FlushBounds(ts[h := Adjusted(ts[h], ls1)], ls1, h, cap, exempt - {t}, ts', ls');
        FewerExempt(ts', ls', exempt - {t} - {h}, exempt - {t});
      } else {
        RaiseUnheld(ts, ls, t, l, exempt);
      }
    } else {
      NothingToFlush(ts, ls, t, exempt);
    }
  }

  lemma NothingToFlush(ts: seq<Thread>, ls: seq<Sema>, t: Tid, exempt: set<Tid>)
    requires t < |ts| && Bounds(ts, ls, exempt + {t}) && ThreadTyped(ts[t], |ls|)
    requires ts[t].waiting.Some? ==> ts[t].priority <= ls[ts[t].waiting.value].maxPriority
    ensures Bounds(ts, ls, exempt - {t})
  {
  }

  lemma FewerExempt(ts: seq<Thread>, ls: seq<Sema>, few: set<Tid>, more: set<Tid>)
    requires Bounds(ts, ls, few) && few <= more
    ensures Bounds(ts, ls, more)
  {
  }

  /** Raising a lock that nobody holds. */
  lemma RaiseUnheld(ts: seq<Thread>, ls: seq<Sema>, t: Tid, l: SemaId, exempt: set<Tid>)
    requires t < |ts| && l < |ls| && Bounds(ts, ls, exempt + {t})
    requires ts[t].waiting == Some(l) && ts[t].priority > ls[l].maxPriority && ls[l].holder == None
    ensures Bounds(ts, Raise(ls, l, ts[t].priority), exempt - {t})
  {
    var ls' := Raise(ls, l, ts[t].priority);
    assert Owned(ts, ls');
    assert AboveWaiters(ts, ls', exempt - {t});
  }
}
