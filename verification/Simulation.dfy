/** When a machine behaves like a simpler one over a whole run.

    `step` moves the machine, `flat` the simple one, `view` says which state of the simple one a state
    stands for.  A request lands in a state if taking the step there and taking it on the view agree. */
module Simulation {
  import opened Common

  /** The state after the first k requests. */
  ghost function RunTo<S, R>(step: (S, R) -> S, s: S, rs: seq<R>, k: nat): S
    requires k <= |rs|
  {
    if k == 0 then s else step(RunTo(step, s, rs, k - 1), rs[k - 1])
  }

  /** The answers to the first k requests. */
  ghost function AnswersTo<S, R, A>(step: (S, R) -> S, answer: (S, R) -> A, s: S, rs: seq<R>, k: nat): (a: seq<A>)
    requires k <= |rs|
    ensures |a| == k
  {
    if k == 0 then []
    else AnswersTo(step, answer, s, rs, k - 1) + [answer(RunTo(step, s, rs, k - 1), rs[k - 1])]
  }

  /** Where a run stands after k requests, and what it has answered. */
  ghost predicate Reached<S, R, A>(step: (S, R) -> S, answer: (S, R) -> A, s: S, rs: seq<R>, k: nat, now: S, answers: seq<A>)
    requires k <= |rs|
  {
    now == RunTo(step, s, rs, k) && answers == AnswersTo(step, answer, s, rs, k)
  }

  lemma ReachesStart<S, R, A>(step: (S, R) -> S, answer: (S, R) -> A, s: S, rs: seq<R>)
    ensures AsUnit(Reached(step, answer, s, rs, 0, s, []))
  {
  }

  lemma ReachesNext<S, R, A>(step: (S, R) -> S, answer: (S, R) -> A, s: S, rs: seq<R>, k: nat, now: S, answers: seq<A>, now': S, a: A)
    requires k < |rs| && AsUnit(Reached(step, answer, s, rs, k, now, answers))
    requires AsUnit(now' == step(now, rs[k]) && a == answer(now, rs[k]))
    ensures AsUnit(Reached(step, answer, s, rs, k + 1, now', answers + [a]))
  {
  }

  /** From every good state a fitting request leads to a good state, and `lands` says exactly when the
      views agree afterwards. */
  ghost predicate Exact<S(!new), R(!new), V>(step: (S, R) -> S, flat: (V, R) -> V, view: S -> V,
                                             lands: (S, R) -> bool, good: S -> bool, fits: R -> bool) {
    forall s, r | good(s) && fits(r) ::
      good(step(s, r)) && (view(step(s, r)) == flat(view(s), r) <==> lands(s, r))
  }

  ghost predicate SameAnswers<S(!new), R(!new), V, A>(answer: (S, R) -> A, flatAnswer: (V, R) -> A, view: S -> V,
                                                      good: S -> bool, fits: R -> bool) {
    forall s, r | good(s) && fits(r) :: answer(s, r) == flatAnswer(view(s), r)
  }

  /** After k requests the machine stands for what the simple one would be. */
  ghost predicate AgreesAt<S, R, V>(step: (S, R) -> S, flat: (V, R) -> V, view: S -> V, s: S, rs: seq<R>, k: nat)
    requires k <= |rs|
  {
    view(RunTo(step, s, rs, k)) == RunTo(flat, view(s), rs, k)
  }

  ghost predicate LandsAt<S, R>(step: (S, R) -> S, lands: (S, R) -> bool, s: S, rs: seq<R>, k: nat)
    requires k < |rs|
  {
    lands(RunTo(step, s, rs, k), rs[k])
  }

  /** The first k requests land. */
  ghost predicate AllLand<S, R>(step: (S, R) -> S, lands: (S, R) -> bool, s: S, rs: seq<R>, k: nat)
    requires k <= |rs|
  {
    forall j | 0 <= j < k :: LandsAt(step, lands, s, rs, j)
  }

  lemma {:induction false} StaysGood<S(!new), R(!new), V>(step: (S, R) -> S, flat: (V, R) -> V, view: S -> V, lands: (S, R) -> bool,
                                        good: S -> bool, fits: R -> bool, s: S, rs: seq<R>, k: nat)
    requires Exact(step, flat, view, lands, good, fits) && good(s) && (forall r | r in rs :: fits(r)) && k <= |rs|
    ensures good(RunTo(step, s, rs, k))
  {
    if k > 0 {
      StaysGood(step, flat, view, lands, good, fits, s, rs, k - 1);
      assert rs[k - 1] in rs;
    }
  }

  /** Where the machines agree, they agree after the next request if and only if it lands. */
  lemma AgreesNext<S(!new), R(!new), V>(step: (S, R) -> S, flat: (V, R) -> V, view: S -> V, lands: (S, R) -> bool,
                                        good: S -> bool, fits: R -> bool, s: S, rs: seq<R>, k: nat)
    requires Exact(step, flat, view, lands, good, fits) && good(s) && (forall r | r in rs :: fits(r)) && k < |rs|
    requires AgreesAt(step, flat, view, s, rs, k)
    ensures AgreesAt(step, flat, view, s, rs, k + 1) <==> LandsAt(step, lands, s, rs, k)
  {
    StaysGood(step, flat, view, lands, good, fits, s, rs, k);
    assert rs[k] in rs;
  }

  lemma {:induction false} AgreesWhileLanding<S(!new), R(!new), V>(step: (S, R) -> S, flat: (V, R) -> V, view: S -> V,
      lands: (S, R) -> bool, good: S -> bool, fits: R -> bool, s: S, rs: seq<R>, k: nat)
    requires Exact(step, flat, view, lands, good, fits) && good(s) && (forall r | r in rs :: fits(r)) && k <= |rs|
    requires AllLand(step, lands, s, rs, k)
    ensures AgreesAt(step, flat, view, s, rs, k)
  {
    if k > 0 {
      AgreesWhileLanding(step, flat, view, lands, good, fits, s, rs, k - 1);
      AgreesNext(step, flat, view, lands, good, fits, s, rs, k - 1);
    }
  }

  /** The machines agree throughout a run if and only if every request lands in the state it meets. */
  lemma RunExact<S(!new), R(!new), V>(step: (S, R) -> S, flat: (V, R) -> V, view: S -> V, lands: (S, R) -> bool,
                                      good: S -> bool, fits: R -> bool, s: S, rs: seq<R>)
    requires Exact(step, flat, view, lands, good, fits) && good(s) && (forall r | r in rs :: fits(r))
    ensures (forall k | 0 <= k <= |rs| :: AgreesAt(step, flat, view, s, rs, k))
            <==> AllLand(step, lands, s, rs, |rs|)
  {
    if AllLand(step, lands, s, rs, |rs|) {
      forall k | 0 <= k <= |rs| ensures AgreesAt(step, flat, view, s, rs, k) {
        AgreesWhileLanding(step, flat, view, lands, good, fits, s, rs, k);
      }
    }
    if forall k | 0 <= k <= |rs| :: AgreesAt(step, flat, view, s, rs, k) {
      forall k | 0 <= k < |rs| ensures LandsAt(step, lands, s, rs, k) {
        assert AgreesAt(step, flat, view, s, rs, k) && AgreesAt(step, flat, view, s, rs, k + 1);
        AgreesNext(step, flat, view, lands, good, fits, s, rs, k);
      }
    }
  }

  /** While every request lands, every answer is the simple machine's. */
  lemma {:induction false} AnswersAgree<S(!new), R(!new), V, A>(step: (S, R) -> S, flat: (V, R) -> V, view: S -> V,
      lands: (S, R) -> bool, answer: (S, R) -> A, flatAnswer: (V, R) -> A, good: S -> bool, fits: R -> bool,
      s: S, rs: seq<R>, k: nat)
    requires Exact(step, flat, view, lands, good, fits) && SameAnswers(answer, flatAnswer, view, good, fits)
    requires good(s) && (forall r | r in rs :: fits(r)) && k <= |rs|
    requires AllLand(step, lands, s, rs, k)
    ensures AnswersTo(step, answer, s, rs, k) == AnswersTo(flat, flatAnswer, view(s), rs, k)
  {
    if k > 0 {
      AnswersAgree(step, flat, view, lands, answer, flatAnswer, good, fits, s, rs, k - 1);
      AgreesWhileLanding(step, flat, view, lands, good, fits, s, rs, k - 1);
      StaysGood(step, flat, view, lands, good, fits, s, rs, k - 1);
      assert rs[k - 1] in rs;
    }
  }
}
