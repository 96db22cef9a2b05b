/** Sequences under a strict weak order: the values that the list and sorting code computes.

    `less` is the comparison callback that the C code receives.  Nothing is assumed about it
    until a lemma says `StrictWeak(less, dom)`, and then only on the elements in `dom`. */
module Ordering {

  ghost predicate StrictWeak<T>(less: (T, T) -> bool, dom: set<T>) {
    && (forall a, b {:trigger less(a, b)} | a in dom && b in dom :: less(a, b) ==> !less(b, a))
    && (forall a, b, c {:trigger less(a, b), less(b, c)} | a in dom && b in dom && c in dom :: !less(a, b) && !less(b, c) ==> !less(a, c))
  }

  ghost predicate Over<T>(s: seq<T>, dom: set<T>) {
    forall i | 0 <= i < |s| :: s[i] in dom
  }

  /** Nondecreasing: no element is less than an earlier one. */
  ghost predicate Sorted<T>(less: (T, T) -> bool, s: seq<T>) {
    forall i, j | 0 <= i < j < |s| :: !less(s[j], s[i])
  }

  /** The elements of `s` that compare equal to `x`, in the order they have in `s`. */
  ghost function Peers<T>(less: (T, T) -> bool, x: T, s: seq<T>): seq<T> {
    if s == [] then []
    else (if !less(x, s[0]) && !less(s[0], x) then [s[0]] else []) + Peers(less, x, s[1..])
  }

  /** `t` is a stable rearrangement of `s`: the same elements, and elements that compare equal keep
      their relative order. */
  ghost predicate StableRearrangement<T>(less: (T, T) -> bool, s: seq<T>, t: seq<T>) {
    && multiset(t) == multiset(s)
    && forall x | x in s :: Peers(less, x, t) == Peers(less, x, s)
  }

  lemma {:induction false} PeersConcat<T>(less: (T, T) -> bool, x: T, a: seq<T>, b: seq<T>)
    ensures Peers(less, x, a + b) == Peers(less, x, a) + Peers(less, x, b)
  {
    if a == [] {
      assert a + b == b;
    } else {
      PeersConcat(less, x, a[1..], b);
      assert (a + b)[1..] == a[1..] + b;
      var p := if !less(x, a[0]) && !less(a[0], x) then [a[0]] else [];
      Regroup(p, Peers(less, x, a[1..]), Peers(less, x, b));
    }
  }

  lemma Regroup<T>(a: seq<T>, b: seq<T>, c: seq<T>)
    ensures a + (b + c) == (a + b) + c
  {
  }

  // ---------------------------------------------------------------- merging

  /** What merging two runs in place leaves behind: on ties the first run goes first. */
  ghost function Merge<T>(less: (T, T) -> bool, a: seq<T>, b: seq<T>): (r: seq<T>)
    ensures |r| == |a| + |b|
    decreases |a| + |b|
  {
    if a == [] then b
    else if b == [] then a
    else if !less(b[0], a[0]) then [a[0]] + Merge(less, a[1..], b)
    else [b[0]] + Merge(less, a, b[1..])
  }

  lemma {:induction false} MergeElements<T>(less: (T, T) -> bool, a: seq<T>, b: seq<T>)
    ensures multiset(Merge(less, a, b)) == multiset(a) + multiset(b)
    decreases |a| + |b|
  {
    if a == [] || b == [] {
    } else if !less(b[0], a[0]) {
      MergeElements(less, a[1..], b);
      assert a == [a[0]] + a[1..];
    } else {
      MergeElements(less, a, b[1..]);
      assert b == [b[0]] + b[1..];
    }
  }

  lemma InMerge<T>(less: (T, T) -> bool, a: seq<T>, b: seq<T>, i: nat)
    requires i < |a| + |b|
    ensures Merge(less, a, b)[i] in a || Merge(less, a, b)[i] in b
  {
    MergeElements(less, a, b);
    assert Merge(less, a, b)[i] in multiset(Merge(less, a, b));
  }

  /** Putting an element in front of a sorted sequence none of whose elements is less than it. */
  lemma SortedCons<T>(less: (T, T) -> bool, x: T, s: seq<T>)
    requires Sorted(less, s)
    requires forall i | 0 <= i < |s| :: !less(s[i], x)
    ensures Sorted(less, [x] + s)
  {
    var t := [x] + s;
    forall i, j | 0 <= i < j < |t| ensures !less(t[j], t[i]) {
      assert t[j] == s[j - 1];
      if i > 0 {
        assert t[i] == s[i - 1];
      }
    }
  }

  lemma {:induction false} MergeSorted<T>(less: (T, T) -> bool, a: seq<T>, b: seq<T>, dom: set<T>)
    requires StrictWeak(less, dom) && Over(a, dom) && Over(b, dom)
    requires Sorted(less, a) && Sorted(less, b)
    ensures Sorted(less, Merge(less, a, b))
    decreases |a| + |b|
  {
    if a == [] || b == [] {
    } else if !less(b[0], a[0]) {
      MergeSorted(less, a[1..], b, dom);
      var m := Merge(less, a[1..], b);
      forall i | 0 <= i < |m| ensures !less(m[i], a[0]) {
        InMerge(less, a[1..], b, i);
        HeadIsLeast(less, a, b, m[i], dom);
      }
      SortedCons(less, a[0], m);
    } else {
      MergeSorted(less, a, b[1..], dom);
      var m := Merge(less, a, b[1..]);
      forall i | 0 <= i < |m| ensures !less(m[i], b[0]) {
        InMerge(less, a, b[1..], i);
        HeadIsLeast(less, b, a, m[i], dom);
      }
      SortedCons(less, b[0], m);
    }
  }

  lemma HeadIsLeast<T>(less: (T, T) -> bool, a: seq<T>, b: seq<T>, y: T, dom: set<T>)
    requires StrictWeak(less, dom) && Over(a, dom) && Over(b, dom)
    requires a != [] && b != [] && Sorted(less, a) && Sorted(less, b) && !less(b[0], a[0])
    requires y in a || y in b
    ensures !less(y, a[0])
  {
    if y in a {
      var i :| 0 <= i < |a| && a[i] == y;
      assert i > 0 ==> !less(a[i], a[0]);
    } else {
      var i :| 0 <= i < |b| && b[i] == y;
      assert i > 0 ==> !less(b[i], b[0]);
      assert !less(y, b[0]);
    }
  }

  lemma {:induction false} MergeStable<T>(less: (T, T) -> bool, a: seq<T>, b: seq<T>, x: T, dom: set<T>)
    requires StrictWeak(less, dom) && Over(a, dom) && Over(b, dom) && x in dom
    requires Sorted(less, a)
    ensures Peers(less, x, Merge(less, a, b)) == Peers(less, x, a) + Peers(less, x, b)
    decreases |a| + |b|
  {
    if a == [] || b == [] {
    } else if !less(b[0], a[0]) {
      MergeStable(less, a[1..], b, x, dom);
      PeersConcat(less, x, [a[0]], Merge(less, a[1..], b));
      PeersConcat(less, x, [a[0]], a[1..]);
      assert a == [a[0]] + a[1..];
    } else {
      MergeStable(less, a, b[1..], x, dom);
      PeersConcat(less, x, [b[0]], Merge(less, a, b[1..]));
      PeersConcat(less, x, [b[0]], b[1..]);
      assert b == [b[0]] + b[1..];
      if Peers(less, x, [b[0]]) != [] {
        NoPeersAbove(less, a, b[0], x, dom);
      }
    }
  }

  /** A peer of something less than the whole sorted sequence `a` has no peers in `a`. */
  lemma NoPeersAbove<T>(less: (T, T) -> bool, a: seq<T>, y: T, x: T, dom: set<T>)
    requires StrictWeak(less, dom) && Over(a, dom) && x in dom && y in dom
    requires a != [] && Sorted(less, a) && less(y, a[0]) && !less(y, x)
    ensures Peers(less, x, a) == []
  {
    forall i | 0 <= i < |a| ensures less(x, a[i]) {
      assert i > 0 ==> !less(a[i], a[0]);
      assert less(y, a[0]) && !less(y, x);
    }
    NoPeers(less, x, a);
  }

  lemma {:induction false} NoPeers<T>(less: (T, T) -> bool, x: T, s: seq<T>)
    requires forall i | 0 <= i < |s| :: less(x, s[i])
    ensures Peers(less, x, s) == []
  {
    if s != [] {
      assert less(x, s[0]);
      NoPeers(less, x, s[1..]);
    }
  }

  // ---------------------------------------------------------------- runs

  /** Places where an element is less than the one just before it. */
  ghost function Descents<T>(less: (T, T) -> bool, s: seq<T>): nat {
    if |s| < 2 then 0
    else (if less(s[1], s[0]) then 1 else 0) + Descents(less, s[1..])
  }

  /** The number of maximal nondecreasing runs. */
  ghost function Runs<T>(less: (T, T) -> bool, s: seq<T>): nat {
    if s == [] then 0 else 1 + Descents(less, s)
  }

  /** No descent between neighbours: what the list code calls a run. */
  ghost predicate IsRun<T>(less: (T, T) -> bool, s: seq<T>) {
    forall k | 1 <= k < |s| :: !less(s[k], s[k - 1])
  }

  /** The length of the maximal run at the front. */
  ghost function RunLength<T>(less: (T, T) -> bool, s: seq<T>): (n: nat)
    requires s != []
    ensures 1 <= n <= |s|
  {
    if |s| == 1 || less(s[1], s[0]) then 1 else 1 + RunLength(less, s[1..])
  }

  /** `n` is the length of the front run exactly when the first `n` elements form a run that the
      next element does not extend. */
  lemma {:induction false} RunLengthSpec<T>(less: (T, T) -> bool, s: seq<T>, n: nat)
    requires 1 <= n <= |s|
    ensures n == RunLength(less, s)
      <==> IsRun(less, s[..n]) && (n < |s| ==> less(s[n], s[n - 1]))
  {
    if |s| == 1 {
    } else if less(s[1], s[0]) {
      assert n > 1 ==> !IsRun(less, s[..n]) by {
        if n > 1 {
          assert s[..n][1] == s[1];
        }
      }
    } else if n > 1 {
      RunLengthSpec(less, s[1..], n - 1);
      IsRunCons(less, s[0], s[1..][..n - 1]);
      assert s[..n] == [s[0]] + s[1..][..n - 1];
    }
  }

  lemma IsRunCons<T>(less: (T, T) -> bool, x: T, s: seq<T>)
    requires s != []
    ensures IsRun(less, [x] + s) <==> !less(s[0], x) && IsRun(less, s)
  {
    var t := [x] + s;
    assert t[1] == s[0];
    if IsRun(less, t) {
      assert !less(t[1], t[1 - 1]);
      forall k | 1 <= k < |s| ensures !less(s[k], s[k - 1]) {
        assert s[k] == t[k + 1] && s[k - 1] == t[k];
        assert !less(t[k + 1], t[k + 1 - 1]);
      }
    } else if !less(s[0], x) && IsRun(less, s) {
      forall k | 1 <= k < |t| ensures !less(t[k], t[k - 1]) {
        assert t[k] == s[k - 1];
        if k > 1 {
          assert t[k - 1] == s[k - 2];
        }
      }
    }
  }

  lemma {:induction false} DescentsConcat<T>(less: (T, T) -> bool, a: seq<T>, b: seq<T>)
    requires a != [] && b != []
    ensures Descents(less, a + b)
         == Descents(less, a) + (if less(b[0], a[|a| - 1]) then 1 else 0) + Descents(less, b)
  {
    assert (a + b)[1..] == a[1..] + b;
    if |a| > 1 {
      DescentsConcat(less, a[1..], b);
    } else {
      assert a[1..] + b == b;
    }
  }

  lemma {:induction false} RunHasNoDescents<T>(less: (T, T) -> bool, s: seq<T>)
    requires IsRun(less, s)
    ensures Descents(less, s) == 0
  {
    if |s| >= 2 {
      assert !less(s[1], s[0]);
      assert s == [s[0]] + s[1..];
      IsRunCons(less, s[0], s[1..]);
      RunHasNoDescents(less, s[1..]);
    }
  }

  lemma {:induction false} NoDescentsSorted<T>(less: (T, T) -> bool, s: seq<T>, dom: set<T>)
    requires StrictWeak(less, dom) && Over(s, dom)
    ensures Descents(less, s) == 0 <==> Sorted(less, s)
  {
    if |s| >= 2 {
      NoDescentsSorted(less, s[1..], dom);
      if Descents(less, s) == 0 {
        forall i | 0 <= i < |s[1..]| ensures !less(s[1..][i], s[0]) {
          assert i > 0 ==> !less(s[1..][i], s[1..][0]);
          assert !less(s[1], s[0]);
        }
        SortedCons(less, s[0], s[1..]);
        assert s == [s[0]] + s[1..];
      }
    }
  }

  /** The front run: it is sorted, and cutting it off removes exactly one run. */
  lemma FrontRun<T>(less: (T, T) -> bool, s: seq<T>, dom: set<T>)
    requires s != []
    requires StrictWeak(less, dom) && Over(s, dom)
    ensures Sorted(less, s[..RunLength(less, s)])
    ensures Runs(less, s) == 1 + Runs(less, s[RunLength(less, s)..])
  {
    var n := RunLength(less, s);
    var a, b := s[..n], s[n..];
    assert s == a + b;
    RunLengthSpec(less, s, n);
    RunHasNoDescents(less, a);
    NoDescentsSorted(less, a, dom);
    if b != [] {
      DescentsConcat(less, a, b);
    } else {
      assert a + b == a;
    }
  }

  // ---------------------------------------------------------------- one pass of the natural merge sort

  /** The list after one pass that merges adjacent runs two at a time. */
  ghost function Pass<T>(less: (T, T) -> bool, s: seq<T>): (r: seq<T>)
    ensures |r| == |s|
    decreases |s|
  {
    if s == [] then []
    else
      var a, bc := s[..RunLength(less, s)], s[RunLength(less, s)..];
      if bc == [] then s
      else
        var n := RunLength(less, bc);
        Merge(less, a, bc[..n]) + Pass(less, bc[n..])
  }

  /** The run count that the pass reports. */
  ghost function PassCount<T>(less: (T, T) -> bool, s: seq<T>): nat
    decreases |s|
  {
    if s == [] then 0
    else
      var bc := s[RunLength(less, s)..];
      if bc == [] then 1 else 1 + PassCount(less, bc[RunLength(less, bc)..])
  }

  /** The first run of a list, the second (empty if there is none) and the rest. */
  ghost function FrontRuns<T>(less: (T, T) -> bool, s: seq<T>): (seq<T>, seq<T>, seq<T>)
    requires s != []
  {
    var a, bc := s[..RunLength(less, s)], s[RunLength(less, s)..];
    if bc == [] then (s, [], [])
    else (a, bc[..RunLength(less, bc)], bc[RunLength(less, bc)..])
  }

  /** One step of a pass: `s` is a run `a`, a run `b` and a rest `c`, or a single run. */
  lemma PassStep<T>(less: (T, T) -> bool, s: seq<T>, dom: set<T>, a: seq<T>, b: seq<T>, c: seq<T>)
    requires s != [] && FrontRuns(less, s) == (a, b, c)
    requires StrictWeak(less, dom) && Over(s, dom)
    ensures s == a + b + c && |c| < |s| && a != [] && (b == [] ==> c == [])
    ensures Over(a, dom) && Over(b, dom) && Over(c, dom)
    ensures Sorted(less, a) && Sorted(less, b)
    ensures Pass(less, s) == Merge(less, a, b) + Pass(less, c)
    ensures PassCount(less, s) == 1 + PassCount(less, c)
    ensures Runs(less, s) == (if b == [] then 1 else 2 + Runs(less, c))
  {
    FrontRunsParts(less, s, a, b, c);
    FrontRunsPass(less, s, a, b, c);
    OverParts(a, b, c, dom);
    FrontRunsSorted(less, s, dom, a, b, c);
  }

  lemma FrontRunsParts<T>(less: (T, T) -> bool, s: seq<T>, a: seq<T>, b: seq<T>, c: seq<T>)
    requires s != [] && FrontRuns(less, s) == (a, b, c)
    ensures s == a + b + c && |c| < |s| && a != [] && (b == [] ==> c == [])
  {
    var n := RunLength(less, s);
    var bc := s[n..];
    assert s == s[..n] + bc;
    if bc != [] {
      assert bc == b + c;
      Regroup(a, b, c);
    }
  }

  lemma FrontRunsPass<T>(less: (T, T) -> bool, s: seq<T>, a: seq<T>, b: seq<T>, c: seq<T>)
    requires s != [] && FrontRuns(less, s) == (a, b, c)
    ensures Pass(less, s) == Merge(less, a, b) + Pass(less, c)
    ensures PassCount(less, s) == 1 + PassCount(less, c)
  {
    if s[RunLength(less, s)..] == [] {
      assert Merge(less, a, b) == s && s + [] == s;
    }
  }

  lemma FrontRunsSorted<T>(less: (T, T) -> bool, s: seq<T>, dom: set<T>, a: seq<T>, b: seq<T>, c: seq<T>)
    requires s != [] && FrontRuns(less, s) == (a, b, c) && StrictWeak(less, dom) && Over(s, dom)
    ensures Sorted(less, a) && Sorted(less, b)
    ensures Runs(less, s) == (if b == [] then 1 else 2 + Runs(less, c))
  {
    FrontRun(less, s, dom);
    var n := RunLength(less, s);
    if s[n..] == [] {
      assert s[..n] == s;
    } else {
      FrontRun(less, s[n..], dom);
    }
  }

  lemma OverParts<T>(a: seq<T>, b: seq<T>, c: seq<T>, dom: set<T>)
    requires Over((a + b) + c, dom)
    ensures Over(a, dom) && Over(b, dom) && Over(c, dom)
  {
    var s := (a + b) + c;
    forall i | 0 <= i < |a| ensures a[i] in dom { assert s[i] == a[i]; }
    forall i | 0 <= i < |b| ensures b[i] in dom { assert s[|a| + i] == b[i]; }
    forall i | 0 <= i < |c| ensures c[i] in dom { assert s[|a| + |b| + i] == c[i]; }
  }

  lemma {:induction false} PassCountIsHalf<T>(less: (T, T) -> bool, s: seq<T>, dom: set<T>)
    requires StrictWeak(less, dom) && Over(s, dom)
    ensures PassCount(less, s) == (Runs(less, s) + 1) / 2
    decreases |s|
  {
    if s != [] {
      var (a, b, c) := FrontRuns(less, s);
      PassStep(less, s, dom, a, b, c);
      PassCountIsHalf(less, c, dom);
    }
  }

  lemma {:induction false} PassRuns<T>(less: (T, T) -> bool, s: seq<T>, dom: set<T>)
    requires StrictWeak(less, dom) && Over(s, dom)
    ensures Runs(less, Pass(less, s)) <= PassCount(less, s)
    decreases |s|
  {
    if s != [] {
      var (a, b, c) := FrontRuns(less, s);
      PassStep(less, s, dom, a, b, c);
      PassRuns(less, c, dom);
      MergeSorted(less, a, b, dom);
      var front, rest := Merge(less, a, b), Pass(less, c);
      OverMerge(less, a, b, dom);
      NoDescentsSorted(less, front, dom);
      if rest == [] {
        assert front + rest == front;
      } else {
        DescentsConcat(less, front, rest);
      }
    }
  }

  lemma OverMerge<T>(less: (T, T) -> bool, a: seq<T>, b: seq<T>, dom: set<T>)
    requires Over(a, dom) && Over(b, dom)
    ensures Over(Merge(less, a, b), dom)
  {
    forall i | 0 <= i < |a| + |b| ensures Merge(less, a, b)[i] in dom {
      InMerge(less, a, b, i);
    }
  }

  lemma {:induction false} PassElements<T>(less: (T, T) -> bool, s: seq<T>, dom: set<T>)
    requires StrictWeak(less, dom) && Over(s, dom)
    ensures multiset(Pass(less, s)) == multiset(s)
    decreases |s|
  {
    if s != [] {
      var (a, b, c) := FrontRuns(less, s);
      PassStep(less, s, dom, a, b, c);
      MergeElements(less, a, b);
      PassElements(less, c, dom);
    }
  }

  lemma {:induction false} PassStable<T>(less: (T, T) -> bool, s: seq<T>, x: T, dom: set<T>)
    requires StrictWeak(less, dom) && Over(s, dom) && x in dom
    ensures Peers(less, x, Pass(less, s)) == Peers(less, x, s)
    decreases |s|
  {
    if s != [] {
      var (a, b, c) := FrontRuns(less, s);
      PassStep(less, s, dom, a, b, c);
      MergeStable(less, a, b, x, dom);
      PassStable(less, c, x, dom);
      PeersConcat(less, x, Merge(less, a, b), Pass(less, c));
      PeersConcat(less, x, a + b, c);
      PeersConcat(less, x, a, b);
    }
  }

  lemma SameElements<T>(s: seq<T>, t: seq<T>)
    requires multiset(s) == multiset(t)
    ensures |s| == |t|
    ensures (set x | x in s) == (set x | x in t)
    ensures forall x :: x in s <==> x in t
  {
    assert |multiset(s)| == |s| && |multiset(t)| == |t|;
    forall x ensures x in s <==> x in t {
      assert x in s <==> x in multiset(s);
      assert x in t <==> x in multiset(t);
    }
  }

  lemma StableTransitive<T>(less: (T, T) -> bool, s: seq<T>, t: seq<T>, u: seq<T>)
    requires StableRearrangement(less, s, t) && StableRearrangement(less, t, u)
    ensures StableRearrangement(less, s, u)
  {
    SameElements(s, t);
  }

  /** Smallest k with r <= 2^k, for r >= 1. */
  ghost function CeilLog2(r: nat): nat {
    if r <= 1 then 0 else 1 + CeilLog2((r + 1) / 2)
  }

  lemma {:induction false} CeilLog2Monotone(a: nat, b: nat)
    requires a <= b
    ensures CeilLog2(a) <= CeilLog2(b)
  {
    if a > 1 {
      CeilLog2Monotone((a + 1) / 2, (b + 1) / 2);
    }
  }

  ghost function Power2(k: nat): nat {
    if k == 0 then 1 else 2 * Power2(k - 1)
  }

  /** CeilLog2 really is the ceiling of the base-2 logarithm. */
  lemma {:induction false} CeilLog2Spec(r: nat)
    requires r >= 1
    ensures r <= Power2(CeilLog2(r))
    ensures CeilLog2(r) > 0 ==> Power2(CeilLog2(r) - 1) < r
  {
    if r > 1 {
      CeilLog2Spec((r + 1) / 2);
    }
  }

  // ---------------------------------------------------------------- the whole sort

  /** What one pass achieves: a stable rearrangement whose run count is at most the reported count,
      which is half the old run count rounded up. */
  lemma PassFacts<T>(less: (T, T) -> bool, s: seq<T>, dom: set<T>)
    requires StrictWeak(less, dom) && Over(s, dom)
    ensures StableRearrangement(less, s, Pass(less, s)) && Over(Pass(less, s), dom)
    ensures PassCount(less, s) == (Runs(less, s) + 1) / 2
    ensures Runs(less, Pass(less, s)) <= PassCount(less, s)
  {
    PassElements(less, s, dom);
    PassCountIsHalf(less, s, dom);
    PassRuns(less, s, dom);
    forall x | x in s ensures Peers(less, x, Pass(less, s)) == Peers(less, x, s) {
      PassStable(less, s, x, dom);
    }
    forall i | 0 <= i < |s| ensures Pass(less, s)[i] in dom {
      assert Pass(less, s)[i] in multiset(s);
    }
  }

  /** The list when the passes stop, and how many there were.  A pass that reports at most one run is
      the last. */
  ghost function NaturalSort<T>(less: (T, T) -> bool, s: seq<T>, dom: set<T>): seq<T>
    requires StrictWeak(less, dom) && Over(s, dom)
    decreases Runs(less, s)
  {
    PassFacts(less, s, dom);
    if PassCount(less, s) <= 1 then Pass(less, s) else NaturalSort(less, Pass(less, s), dom)
  }

  ghost function Passes<T>(less: (T, T) -> bool, s: seq<T>, dom: set<T>): nat
    requires StrictWeak(less, dom) && Over(s, dom)
    decreases Runs(less, s)
  {
    PassFacts(less, s, dom);
    if PassCount(less, s) <= 1 then 1 else 1 + Passes(less, Pass(less, s), dom)
  }

  lemma {:induction false} NaturalSortCorrect<T>(less: (T, T) -> bool, s: seq<T>, dom: set<T>)
    requires StrictWeak(less, dom) && Over(s, dom)
    ensures Sorted(less, NaturalSort(less, s, dom))
    ensures StableRearrangement(less, s, NaturalSort(less, s, dom))
    decreases Runs(less, s)
  {
    var t := Pass(less, s);
    PassFacts(less, s, dom);
    if PassCount(less, s) <= 1 {
      NoDescentsSorted(less, t, dom);
    } else {
      NaturalSortCorrect(less, t, dom);
      StableTransitive(less, s, t, NaturalSort(less, t, dom));
    }
  }

  /** A list that starts with r maximal runs takes at most max(1, ceil(log2 r)) passes. */
  lemma {:induction false} PassesLogarithmic<T>(less: (T, T) -> bool, s: seq<T>, dom: set<T>)
    requires StrictWeak(less, dom) && Over(s, dom)
    ensures 1 <= Passes(less, s, dom)
    ensures Passes(less, s, dom) <= 1 || Passes(less, s, dom) <= CeilLog2(Runs(less, s))
    decreases Runs(less, s)
  {
    var r := Runs(less, s);
    PassFacts(less, s, dom);
    if PassCount(less, s) > 1 {
      PassesLogarithmic(less, Pass(less, s), dom);
      LogStep(Passes(less, Pass(less, s), dom), Runs(less, Pass(less, s)), r);
    }
  }

  lemma LogStep(p: nat, r': nat, r: nat)
    requires r >= 3 && r' <= (r + 1) / 2
    requires p <= 1 || p <= CeilLog2(r')
    ensures 1 + p <= CeilLog2(r)
  {
    CeilLog2Monotone(r', (r + 1) / 2);
    CeilLog2Monotone(2, (r + 1) / 2);
  }

  // ---------------------------------------------------------------- the order decides the result

  /** Two sorted stable rearrangements of the same elements are equal, so "sorted and stable" leaves
      a sorting routine no freedom. */
  lemma {:induction false} StableSortUnique<T>(less: (T, T) -> bool, s: seq<T>, t: seq<T>, dom: set<T>)
    requires StrictWeak(less, dom) && Over(s, dom) && Over(t, dom)
    requires Sorted(less, s) && Sorted(less, t)
    requires StableRearrangement(less, s, t)
    ensures s == t
  {
    SameElements(s, t);
    if s != [] {
      SameHead(less, s, t, dom);
      DropHead(less, s[0], s[1..], t[1..]);
      StableSortUnique(less, s[1..], t[1..], dom);
    }
  }

  lemma SameHead<T>(less: (T, T) -> bool, s: seq<T>, t: seq<T>, dom: set<T>)
    requires StrictWeak(less, dom) && Over(s, dom) && Over(t, dom)
    requires Sorted(less, s) && Sorted(less, t)
    requires StableRearrangement(less, s, t) && s != [] && t != []
    ensures s[0] == t[0]
    ensures s == [s[0]] + s[1..] && t == [s[0]] + t[1..]
  {
    SameElements(s, t);
    NoneBelowHead(less, s, t[0], dom);
    NoneBelowHead(less, t, s[0], dom);
    assert Peers(less, s[0], s)[0] == s[0];
    assert Peers(less, s[0], t)[0] == t[0];
  }

  lemma NoneBelowHead<T>(less: (T, T) -> bool, s: seq<T>, y: T, dom: set<T>)
    requires StrictWeak(less, dom) && Over(s, dom) && Sorted(less, s) && y in s
    ensures !less(y, s[0])
  {
    var i :| 0 <= i < |s| && s[i] == y;
    assert i > 0 ==> !less(s[i], s[0]);
  }

  lemma DropHead<T>(less: (T, T) -> bool, x: T, s: seq<T>, t: seq<T>)
    requires StableRearrangement(less, [x] + s, [x] + t)
    ensures StableRearrangement(less, s, t)
  {
    assert multiset(s) == multiset([x] + s) - multiset{x};
    assert multiset(t) == multiset([x] + t) - multiset{x};
    forall z | z in s ensures Peers(less, z, t) == Peers(less, z, s) {
      assert z in [x] + s;
      PeersConcat(less, z, [x], s);
      PeersConcat(less, z, [x], t);
      var p := Peers(less, z, [x]);
      assert Peers(less, z, s) == (p + Peers(less, z, s))[|p|..];
      assert Peers(less, z, t) == (p + Peers(less, z, t))[|p|..];
    }
  }

  // ---------------------------------------------------------------- ordered insertion

  /** Where ordered insertion puts `x`: before the first element that is greater. */
  function InsertPosition<T>(less: (T, T) -> bool, x: T, s: seq<T>): (p: nat)
    ensures p <= |s|
    ensures p < |s| ==> less(x, s[p])
    ensures forall k | 0 <= k < p :: !less(x, s[k])
  {
    if s == [] || less(x, s[0]) then 0
    else
      var q := InsertPosition(less, x, s[1..]);
      assert forall k | 0 < k < q + 1 :: s[k] == s[1..][k - 1];
      q + 1
  }

  function InsertOrdered<T>(less: (T, T) -> bool, x: T, s: seq<T>): seq<T> {
    var p := InsertPosition(less, x, s);
    s[..p] + [x] + s[p..]
  }

  /** Ordered insertion keeps a sorted sequence sorted, adds exactly `x`, and puts `x` last among its
      peers; the peers of everything else keep their order. */
  lemma InsertOrderedCorrect<T>(less: (T, T) -> bool, x: T, s: seq<T>, dom: set<T>)
    requires StrictWeak(less, dom) && Over(s, dom) && x in dom && Sorted(less, s)
    ensures Sorted(less, InsertOrdered(less, x, s))
    ensures multiset(InsertOrdered(less, x, s)) == multiset(s) + multiset{x}
    ensures forall y | y in dom ::
              Peers(less, y, InsertOrdered(less, x, s))
              == Peers(less, y, s) + (if !less(x, y) && !less(y, x) then [x] else [])
  {
    var p := InsertPosition(less, x, s);
    assert s == s[..p] + s[p..];
    InsertedSorted(less, x, s, p, dom);
    forall y | y in dom
      ensures Peers(less, y, InsertOrdered(less, x, s))
           == Peers(less, y, s) + (if !less(x, y) && !less(y, x) then [x] else [])
    {
      InsertedPeers(less, x, s[..p], s[p..], y, dom);
    }
  }

  lemma InsertedPeers<T>(less: (T, T) -> bool, x: T, a: seq<T>, b: seq<T>, y: T, dom: set<T>)
    requires StrictWeak(less, dom) && Over(b, dom) && x in dom && y in dom
    requires Sorted(less, b) && (b != [] ==> less(x, b[0]))
    ensures Peers(less, y, a + [x] + b)
         == Peers(less, y, a + b) + (if !less(x, y) && !less(y, x) then [x] else [])
  {
    PeersConcat(less, y, a + [x], b);
    PeersConcat(less, y, a, [x]);
    PeersConcat(less, y, a, b);
    if !less(x, y) && !less(y, x) && b != [] {
      NoPeersAbove(less, b, x, y, dom);
    }
  }

  lemma InsertedSorted<T>(less: (T, T) -> bool, x: T, s: seq<T>, p: nat, dom: set<T>)
    requires StrictWeak(less, dom) && Over(s, dom) && x in dom && Sorted(less, s)
    requires p <= |s| && (p < |s| ==> less(x, s[p])) && (forall k | 0 <= k < p :: !less(x, s[k]))
    ensures Sorted(less, s[..p] + [x] + s[p..])
  {
    var t := s[..p] + [x] + s[p..];
    forall i, j | 0 <= i < j < |t| ensures !less(t[j], t[i]) {
      if j == p {
        assert t[i] == s[i];
      } else if i == p {
        assert t[j] == s[j - 1];
        assert j - 1 > p ==> !less(s[j - 1], s[p]);
        assert !less(s[j - 1], s[p]) && !less(s[p], x);
      } else {
        var i', j' := if i < p then i else i - 1, if j < p then j else j - 1;
        assert t[i] == s[i'] && t[j] == s[j'];
      }
    }
  }

  // ---------------------------------------------------------------- maximum

  /** The index a left-to-right scan ends on when it moves only to strictly greater elements. */
  function MaxIndex<T>(less: (T, T) -> bool, s: seq<T>): (m: nat)
    requires s != []
    ensures m < |s|
  {
    if |s| == 1 then 0
    else
      var m := MaxIndex(less, s[..|s| - 1]);
      if less(s[m], s[|s| - 1]) then |s| - 1 else m
  }

  /** That index holds a greatest element, and the first of them. */
  lemma {:induction false} MaxIndexCorrect<T>(less: (T, T) -> bool, s: seq<T>, dom: set<T>)
    requires s != [] && StrictWeak(less, dom) && Over(s, dom)
    ensures forall k | 0 <= k < |s| :: !less(s[MaxIndex(less, s)], s[k])
    ensures forall k | 0 <= k < MaxIndex(less, s) :: less(s[k], s[MaxIndex(less, s)])
  {
    if |s| > 1 {
      var t, n := s[..|s| - 1], |s| - 1;
      MaxIndexCorrect(less, t, dom);
      var m := MaxIndex(less, t);
      if less(s[m], s[n]) {
        forall k | 0 <= k < n ensures less(s[k], s[n]) {
          assert !less(s[m], t[k]);
        }
      } else {
        forall k | 0 <= k < |s| ensures !less(s[m], s[k]) {
          assert k < n ==> s[k] == t[k];
        }
      }
    }
  }
}
