/** Bottom-up merge sort as a computation on sequences: runs of 1, 2, 4, ... elements. */
module BottomUpSort {
  import opened Ordering

  function Min(a: nat, b: nat): nat {
    if a < b then a else b
  }

  /** Merging two runs under an order, as a function value. */
  ghost function Merging<T>(less: (T, T) -> bool): (seq<T>, seq<T>) -> seq<T> {
    (a, b) => Merge(less, a, b)
  }

  /** One pass at run size k with merge operation mg: neighbouring runs are merged two at a time. */
  ghost function PairsBy<T>(mg: (seq<T>, seq<T>) -> seq<T>, s: seq<T>, k: nat): seq<T>
    requires k >= 1
    decreases |s|
  {
    if s == [] then []
    else
      var m, n := Min(k, |s|), Min(2 * k, |s|);
      mg(s[..m], s[m..n]) + PairsBy(mg, s[n..], k)
  }

  /** The pass that merges under an order. */
  ghost function MergePairs<T>(less: (T, T) -> bool, s: seq<T>, k: nat): (r: seq<T>)
    requires k >= 1
    ensures |r| == |s|
  {
    PairsLength(less, s, k);
    PairsBy(Merging(less), s, k)
  }

  lemma {:induction false} PairsLength<T>(less: (T, T) -> bool, s: seq<T>, k: nat)
    requires k >= 1
    ensures |PairsBy(Merging(less), s, k)| == |s|
    decreases |s|
  {
    if s != [] {
      PairsLength(less, s[Min(2 * k, |s|)..], k);
    }
  }

  /** The merges that a pass counts. */
  ghost function Merges(n: nat, k: nat): nat
    requires k >= 1
  {
    if n == 0 then 0 else 1 + Merges(n - Min(2 * k, n), k)
  }

  lemma ByUnfold<T>(mg: (seq<T>, seq<T>) -> seq<T>, s: seq<T>, k: nat, a: seq<T>, b: seq<T>, c: seq<T>)
    requires k >= 1 && s != [] && a == s[..Min(k, |s|)] && b == s[Min(k, |s|)..Min(2 * k, |s|)] && c == s[Min(2 * k, |s|)..]
    ensures PairsBy(mg, s, k) == mg(a, b) + PairsBy(mg, c, k)
  {
  }

  lemma Shift<T>(total: seq<T>, out: seq<T>, here: seq<T>, merged: seq<T>, rest: seq<T>)
    requires out + here == total && here == merged + rest
    ensures out + merged + rest == total
  {
  }

  lemma Sliced<T>(s: seq<T>, i: nat, m: nat, end: nat)
    requires i <= m <= end <= |s|
    ensures s[i..][..m - i] == s[i..m] && s[i..][m - i..end - i] == s[m..end] && s[i..][end - i..] == s[end..]
  {
  }

  /** Every aligned block of k elements is sorted. */
  ghost predicate BlocksSorted<T>(less: (T, T) -> bool, s: seq<T>, k: nat)
    requires k >= 1
    decreases |s|
  {
    s == [] || (Sorted(less, s[..Min(k, |s|)]) && BlocksSorted(less, s[Min(k, |s|)..], k))
  }

  lemma {:induction false} OnesSorted<T>(less: (T, T) -> bool, s: seq<T>)
    ensures BlocksSorted(less, s, 1)
    decreases |s|
  {
    if s != [] {
      OnesSorted(less, s[1..]);
    }
  }

  /** A whole list that is one block is sorted. */
  lemma OneBlock<T>(less: (T, T) -> bool, s: seq<T>, k: nat)
    requires k >= 1 && |s| <= k && BlocksSorted(less, s, k)
    ensures Sorted(less, s)
  {
    if s != [] {
      assert s[..|s|] == s;
    }
  }

  /** One merge of a pass: s is a block a, a block b and a rest c. */
  lemma PairStep<T>(less: (T, T) -> bool, s: seq<T>, k: nat, dom: set<T>) returns (a: seq<T>, b: seq<T>, c: seq<T>)
    requires k >= 1 && s != [] && Over(s, dom)
    ensures s == a + b + c && |c| < |s| && |a + b| == Min(2 * k, |s|)
    ensures Over(a, dom) && Over(b, dom) && Over(c, dom)
    ensures MergePairs(less, s, k) == Merge(less, a, b) + MergePairs(less, c, k)
    ensures BlocksSorted(less, s, k) ==> Sorted(less, a) && Sorted(less, b) && BlocksSorted(less, c, k)
  {
    var m, n := Min(k, |s|), Min(2 * k, |s|);
    a, b, c := s[..m], s[m..n], s[n..];
    Joined(s, m, n);
    ByUnfold(Merging(less), s, k, a, b, c);
    if BlocksSorted(less, s, k) {
      TwoBlocks(less, s, k);
    }
  }

  lemma Joined<T>(s: seq<T>, m: nat, n: nat)
    requires m <= n <= |s|
    ensures s == s[..m] + s[m..n] + s[n..] && |s[..m] + s[m..n]| == n
  {
  }

  lemma TwoBlocks<T>(less: (T, T) -> bool, s: seq<T>, k: nat)
    requires k >= 1 && s != [] && BlocksSorted(less, s, k)
    ensures var m, n := Min(k, |s|), Min(2 * k, |s|);
            Sorted(less, s[..m]) && Sorted(less, s[m..n]) && BlocksSorted(less, s[n..], k)
  {
    var m, n := Min(k, |s|), Min(2 * k, |s|);
    var t := s[m..];
    assert BlocksSorted(less, t, k);
    assert t[..Min(k, |t|)] == s[m..n];
    assert t[Min(k, |t|)..] == s[n..];
  }

  lemma {:induction false} PairsElements<T>(less: (T, T) -> bool, s: seq<T>, k: nat, dom: set<T>)
    requires k >= 1 && Over(s, dom)
    ensures multiset(MergePairs(less, s, k)) == multiset(s)
    decreases |s|
  {
    if s != [] {
      var a, b, c := PairStep(less, s, k, dom);
      MergeElements(less, a, b);
      PairsElements(less, c, k, dom);
    }
  }

  lemma {:induction false} PairsStable<T>(less: (T, T) -> bool, s: seq<T>, k: nat, x: T, dom: set<T>)
    requires k >= 1 && StrictWeak(less, dom) && Over(s, dom) && x in dom && BlocksSorted(less, s, k)
    ensures Peers(less, x, MergePairs(less, s, k)) == Peers(less, x, s)
    decreases |s|
  {
    if s != [] {
      var a, b, c := PairStep(less, s, k, dom);
      MergeStable(less, a, b, x, dom);
      PairsStable(less, c, k, x, dom);
      PeersConcat(less, x, Merge(less, a, b), MergePairs(less, c, k));
      PeersConcat(less, x, a + b, c);
      PeersConcat(less, x, a, b);
    }
  }

  /** After the pass at run size k every aligned block of 2k is sorted. */
  lemma {:induction false} PairsSorted<T>(less: (T, T) -> bool, s: seq<T>, k: nat, dom: set<T>)
    requires k >= 1 && StrictWeak(less, dom) && Over(s, dom) && BlocksSorted(less, s, k)
    ensures BlocksSorted(less, MergePairs(less, s, k), 2 * k)
    decreases |s|
  {
    if s != [] {
      var a, b, c := PairStep(less, s, k, dom);
      PairsSorted(less, c, k, dom);
      MergeSorted(less, a, b, dom);
      FrontBlock(less, Merge(less, a, b), MergePairs(less, c, k), 2 * k);
    }
  }

  lemma FrontBlock<T>(less: (T, T) -> bool, front: seq<T>, rest: seq<T>, k: nat)
    requires k >= 1 && Sorted(less, front) && BlocksSorted(less, rest, k) && (|front| == k || (|front| < k && rest == []))
    ensures BlocksSorted(less, front + rest, k)
  {
    var s := front + rest;
    assert s[..|front|] == front && s[|front|..] == rest;
  }

  lemma PairsFacts<T>(less: (T, T) -> bool, s: seq<T>, k: nat, dom: set<T>)
    requires k >= 1 && StrictWeak(less, dom) && Over(s, dom) && BlocksSorted(less, s, k)
    ensures var t := MergePairs(less, s, k);
            StableRearrangement(less, s, t) && Over(t, dom) && BlocksSorted(less, t, 2 * k)
  {
    var t := MergePairs(less, s, k);
    PairsElements(less, s, k, dom);
    PairsSorted(less, s, k, dom);
    forall x | x in s ensures Peers(less, x, t) == Peers(less, x, s) {
      PairsStable(less, s, k, x, dom);
    }
    OverKept(s, t, dom);
  }

  lemma MergesOne(n: nat, k: nat)
    requires k >= 1
    ensures Merges(n, k) <= 1 <==> n <= 2 * k
  {
    assert Merges(n - Min(2 * k, n), k) == 0 <==> n <= 2 * k;
  }

  /** The list when the passes stop: after one that made at most one merge. */
  ghost function BottomUp<T>(less: (T, T) -> bool, s: seq<T>, k: nat): seq<T>
    requires k >= 1
    decreases |s| - k
  {
    MergesOne(|s|, k);
    if Merges(|s|, k) <= 1 then MergePairs(less, s, k) else BottomUp(less, MergePairs(less, s, k), 2 * k)
  }

  lemma {:induction false} BottomUpCorrect<T>(less: (T, T) -> bool, s: seq<T>, k: nat, dom: set<T>)
    requires k >= 1 && StrictWeak(less, dom) && Over(s, dom) && BlocksSorted(less, s, k)
    ensures Sorted(less, BottomUp(less, s, k)) && StableRearrangement(less, s, BottomUp(less, s, k))
    decreases |s| - k
  {
    var t := MergePairs(less, s, k);
    PairsFacts(less, s, k, dom);
    MergesOne(|s|, k);
    if Merges(|s|, k) <= 1 {
      OneBlock(less, t, 2 * k);
    } else {
      BottomUpCorrect(less, t, 2 * k, dom);
      StableTransitive(less, s, t, BottomUp(less, t, 2 * k));
    }
  }

  /** The bottom-up sort and the natural merge sort compute the same list. */
  lemma SortsAgree<T>(less: (T, T) -> bool, s: seq<T>, dom: set<T>)
    requires StrictWeak(less, dom) && Over(s, dom)
    ensures BottomUp(less, s, 1) == NaturalSort(less, s, dom)
  {
    OnesSorted(less, s);
    BottomUpCorrect(less, s, 1, dom);
    NaturalSortCorrect(less, s, dom);
    Agree(less, s, BottomUp(less, s, 1), NaturalSort(less, s, dom), dom);
  }

  lemma Agree<T>(less: (T, T) -> bool, s: seq<T>, t: seq<T>, u: seq<T>, dom: set<T>)
    requires StrictWeak(less, dom) && Over(s, dom) && Sorted(less, t) && Sorted(less, u)
    requires StableRearrangement(less, s, t) && StableRearrangement(less, s, u)
    ensures t == u
  {
    OverKept(s, t, dom);
    OverKept(s, u, dom);
    forall x | x in t ensures Peers(less, x, u) == Peers(less, x, t) {
      assert x in multiset(t);
    }
    StableSortUnique(less, t, u, dom);
  }

  lemma OverKept<T>(s: seq<T>, t: seq<T>, dom: set<T>)
    requires Over(s, dom) && multiset(t) == multiset(s)
    ensures Over(t, dom)
  {
    forall i | 0 <= i < |t| ensures t[i] in dom {
      assert t[i] in multiset(s);
    }
  }
}
