/** The kernel's intrusive doubly linked list and its natural merge sort.

    A list is two header elements and the interior elements between them, linked both ways.  The
    ghost sequence that accompanies an operation is the whole chain, headers included; every
    operation says what it does to that sequence and that the links still agree with it. */
module IntrusiveList {
  import opened Ordering

  class Elem {
    var prev: Elem?
    var next: Elem?

    constructor ()
      ensures prev == null && next == null
    {
      prev, next := null, null;
    }
  }

  /** The elements of `c`, in order, are linked from front header to back header. */
  ghost predicate Linked(c: seq<Elem>)
    reads c
  {
    && |c| >= 2
    && Distinct(c)
    && c[0].prev == null
    && c[|c| - 1].next == null
    && (forall k {:trigger c[k].next} | 0 <= k < |c| - 1 :: c[k].next == c[k + 1])
    && (forall k {:trigger c[k].prev} | 1 <= k < |c| :: c[k].prev == c[k - 1])
  }

  ghost predicate Distinct<T>(c: seq<T>) {
    forall j, k | 0 <= j < k < |c| :: c[j] != c[k]
  }

  ghost function Interior(c: seq<Elem>): seq<Elem>
    requires |c| >= 2
  {
    c[1..|c| - 1]
  }

  // ---------------------------------------------------------------- insertion, removal, splicing

  method Insert(before: Elem, elem: Elem, ghost c: seq<Elem>, ghost p: nat) returns (ghost c': seq<Elem>)
    requires Linked(c) && 1 <= p < |c| && c[p] == before && elem !in c
    modifies elem, before, before.prev
    ensures c' == c[..p] + [elem] + c[p..]
    ensures Linked(c')
  {
    elem.prev := before.prev;
    elem.next := before;
    before.prev.next := elem;
    before.prev := elem;
    c' := c[..p] + [elem] + c[p..];
  }

  method Remove(elem: Elem, ghost c: seq<Elem>, ghost p: nat) returns (next: Elem, ghost c': seq<Elem>)
    requires Linked(c) && 1 <= p < |c| - 1 && c[p] == elem
    modifies elem.prev, elem.next
    ensures c' == c[..p] + c[p + 1..]
    ensures Linked(c')
    ensures next == c[p + 1] && elem.next == old(elem.next) && elem.prev == old(elem.prev)
  {
    elem.prev.next := elem.next;
    elem.next.prev := elem.prev;
    next := elem.next;
    c' := c[..p] + c[p + 1..];
  }

  /** Links inside a detached stretch: its elements are chained, whatever its two ends point at. */
  ghost predicate Strand(d: seq<Elem>)
    reads d
  {
    && Distinct(d)
    && (forall k {:trigger d[k].next} | 0 <= k < |d| - 1 :: d[k].next == d[k + 1])
    && (forall k {:trigger d[k].prev} | 1 <= k < |d| :: d[k].prev == d[k - 1])
  }

  ghost predicate Disjoint<T>(c: seq<T>, d: seq<T>) {
    forall j, k | 0 <= j < |c| && 0 <= k < |d| :: c[j] != d[k]
  }

  /** First half of a splice: close the source chain over the stretch. */
  method Detach(first: Elem, final: Elem, ghost c: seq<Elem>, ghost i: nat, ghost j: nat)
    requires Linked(c) && 1 <= i < j < |c| && c[i] == first && c[j - 1] == final
    modifies first.prev, final.next
    ensures Linked(c[..i] + c[j..])
    ensures Strand(c[i..j]) && Disjoint(c[..i] + c[j..], c[i..j])
  {
    assert final.next == c[j];
    first.prev.next := final.next;
    final.next.prev := first.prev;
  }

  /** Second half of a splice: open the destination chain around the stretch. */
  method Attach(before: Elem, first: Elem, final: Elem, ghost s: seq<Elem>, ghost d: seq<Elem>, ghost q: nat)
    requires s != [] && Strand(s) && s[0] == first && s[|s| - 1] == final
    requires Linked(d) && 1 <= q < |d| && d[q] == before
    requires Disjoint(d, s)
    modifies first, final, before, before.prev
    ensures Linked(d[..q] + s + d[q..])
  {
    first.prev := before.prev;
    final.next := before;
    before.prev.next := first;
    before.prev := final;
    ghost var r := d[..q] + s + d[q..];
    assert Distinct(r);
    forall k | 0 <= k < |r| - 1 ensures r[k].next == r[k + 1] {
      if k < q {
        assert r[k] == d[k];
      } else if k < q + |s| {
        assert r[k] == s[k - q];
      } else {
        assert r[k] == d[k - |s|];
      }
    }
    forall k | 1 <= k < |r| ensures r[k].prev == r[k - 1] {
      if k < q {
        assert r[k] == d[k];
      } else if k < q + |s| {
        assert r[k] == s[k - q];
      } else {
        assert r[k] == d[k - |s|];
      }
    }
  }

  /** Moves positions i..j (exclusive) of chain `c` in front of position q of chain `d`, where `d` is
      either another list or what is left of `c` itself. */
  method Splice(before: Elem, first: Elem, last: Elem,
                ghost c: seq<Elem>, ghost i: nat, ghost j: nat, ghost d: seq<Elem>, ghost q: nat, ghost fp: set<Elem>)
    requires Over(c, fp) && Over(d, fp)
    requires Linked(c) && 1 <= i <= j < |c| && c[i] == first && c[j] == last
    requires 1 <= q < |d| && d[q] == before
    requires d == c[..i] + c[j..] || (Linked(d) && Disjoint(c, d))
    modifies fp
    ensures Linked(d[..q] + c[i..j] + d[q..])
    ensures Disjoint(c, d) ==> Linked(c[..i] + c[j..])
  {
    if first == last {
      assert d[..q] + c[i..j] + d[q..] == d;
      assert c[..i] + c[j..] == c;
      return;
    }
    var final := last.prev;
    Detach(first, final, c, i, j);
    Attach(before, first, final, c[i..j], d, q);
  }

  // ---------------------------------------------------------------- sorting

  /** True exactly when positions i..j of the chain form a run. */
  method IsSorted(a: Elem, b: Elem, less: (Elem, Elem) -> bool, ghost c: seq<Elem>, ghost i: nat, ghost j: nat)
    returns (r: bool)
    requires Linked(c) && 1 <= i <= j < |c| && c[i] == a && c[j] == b
    ensures r <==> IsRun(less, c[i..j])
  {
    if a != b {
      var e := a.next;
      ghost var k := i + 1;
      while e != b
        invariant i < k <= j && c[k] == e
        invariant IsRun(less, c[i..k])
        decreases j - k
      {
        if less(e, e.prev) {
          assert c[i..j][k - i] == e && c[i..j][k - i - 1] == e.prev;
          return false;
        }
        k := k + 1;
        e := e.next;
        assert c[i..k] == c[i..k - 1] + [c[k - 1]];
      }
    }
    return true;
  }

  method FindEndOfRun(a: Elem, b: Elem, less: (Elem, Elem) -> bool, ghost c: seq<Elem>, ghost i: nat, ghost j: nat)
    returns (e: Elem, ghost k: nat)
    requires Linked(c) && 1 <= i < j < |c| && c[i] == a && c[j] == b
    ensures k == i + RunLength(less, c[i..j]) && i < k <= j && c[k] == e
    ensures IsRun(less, c[i..k])
  {
    e := a.next;
    k := i + 1;
    while e != b && !less(e, e.prev)
      invariant i < k <= j && c[k] == e
      invariant IsRun(less, c[i..k])
      decreases j - k
    {
      assert c[i..k + 1] == c[i..k] + [c[k]];
      e := e.next;
      k := k + 1;
    }
    assert c[i..j][..k - i] == c[i..k];
    RunLengthSpec(less, c[i..j], k - i);
  }

  /** How far a merge of i..m and m..e has come: positions i..x are final, x..y is what is left of
      the first run and y..e what is left of the second. */
  ghost predicate Merging<T>(less: (T, T) -> bool, c: seq<T>, i: nat, m: nat, e: nat, r: seq<T>, x: nat, y: nat)
    requires i <= m <= e <= |c|
  {
    && i <= x <= y <= e && |r| == |c| && multiset(r) == multiset(c)
    && r[..i] == c[..i] && r[e..] == c[e..]
    && r[i..x] + Merge(less, r[x..y], r[y..e]) == Merge(less, c[i..m], c[m..e])
  }

  lemma MergingKeep<T>(less: (T, T) -> bool, c: seq<T>, i: nat, m: nat, e: nat, r: seq<T>, x: nat, y: nat)
    requires i <= m <= e <= |c| && Merging(less, c, i, m, e, r, x, y)
    requires x < y < e && !less(r[y], r[x])
    ensures Merging(less, c, i, m, e, r, x + 1, y)
  {
    var a, b, done := r[x..y], r[y..e], r[i..x];
    assert a[1..] == r[x + 1..y] && done + [r[x]] == r[i..x + 1] by {
      Shift(r, i, x, y);
    }
    Regroup(done, [a[0]], Merge(less, a[1..], b));
  }

  lemma Shift<T>(r: seq<T>, i: nat, x: nat, y: nat)
    requires i <= x < y <= |r|
    ensures r[x..y][1..] == r[x + 1..y] && r[i..x] + [r[x]] == r[i..x + 1]
  {
  }

  ghost function Pulled<T>(r: seq<T>, x: nat, y: nat): (r': seq<T>)
    requires x <= y < |r|
    ensures |r'| == |r|
  {
    var d := r[..y] + r[y + 1..];
    d[..x] + r[y..y + 1] + d[x..]
  }

  lemma PulledParts<T>(r: seq<T>, i: nat, x: nat, y: nat, e: nat)
    requires i <= x < y < e <= |r|
    ensures var r' := Pulled(r, x, y);
            && r'[..i] == r[..i] && r'[e..] == r[e..]
            && r'[i..x + 1] == r[i..x] + [r[y]]
            && r'[x + 1..y + 1] == r[x..y]
            && r'[y + 1..e] == r[y..e][1..]
            && r'[x + 1] == r[x] && (forall k | y < k < |r| :: r'[k] == r[k])
  {
    PulledAt(r, x, y);
    var r' := Pulled(r, x, y);
    assert r'[..i] == r[..i];
    assert r'[e..] == r[e..];
    assert r'[i..x + 1] == r[i..x] + [r[y]];
    assert r'[x + 1..y + 1] == r[x..y];
    TailSlices(r, r', y, e);
  }

  lemma TailSlices<T>(r: seq<T>, r': seq<T>, y: nat, e: nat)
    requires y < e <= |r| == |r'| && forall k | y < k < |r| :: r'[k] == r[k]
    ensures r'[y + 1..e] == r[y..e][1..]
  {
    assert r[y..e][1..] == r[y + 1..e];
    assert forall k | y < k < e :: r'[k] == r[k];
    assert r'[y + 1..e] == r[y + 1..e];
  }

  lemma PulledAt<T>(r: seq<T>, x: nat, y: nat)
    requires x < y < |r|
    ensures forall k | 0 <= k < |r| ::
              Pulled(r, x, y)[k] == if k < x || k > y then r[k] else if k == x then r[y] else r[k - 1]
  {
    var d, p := r[..y] + r[y + 1..], Pulled(r, x, y);
    assert forall k | 0 <= k < |d| :: d[k] == if k < y then r[k] else r[k + 1];
    forall k | 0 <= k < |r| ensures p[k] == if k < x || k > y then r[k] else if k == x then r[y] else r[k - 1] {
      assert k < x ==> p[k] == d[k];
      assert k > x ==> p[k] == d[x..][k - x - 1] == d[k - 1];
    }
  }

  lemma PulledSplit<T>(r: seq<T>, x: nat, y: nat)
    requires x < y < |r|
    ensures Pulled(r, x, y) == r[..x] + [r[y]] + r[x..y] + r[y + 1..]
  {
    PulledAt(r, x, y);
  }

  lemma SeqSplit<T>(r: seq<T>, x: nat, y: nat)
    requires x < y < |r|
    ensures r == r[..x] + r[x..y] + [r[y]] + r[y + 1..]
  {
  }

  lemma PulledElements<T>(r: seq<T>, x: nat, y: nat)
    requires x < y < |r|
    ensures multiset(Pulled(r, x, y)) == multiset(r)
  {
    PulledSplit(r, x, y);
    SeqSplit(r, x, y);
    var a, b, c, d := r[..x], r[x..y], [r[y]], r[y + 1..];
    assert multiset(a + c + b + d) == multiset(a) + multiset(b) + multiset(c) + multiset(d);
    assert multiset(a + b + c + d) == multiset(a) + multiset(b) + multiset(c) + multiset(d);
  }

  lemma MergingPull<T>(less: (T, T) -> bool, c: seq<T>, i: nat, m: nat, e: nat, r: seq<T>, x: nat, y: nat)
    requires i <= m <= e <= |c| && Merging(less, c, i, m, e, r, x, y)
    requires x < y < e && less(r[y], r[x])
    ensures Merging(less, c, i, m, e, Pulled(r, x, y), x + 1, y + 1)
    ensures var r' := Pulled(r, x, y); r'[x + 1] == r[x] && (y + 1 < |r| ==> r'[y + 1] == r[y + 1])
    ensures e < |r| ==> Pulled(r, x, y)[e] == r[e]
  {
    var a, b := r[x..y], r[y..e];
    PulledParts(r, i, x, y, e);
    PulledElements(r, x, y);
    Regroup(r[i..x], [b[0]], Merge(less, a, b[1..]));
  }

  lemma MergingDone<T>(less: (T, T) -> bool, c: seq<T>, i: nat, m: nat, e: nat, r: seq<T>, x: nat, y: nat)
    requires i <= m <= e <= |c| && Merging(less, c, i, m, e, r, x, y)
    requires x == y || y == e
    ensures r == c[..i] + Merge(less, c[i..m], c[m..e]) + c[e..]
  {
    Glue(r, x, y, e);
    Glue(r, i, x, e);
    assert Merge(less, r[x..y], r[y..e]) == r[x..y] + r[y..e];
    Glue(r, 0, i, e);
    Glue(r, 0, e, |r|);
    assert r[0..i] == r[..i] && r[0..e] + r[e..|r|] == r;
  }

  lemma Glue<T>(r: seq<T>, a: nat, b: nat, c: nat)
    requires a <= b <= c <= |r|
    ensures r[a..b] + r[b..c] == r[a..c]
  {
  }

  /** Splices the one element just before `next` in front of `before`. */
  method PullBefore(before: Elem, next: Elem, ghost r: seq<Elem>, ghost x: nat, ghost y: nat, ghost fp: set<Elem>)
    requires Linked(r) && 1 <= x < y < |r| - 1 && r[x] == before && r[y + 1] == next && Over(r, fp)
    modifies fp
    ensures Linked(Pulled(r, x, y)) && Over(Pulled(r, x, y), fp)
  {
    Splice(before, next.prev, next, r, y, y + 1, r[..y] + r[y + 1..], x, fp);
  }

  /** The state of a merge: the chain `r` is linked, still made of the elements of `c`, and the three
      cursors stand at x, y and e. */
  ghost predicate MergeState(less: (Elem, Elem) -> bool, c: seq<Elem>, i: nat, m: nat, e: nat,
                             r: seq<Elem>, x: nat, y: nat, a0: Elem, a1b0: Elem, b1: Elem, fp: set<Elem>)
    requires 1 <= i <= m <= e < |c|
    reads r
  {
    && Linked(r) && Over(r, fp) && Merging(less, c, i, m, e, r, x, y)
    && r[x] == a0 && r[y] == a1b0 && r[e] == b1
  }

  /** One turn of the merge loop. */
  method MergeTurn(first: Elem, second: Elem, b1: Elem, less: (Elem, Elem) -> bool, ghost c: seq<Elem>,
                   ghost i: nat, ghost m: nat, ghost e: nat, ghost r: seq<Elem>, ghost x: nat, ghost y: nat,
                   ghost fp: set<Elem>)
    returns (a0: Elem, a1b0: Elem, ghost r': seq<Elem>, ghost y': nat)
    requires 1 <= i <= m <= e < |c| && MergeState(less, c, i, m, e, r, x, y, first, second, b1, fp)
    requires first != second && second != b1
    modifies fp
    ensures MergeState(less, c, i, m, e, r', x + 1, y', a0, a1b0, b1, fp)
  {
    if !less(second, first) {
      MergingKeep(less, c, i, m, e, r, x, y);
      a0, a1b0, r', y' := first.next, second, r, y;
    } else {
      MergingPull(less, c, i, m, e, r, x, y);
      a0, a1b0 := first, second.next;
      PullBefore(a0, a1b0, r, x, y, fp);
      r', y' := Pulled(r, x, y), y + 1;
    }
  }

  /** Merges the runs at i..m and m..e. */
  method InplaceMerge(start: Elem, mid: Elem, b1: Elem, less: (Elem, Elem) -> bool,
                      ghost c: seq<Elem>, ghost i: nat, ghost m: nat, ghost e: nat, ghost fp: set<Elem>)
    returns (ghost r: seq<Elem>)
    requires Over(c, fp)
    requires Linked(c) && 1 <= i < m < e < |c| && c[i] == start && c[m] == mid && c[e] == b1
    requires IsRun(less, c[i..m]) && IsRun(less, c[m..e])
    modifies fp
    ensures r == c[..i] + Merge(less, c[i..m], c[m..e]) + c[e..]
    ensures Linked(r) && Over(r, fp)
  {
    var a0, a1b0 := start, mid;
    ghost var x, y := i, m;
    r := c;
    while a0 != a1b0 && a1b0 != b1
      invariant MergeState(less, c, i, m, e, r, x, y, a0, a1b0, b1, fp)
      decreases e - x
    {
      a0, a1b0, r, y := MergeTurn(a0, a1b0, b1, less, c, i, m, e, r, x, y, fp);
      x := x + 1;
    }
    MergingDone(less, c, i, m, e, r, x, y);
  }
}
