/** Whole lists: two headers plus the elements between them, with the operations that look at the
    order of the elements. */
module Lists {
  import opened Ordering
  import opened IntrusiveList

  /** How far a pass over `s` has come: `done` is output in `count` runs, `rest` is still to be
      visited. */
  ghost predicate Passing<T>(less: (T, T) -> bool, s: seq<T>, done: seq<T>, rest: seq<T>, count: nat) {
    && multiset(done + rest) == multiset(s)
    && done + Pass(less, rest) == Pass(less, s)
    && count + PassCount(less, rest) == PassCount(less, s)
  }

  /** A pass meets a run `a`, a run `b` and then `rest`. */
  lemma PassParts<T>(less: (T, T) -> bool, a: seq<T>, b: seq<T>, rest: seq<T>)
    requires a != [] && b != []
    requires RunLength(less, a + (b + rest)) == |a| && RunLength(less, b + rest) == |b|
    ensures Pass(less, a + (b + rest)) == Merge(less, a, b) + Pass(less, rest)
    ensures PassCount(less, a + (b + rest)) == 1 + PassCount(less, rest)
  {
    var s, t := a + (b + rest), b + rest;
    assert s[..|a|] == a && s[|a|..] == t;
    assert t[..|b|] == b && t[|b|..] == rest;
  }

  lemma PassingStep<T>(less: (T, T) -> bool, s: seq<T>, done: seq<T>, a: seq<T>, b: seq<T>, rest: seq<T>, count: nat)
    requires a != [] && b != []
    requires Passing(less, s, done, a + (b + rest), count)
    requires RunLength(less, a + (b + rest)) == |a| && RunLength(less, b + rest) == |b|
    ensures Passing(less, s, done + Merge(less, a, b), rest, count + 1)
  {
    PassParts(less, a, b, rest);
    MergeElements(less, a, b);
    Regroup(done, Merge(less, a, b), Pass(less, rest));
    assert multiset(done + Merge(less, a, b) + rest) == multiset(done + (a + (b + rest)));
  }

  lemma PassingLast<T>(less: (T, T) -> bool, s: seq<T>, done: seq<T>, a: seq<T>, count: nat)
    requires a != [] && RunLength(less, a) == |a|
    requires Passing(less, s, done, a, count)
    ensures Passing(less, s, done + a, [], count + 1)
  {
    assert a[|a|..] == [];
    assert done + a + [] == done + a;
  }

  /** A chain in four pieces, and where the pieces lie. */
  lemma Pieces<T>(pre: seq<T>, a: seq<T>, b: seq<T>, post: seq<T>)
    ensures var c, i, m, e := pre + a + b + post, |pre|, |pre| + |a|, |pre| + |a| + |b|;
            && c[..i] == pre && c[i..m] == a && c[m..e] == b && c[e..] == post
  {
  }

  /** The front run of `mid`, which stands between `pre` and `post` in its chain. */
  method SplitRun(a: Elem, b: Elem, less: (Elem, Elem) -> bool, ghost c: seq<Elem>,
                  ghost pre: seq<Elem>, ghost mid: seq<Elem>, ghost post: seq<Elem>)
    returns (e: Elem, ghost run: seq<Elem>, ghost more: seq<Elem>)
    requires Linked(c) && c == pre + mid + post && pre != [] && mid != [] && post != [] && mid[0] == a && post[0] == b
    ensures mid == run + more && run != [] && RunLength(less, mid) == |run| && IsRun(less, run)
    ensures e == (more + post)[0]
  {
    ghost var k;
    assert pre + mid + [] + post == pre + mid + post;
    Pieces(pre, mid, [], post);
    e, k := FindEndOfRun(a, b, less, c, |pre|, |pre| + |mid|);
    run, more := mid[..k - |pre|], mid[k - |pre|..];
    assert run == c[|pre|..k];
  }

  /** Merges the neighbouring runs `a` and `b`. */
  method MergeRuns(a0: Elem, a1b0: Elem, b1: Elem, less: (Elem, Elem) -> bool, ghost c: seq<Elem>,
                   ghost pre: seq<Elem>, ghost a: seq<Elem>, ghost b: seq<Elem>, ghost post: seq<Elem>, ghost fp: set<Elem>)
    requires Over(c, fp)
    requires Linked(c) && c == pre + a + b + post && pre != [] && a != [] && b != [] && post != []
    requires a[0] == a0 && b[0] == a1b0 && post[0] == b1
    requires IsRun(less, a) && IsRun(less, b)
    modifies fp
    ensures Linked(pre + Merge(less, a, b) + post) && Over(pre + Merge(less, a, b) + post, fp)
  {
    Pieces(pre, a, b, post);
    ghost var r := InplaceMerge(a0, a1b0, b1, less, c, |pre|, |pre| + |a|, |pre| + |a| + |b|, fp);
    assert r == pre + Merge(less, a, b) + post;
  }

  /** The chain between the headers `h` and `t`. */
  ghost function Chain<T>(h: T, s: seq<T>, t: T): seq<T> {
    [h] + s + [t]
  }

  lemma ChainPieces<T>(h: T, done: seq<T>, a: seq<T>, b: seq<T>, rest: seq<T>, t: T)
    ensures Chain(h, done + (a + (b + rest)), t) == ([h] + done) + a + b + (rest + [t])
    ensures Chain(h, done + (a + (b + rest)), t) == ([h] + done + a) + (b + rest) + [t]
    ensures Chain(h, done + (a + (b + rest)), t) == ([h] + done) + (a + (b + rest)) + [t]
    ensures Chain(h, (done + a) + rest, t) == ([h] + done) + a + (rest + [t])
  {
  }

  /** One turn of a pass: finds two adjacent runs and merges them, or finds that only one is left. */
  method MergeNextRuns(a0: Elem, end: Elem, less: (Elem, Elem) -> bool,
                       ghost h: Elem, ghost s: seq<Elem>, ghost done: seq<Elem>, ghost rest: seq<Elem>, ghost count: nat,
                       ghost fp: set<Elem>)
    returns (b1: Elem, ghost done': seq<Elem>, ghost rest': seq<Elem>)
    requires Over(Chain(h, done + rest, end), fp)
    requires Linked(Chain(h, done + rest, end)) && rest != [] && rest[0] == a0
    requires Passing(less, s, done, rest, count)
    modifies fp
    ensures Over(Chain(h, done' + rest', end), fp)
    ensures Linked(Chain(h, done' + rest', end)) && Passing(less, s, done', rest', count + 1)
    ensures |rest'| < |rest| && b1 == (rest' + [end])[0]
  {
    ghost var c := Chain(h, done + rest, end);
    var a1b0; ghost var a, bc;
    assert c == ([h] + done) + rest + [end];
    a1b0, a, bc := SplitRun(a0, end, less, c, [h] + done, rest, [end]);
    if a1b0 == end {
      EndReached(h, done, a, bc, end);
      PassingLast(less, s, done, rest, count);
      return end, done + rest, [];
    }
    assert bc != [];
    b1, done', rest' := MergeWithNext(a0, a1b0, end, less, h, s, done, rest, a, bc, count, fp);
  }

  method MergeWithNext(a0: Elem, a1b0: Elem, end: Elem, less: (Elem, Elem) -> bool, ghost h: Elem, ghost s: seq<Elem>,
                       ghost done: seq<Elem>, ghost rest: seq<Elem>, ghost a: seq<Elem>, ghost bc: seq<Elem>, ghost count: nat,
                       ghost fp: set<Elem>)
    returns (b1: Elem, ghost done': seq<Elem>, ghost rest': seq<Elem>)
    requires rest == a + bc && a != [] && bc != [] && a[0] == a0 && bc[0] == a1b0
    requires Over(Chain(h, done + rest, end), fp)
    requires Linked(Chain(h, done + rest, end))
    requires IsRun(less, a) && RunLength(less, rest) == |a|
    requires Passing(less, s, done, rest, count)
    modifies fp
    ensures Over(Chain(h, done' + rest', end), fp)
    ensures Linked(Chain(h, done' + rest', end)) && Passing(less, s, done', rest', count + 1)
    ensures |rest'| < |bc| && b1 == (rest' + [end])[0]
  {
    ghost var c := Chain(h, done + rest, end);
    ghost var b;
    assert c == ([h] + done + a) + bc + [end] by {
      assert [] + bc == bc;
      ChainPieces(h, done, a, [], bc, end);
    }
    b1, b, rest' := SplitRun(a1b0, end, less, c, [h] + done + a, bc, [end]);
    ChainPieces(h, done, a, b, rest', end);
    ghost var mid := Merge(less, a, b);
    MergeRuns(a0, a1b0, b1, less, c, [h] + done, a, b, rest' + [end], fp);
    done' := done + mid;
    PassingStep(less, s, done, a, b, rest', count);
    assert Chain(h, done' + rest', end) == ([h] + done) + mid + (rest' + [end]) by {
      ChainPieces(h, done, mid, [], rest', end);
    }
  }

  /** If the element after the first run is the back header, the run was all there was. */
  lemma EndReached(h: Elem, done: seq<Elem>, a: seq<Elem>, more: seq<Elem>, end: Elem)
    requires Distinct(Chain(h, done + (a + more), end)) && (more + [end])[0] == end
    ensures more == [] && a + more == a && done + a + [] == done + (a + more)
  {
    var c := Chain(h, done + (a + more), end);
    assert c[|c| - 1] == end;
    assert forall k | 0 <= k < |more| :: more[k] == c[1 + |done| + |a| + k];
  }

  /** One pass of the natural merge sort over the elements `s` between the headers. */
  method SortPass(begin: Elem, end: Elem, less: (Elem, Elem) -> bool, ghost h: Elem, ghost s: seq<Elem>,
                  ghost fp: set<Elem>)
    returns (count: nat, ghost r: seq<Elem>)
    requires Over(Chain(h, s, end), fp)
    requires Linked(Chain(h, s, end)) && begin == (s + [end])[0]
    modifies fp
    ensures Linked(Chain(h, r, end)) && Over(Chain(h, r, end), fp)
    ensures r == Pass(less, s) && multiset(r) == multiset(s) && count == PassCount(less, s)
  {
    var a0 := begin;
    ghost var done, rest := [], s;
    assert [] + s == s;
    count := 0;
    while a0 != end
      invariant Over(Chain(h, done + rest, end), fp)
      invariant Linked(Chain(h, done + rest, end)) && Passing(less, s, done, rest, count)
      invariant a0 == (rest + [end])[0]
      decreases |rest|
    {
      assert rest != [];
      a0, done, rest := MergeNextRuns(a0, end, less, h, s, done, rest, count, fp);
      count := count + 1;
    }
    EndReached(h, done, [], rest, end) by {
      assert [] + rest == rest;
    }
    r := done;
    assert done + [] == done;
  }

  class List {
    const head: Elem
    const tail: Elem
    ghost var elems: seq<Elem>

    ghost predicate Valid()
      reads this, Chain(head, elems, tail)
    {
      Linked(Chain(head, elems, tail))
    }

    constructor ()
      ensures Valid() && elems == [] && fresh(head) && fresh(tail)
    {
      head := new Elem();
      tail := new Elem();
      elems := [];
      new;
      head.next := tail;
      tail.prev := head;
      assert Chain(head, elems, tail) == [head, tail];
    }

    /** Natural merge sort: sorted, stable, and at most max(1, ceil(log2 r)) passes over a list that
        starts with r maximal runs. */
    method Sort(less: (Elem, Elem) -> bool) returns (ghost passes: nat)
      requires Valid() && StrictWeak(less, set e | e in elems)
      modifies this, Chain(head, elems, tail)
      ensures Valid()
      ensures Sorted(less, elems)
      ensures StableRearrangement(less, old(elems), elems)
      ensures 1 <= passes && (passes == 1 || passes <= CeilLog2(Runs(less, old(elems))))
    {
      ghost var s, dom := elems, set e | e in elems;
      ghost var r;
      r, passes := SortChain(head, tail, less, s, dom, set e | e in Chain(head, s, tail));
      elems := r;
      NaturalSortCorrect(less, s, dom);
      PassesLogarithmic(less, s, dom);
    }

    method PushBack(elem: Elem)
      requires Valid() && elem !in Chain(head, elems, tail)
      modifies this, elem, Chain(head, elems, tail)
      ensures Valid() && elems == old(elems) + [elem]
    {
      ghost var c := Chain(head, elems, tail);
      assert c[|elems| + 1] == tail;
      ghost var c' := Insert(tail, elem, c, |elems| + 1);
      ChainInsert(head, elems, tail, |elems|, elem);
      elems := elems[..|elems|] + [elem] + elems[|elems|..];
    }

    method Front() returns (e: Elem)
      requires Valid()
      ensures e == (elems + [tail])[0]
    {
      assert Chain(head, elems, tail)[1] == (elems + [tail])[0];
      e := head.next;
    }

    /** Inserts before the first greater element, or at the end. */
    method InsertElemOrdered(elem: Elem, less: (Elem, Elem) -> bool)
      requires Valid() && elem !in Chain(head, elems, tail)
      modifies this, elem, Chain(head, elems, tail)
      ensures Valid() && elems == InsertOrdered(less, elem, old(elems))
    {
      ghost var c := Chain(head, elems, tail);
      var e := head.next;
      ghost var p := 0;
      while e != tail && !less(elem, e)
        invariant Linked(c) && p <= |elems| && e == c[p + 1] && InsertPosition(less, elem, elems[p..]) + p == InsertPosition(less, elem, elems)
        decreases |elems| - p
      {
        assert elems[p] == e && elems[p..][0] == e && elems[p..][1..] == elems[p + 1..];
        e := e.next;
        p := p + 1;
      }
      assert c[|elems| + 1] == tail;
      assert p < |elems| ==> elems[p..][0] == elems[p] == e;
      ghost var c' := Insert(e, elem, c, p + 1);
      ChainInsert(head, elems, tail, p, elem);
      elems := elems[..p] + [elem] + elems[p..];
    }

    /** The first greatest element, or the back header of an empty list. */
    method Max(less: (Elem, Elem) -> bool) returns (max: Elem)
      requires Valid()
      ensures elems == [] ==> max == tail
      ensures elems != [] ==> max == elems[MaxIndex(less, elems)]
    {
      ghost var c := Chain(head, elems, tail);
      assert c[|elems| + 1] == tail && c[1] == head.next;
      max := head.next;
      if max != tail {
        var e := max.next;
        ghost var k := 1;
        assert elems[0] == c[1] && elems[..1] == [elems[0]];
        while e != tail
          invariant 1 <= k <= |elems| && e == c[k + 1] && max == elems[MaxIndex(less, elems[..k])]
          decreases |elems| - k
        {
          assert elems[..k + 1][..k] == elems[..k] && elems[k] == e;
          if less(max, e) {
            max := e;
          }
          e := e.next;
          k := k + 1;
        }
        assert elems[..k] == elems;
      }
    }

    /** Reverses the list by exchanging every element's two links. */
    method Reverse()
      requires Valid()
      modifies this, Chain(head, elems, tail)
      ensures Valid() && elems == Reversed(old(elems))
    {
      ghost var s := elems;
      ghost var c := Chain(head, s, tail);
      assert c[|s| + 1] == tail && c[0] == head;
      if head.next != tail {
        FlipInterior(head.next, tail, c);
        assert forall k | 0 <= k < |s| :: s[k] == c[k + 1];
        SwapEnds(head, tail, s);
        elems := Reversed(s);
      }
    }
  }

  /** The end of a reversal, when the links of the elements between the headers are exchanged. */
  method SwapEnds(head: Elem, tail: Elem, ghost s: seq<Elem>)
    requires s != [] && Distinct(Chain(head, s, tail)) && head.prev == null && tail.next == null
    requires head.next == s[0] && tail.prev == s[|s| - 1] && s[|s| - 1].prev == tail && s[0].next == head
    requires forall k {:trigger s[k].prev} | 0 <= k < |s| - 1 :: s[k].prev == s[k + 1]
    requires forall k {:trigger s[k].next} | 1 <= k < |s| :: s[k].next == s[k - 1]
    modifies head, tail, s
    ensures Linked(Chain(head, Reversed(s), tail))
  {
    ghost var c := Chain(head, s, tail);
    assert c[0] == head && c[|s| + 1] == tail && forall k | 0 <= k < |s| :: s[k] == c[k + 1];
    head.next, tail.prev := tail.prev, head.next;
    var first, last := head.next, tail.prev;
    first.prev, last.next := last.next, first.prev;
    FlippedIsReversed(head, s, tail);
  }

  ghost function Reversed<T>(s: seq<T>): (r: seq<T>)
    ensures |r| == |s|
    ensures forall k | 0 <= k < |s| :: r[k] == s[|s| - 1 - k]
  {
    seq(|s|, k requires 0 <= k < |s| => s[|s| - 1 - k])
  }

  /** A chain whose interior links are exchanged and whose end links are redirected is the chain of
      the reversed sequence. */
  lemma FlippedIsReversed(h: Elem, s: seq<Elem>, t: Elem)
    requires s != [] && Distinct(Chain(h, s, t))
    requires h.prev == null && h.next == s[|s| - 1] && t.next == null && t.prev == s[0]
    requires s[|s| - 1].prev == h && s[0].next == t
    requires forall k {:trigger s[k].prev} | 0 <= k < |s| - 1 :: s[k].prev == s[k + 1]
    requires forall k {:trigger s[k].next} | 1 <= k < |s| :: s[k].next == s[k - 1]
    ensures Linked(Chain(h, Reversed(s), t))
  {
    var c, r, n := Chain(h, s, t), Chain(h, Reversed(s), t), |s|;
    forall k | 0 <= k < n + 2 ensures r[k] == if 1 <= k <= n then s[n - k] else c[k] {}
    forall k | 1 <= k <= n ensures r[k] == c[n + 1 - k] {}
  }

  /** Exchanges the two links of every interior element of the chain `c`. */
  method FlipInterior(begin: Elem, end: Elem, ghost c: seq<Elem>)
    requires Linked(c) && |c| >= 3 && c[1] == begin && c[|c| - 1] == end
    modifies Interior(c)
    ensures forall k {:trigger c[k].prev} | 1 <= k < |c| - 1 :: c[k].prev == c[k + 1]
    ensures forall k {:trigger c[k].next} | 1 <= k < |c| - 1 :: c[k].next == c[k - 1]
  {
    var e := begin;
    ghost var i := 1;
    while e != end
      invariant 1 <= i <= |c| - 1 && e == c[i]
      invariant forall k {:trigger c[k].prev} | 1 <= k < i :: c[k].prev == c[k + 1]
      invariant forall k {:trigger c[k].next} | 1 <= k < i :: c[k].next == c[k - 1]
      invariant forall k {:trigger c[k].next} | i <= k < |c| - 1 :: c[k].next == c[k + 1]
      invariant forall k {:trigger c[k].prev} | i <= k < |c| - 1 :: c[k].prev == c[k - 1]
      decreases |c| - i
    {
      assert e == Interior(c)[i - 1];
      e.prev, e.next := e.next, e.prev;
      e := e.prev;
      i := i + 1;
    }
  }

  lemma ChainInsert<T>(h: T, s: seq<T>, t: T, p: nat, x: T)
    requires p <= |s|
    ensures var c := Chain(h, s, t); c[..p + 1] + [x] + c[p + 1..] == Chain(h, s[..p] + [x] + s[p..], t)
  {
  }

  /** list_remove on a whole list, which it is not told. */
  method Unlink(elem: Elem, ghost l: List, ghost p: nat)
    requires l.Valid() && p < |l.elems| && l.elems[p] == elem
    modifies l, Chain(l.head, l.elems, l.tail)
    ensures l.Valid() && l.elems == old(l.elems)[..p] + old(l.elems)[p + 1..]
  {
    ghost var c := Chain(l.head, l.elems, l.tail);
    assert c[p + 1] == elem;
    var next; ghost var c';
    next, c' := Remove(elem, c, p + 1);
    ChainRemove(l.head, l.elems, l.tail, p);
    l.elems := l.elems[..p] + l.elems[p + 1..];
  }

  lemma ChainRemove<T>(h: T, s: seq<T>, t: T, p: nat)
    requires p < |s|
    ensures var c := Chain(h, s, t); c[..p + 1] + c[p + 2..] == Chain(h, s[..p] + s[p + 1..], t)
  {
  }

  /** The passes, repeated until one reports at most one run. */
  method SortChain(head: Elem, tail: Elem, less: (Elem, Elem) -> bool, ghost s: seq<Elem>, ghost dom: set<Elem>,
                   ghost fp: set<Elem>)
    returns (ghost r: seq<Elem>, ghost passes: nat)
    requires Over(Chain(head, s, tail), fp)
    requires Linked(Chain(head, s, tail)) && StrictWeak(less, dom) && Over(s, dom)
    modifies fp
    ensures Linked(Chain(head, r, tail))
    ensures r == NaturalSort(less, s, dom) && passes == Passes(less, s, dom)
  {
    passes, r := 0, s;
    while true
      invariant Over(Chain(head, r, tail), fp)
      invariant Linked(Chain(head, r, tail)) && Over(r, dom)
      invariant NaturalSort(less, r, dom) == NaturalSort(less, s, dom)
      invariant passes + Passes(less, r, dom) == Passes(less, s, dom)
      decreases Runs(less, r)
    {
      PassFacts(less, r, dom);
      assert Chain(head, r, tail)[1] == (r + [tail])[0];
      var count;
      count, r := SortPass(head.next, tail, less, head, r, fp);
      passes := passes + 1;
      if count <= 1 {
        break;
      }
    }
  }
}
