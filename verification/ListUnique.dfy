/** Removing adjacent equal elements from a list, optionally collecting them in another. */
module ListUnique {
  import opened Common
  import opened Ordering
  import opened IntrusiveList
  import opened Lists

  predicate Same<T>(less: (T, T) -> bool, x: T, y: T) {
    !less(x, y) && !less(y, x)
  }

  /** What stays of x followed by rest: the first of each stretch of equals. */
  ghost function Kept<T>(less: (T, T) -> bool, x: T, rest: seq<T>): seq<T>
    decreases |rest|
  {
    if rest == [] then [x]
    else if Same(less, x, rest[0]) then Kept(less, x, rest[1..])
    else [x] + Kept(less, rest[0], rest[1..])
  }

  /** What goes, in order. */
  ghost function Dropped<T>(less: (T, T) -> bool, x: T, rest: seq<T>): seq<T>
    decreases |rest|
  {
    if rest == [] then []
    else if Same(less, x, rest[0]) then [rest[0]] + Dropped(less, x, rest[1..])
    else Dropped(less, rest[0], rest[1..])
  }

  /** Nothing is lost: every element is kept or dropped. */
  lemma {:induction false} KeptAndDropped<T>(less: (T, T) -> bool, x: T, rest: seq<T>)
    ensures multiset(Kept(less, x, rest)) + multiset(Dropped(less, x, rest)) == multiset([x] + rest)
    decreases |rest|
  {
    if rest != [] {
      var y, more := rest[0], rest[1..];
      assert rest == [y] + more;
      Cons(x, rest);
      Cons(y, more);
      if Same(less, x, y) {
        KeptAndDropped(less, x, more);
        Cons(x, more);
        Cons(y, Dropped(less, x, more));
        AddOne(multiset(Kept(less, x, more)), multiset(Dropped(less, x, more)), multiset{x}, multiset{y}, multiset(more));
      } else {
        KeptAndDropped(less, y, more);
        Cons(x, Kept(less, y, more));
        AddFront(multiset{x}, multiset(Kept(less, y, more)), multiset(Dropped(less, y, more)), multiset{y} + multiset(more));
      }
    }
  }

  lemma Cons<T>(x: T, s: seq<T>)
    ensures multiset([x] + s) == multiset{x} + multiset(s)
  {
  }

  lemma AddOne<T>(k: multiset<T>, d: multiset<T>, x: multiset<T>, y: multiset<T>, more: multiset<T>)
    requires k + d == x + more
    ensures k + (y + d) == x + (y + more)
  {
    forall z ensures (k + (y + d))[z] == (x + (y + more))[z] {
      assert (k + d)[z] == (x + more)[z];
    }
  }

  lemma AddFront<T>(x: multiset<T>, k: multiset<T>, d: multiset<T>, rest: multiset<T>)
    requires k + d == rest
    ensures (x + k) + d == x + rest
  {
    forall z ensures ((x + k) + d)[z] == (x + rest)[z] {
      assert (k + d)[z] == rest[z];
    }
  }

  /** No two neighbours that stay are equal, and the first element stays. */
  lemma {:induction false} NoEqualNeighbours<T>(less: (T, T) -> bool, x: T, rest: seq<T>)
    ensures var k := Kept(less, x, rest);
            k != [] && k[0] == x && forall i | 1 <= i < |k| :: !Same(less, k[i - 1], k[i])
    decreases |rest|
  {
    if rest != [] {
      if Same(less, x, rest[0]) {
        NoEqualNeighbours(less, x, rest[1..]);
      } else {
        NoEqualNeighbours(less, rest[0], rest[1..]);
        var t := Kept(less, rest[0], rest[1..]);
        var k := [x] + t;
        forall i | 1 <= i < |k| ensures !Same(less, k[i - 1], k[i]) {
          assert k[i] == t[i - 1] && (i > 1 ==> k[i - 1] == t[i - 2]);
        }
      }
    }
  }

  /** Everything dropped equals something kept. */
  lemma {:induction false} DroppedHasTwin<T>(less: (T, T) -> bool, x: T, rest: seq<T>, y: T)
    requires y in Dropped(less, x, rest)
    ensures exists z :: z in Kept(less, x, rest) && Same(less, z, y)
    decreases |rest|
  {
    if Same(less, x, rest[0]) {
      if y == rest[0] {
        NoEqualNeighbours(less, x, rest[1..]);
        assert x in Kept(less, x, rest) && Same(less, x, y);
      } else {
        DroppedHasTwin(less, x, rest[1..], y);
      }
    } else {
      DroppedHasTwin(less, rest[0], rest[1..], y);
      var z :| z in Kept(less, rest[0], rest[1..]) && Same(less, z, y);
      assert z in Kept(less, x, rest);
    }
  }

  lemma {:induction false} KeptAreMembers<T>(less: (T, T) -> bool, x: T, rest: seq<T>, y: T)
    requires y in Kept(less, x, rest)
    ensures y == x || y in rest
    decreases |rest|
  {
    if rest != [] {
      if Same(less, x, rest[0]) {
        KeptAreMembers(less, x, rest[1..], y);
      } else if y != x {
        KeptAreMembers(less, rest[0], rest[1..], y);
      }
    }
  }

  ghost predicate Strict<T>(less: (T, T) -> bool, s: seq<T>) {
    forall i, j | 0 <= i < j < |s| :: less(s[i], s[j])
  }

  /** What is kept of a sorted list is strictly increasing: no equals are left at all. */
  lemma {:induction false} SortedBecomesStrict<T>(less: (T, T) -> bool, x: T, rest: seq<T>, dom: set<T>)
    requires StrictWeak(less, dom) && x in dom && Over(rest, dom) && Sorted(less, [x] + rest)
    ensures Strict(less, Kept(less, x, rest))
    decreases |rest|
  {
    if rest != [] {
      var s := [x] + rest;
      SortedTail(less, s);
      if Same(less, x, rest[0]) {
        SkipSorted(less, x, rest);
        SortedBecomesStrict(less, x, rest[1..], dom);
      } else {
        assert s[1..] == rest == [rest[0]] + rest[1..];
        SortedBecomesStrict(less, rest[0], rest[1..], dom);
        assert !less(s[1], s[0]);
        var t := Kept(less, rest[0], rest[1..]);
        forall j | 0 <= j < |t| ensures less(x, t[j]) {
          KeptAreMembers(less, rest[0], rest[1..], t[j]);
          AboveHead(less, x, rest, t[j], dom);
        }
        Prepend(less, x, t);
      }
    }
  }

  lemma Prepend<T>(less: (T, T) -> bool, x: T, t: seq<T>)
    requires (forall j | 0 <= j < |t| :: less(x, t[j])) && Strict(less, t)
    ensures Strict(less, [x] + t)
  {
    var k := [x] + t;
    forall i, j | 0 <= i < j < |k| ensures less(k[i], k[j]) {
      assert k[j] == t[j - 1] && (i > 0 ==> k[i] == t[i - 1]);
    }
  }

  lemma AboveHead<T>(less: (T, T) -> bool, x: T, rest: seq<T>, y: T, dom: set<T>)
    requires StrictWeak(less, dom) && x in dom && Over(rest, dom) && rest != [] && Sorted(less, rest)
    requires less(x, rest[0]) && y in rest
    ensures less(x, y)
  {
    NoneBelowHead(less, rest, y, dom);
    assert y in dom && rest[0] in dom;
  }

  lemma SortedTail<T>(less: (T, T) -> bool, s: seq<T>)
    requires s != [] && Sorted(less, s)
    ensures Sorted(less, s[1..])
  {
  }

  lemma SkipSorted<T>(less: (T, T) -> bool, x: T, rest: seq<T>)
    requires rest != [] && Sorted(less, [x] + rest)
    ensures Sorted(less, [x] + rest[1..])
  {
    var s, t := [x] + rest, [x] + rest[1..];
    forall i, j | 0 <= i < j < |t| ensures !less(t[j], t[i]) {
      assert t[j] == s[j + 1] && t[i] == if i == 0 then s[0] else s[i + 1];
    }
  }

  // ---------------------------------------------------------------- the loop

  lemma ChainAround(h: Elem, pre: seq<Elem>, x: Elem, rest: seq<Elem>, t: Elem)
    ensures var c := Chain(h, pre + [x] + rest, t);
            && |c| == |pre| + |rest| + 3 && c[|pre| + 1] == x && c[|pre| + 2] == (rest + [t])[0]
            && (rest != [] ==> c[..|pre| + 2] + c[|pre| + 3..] == Chain(h, pre + [x] + rest[1..], t))
            && (rest != [] ==> pre + [x] + rest == (pre + [x]) + [rest[0]] + rest[1..])
  {
  }

  ghost predicate Collects(dup: Elem?, d: seq<Elem>) {
    if dup == null then d == [] else |d| >= 2 && d[|d| - 1] == dup
  }

  /** One duplicate leaves its list and, if there is one, joins the end of the other. */
  method MoveDuplicate(next: Elem, dup: Elem?, ghost c: seq<Elem>, ghost p: nat, ghost d: seq<Elem>, ghost fp: set<Elem>)
    returns (ghost c': seq<Elem>, ghost d': seq<Elem>)
    requires Linked(c) && 1 <= p < |c| - 1 && c[p] == next && Collects(dup, d) && (dup != null ==> Linked(d))
    requires Disjoint(c, d) && Over(c, fp) && Over(d, fp)
    modifies fp
    ensures c' == c[..p] + c[p + 1..] && Linked(c') && Over(c', fp)
    ensures d' == (if dup == null then [] else d[..|d| - 1] + [next] + [dup]) && Collects(dup, d') && Over(d', fp)
    ensures (dup != null ==> Linked(d')) && Disjoint(c', d')
  {
    var follower: Elem;
    follower, c' := Remove(next, c, p);
    d' := d;
    if dup != null {
      assert next !in d;
      d' := Insert(dup, next, d, |d| - 1);
      assert d[|d| - 1..] == [dup];
    }
  }

  /** What is decided so far, together with the outcome for the rest, is the outcome for the whole. */
  ghost predicate Progress(less: (Elem, Elem) -> bool, s: seq<Elem>, pre: seq<Elem>, x: Elem, rest: seq<Elem>, out: seq<Elem>)
    requires s != []
  {
    && pre + Kept(less, x, rest) == Kept(less, s[0], s[1..])
    && out + Dropped(less, x, rest) == Dropped(less, s[0], s[1..])
  }

  lemma ProgressStep(less: (Elem, Elem) -> bool, s: seq<Elem>, pre: seq<Elem>, x: Elem, rest: seq<Elem>, out: seq<Elem>)
    requires s != [] && rest != [] && Progress(less, s, pre, x, rest, out)
    ensures if Same(less, x, rest[0]) then Progress(less, s, pre, x, rest[1..], out + [rest[0]])
            else Progress(less, s, pre + [x], rest[0], rest[1..], out)
  {
    if Same(less, x, rest[0]) {
      Regroup(out, [rest[0]], Dropped(less, x, rest[1..]));
    } else {
      Regroup(pre, [x], Kept(less, rest[0], rest[1..]));
    }
  }

  lemma ProgressEnds(less: (Elem, Elem) -> bool, s: seq<Elem>, pre: seq<Elem>, x: Elem, out: seq<Elem>)
    requires s != [] && Progress(less, s, pre, x, [], out)
    ensures pre + [x] == Kept(less, s[0], s[1..]) && out == Dropped(less, s[0], s[1..])
  {
    assert out + [] == out;
  }

  /** The list and, if there is one, the collecting list. */
  ghost predicate Both(h: Elem, pre: seq<Elem>, x: Elem, rest: seq<Elem>, end: Elem, dup: Elem?, d: seq<Elem>, fp: set<Elem>)
    reads Chain(h, pre + [x] + rest, end), d
  {
    var c := Chain(h, pre + [x] + rest, end);
    Linked(c) && Over(c, fp) && Collects(dup, d) && (dup != null ==> Linked(d)) && Over(d, fp) && Disjoint(c, d)
  }

  ghost function Collected(dup: Elem?, d: seq<Elem>, out: seq<Elem>): seq<Elem>
    requires Collects(dup, d)
  {
    if dup == null then [] else d[..|d| - 1] + out + [dup]
  }

  lemma CollectMore(dup: Elem?, d: seq<Elem>, out: seq<Elem>, x: Elem)
    requires Collects(dup, d)
    ensures Collects(dup, Collected(dup, d, out))
    ensures dup != null ==> Collected(dup, d, out)[..|Collected(dup, d, out)| - 1] + [x] + [dup] == Collected(dup, d, out + [x])
  {
    if dup != null {
      var e := Collected(dup, d, out);
      assert e[..|e| - 1] == d[..|d| - 1] + out;
      Regroup(d[..|d| - 1], out, [x]);
    }
  }

  /** One turn of the loop. */
  method Turn(elem: Elem, end: Elem, dup: Elem?, less: (Elem, Elem) -> bool, ghost h: Elem, ghost pre: seq<Elem>,
              ghost rest: seq<Elem>, ghost d0: seq<Elem>, ghost d: seq<Elem>, ghost out: seq<Elem>, ghost fp: set<Elem>)
    returns (elem': Elem, ghost pre': seq<Elem>, ghost d': seq<Elem>, ghost out': seq<Elem>)
    requires Both(h, pre, elem, rest, end, dup, d, fp) && rest != []
    requires Collects(dup, d0) && d == Collected(dup, d0, out)
    modifies fp
    ensures if Same(less, elem, rest[0]) then elem' == elem && pre' == pre && out' == out + [rest[0]]
            else elem' == rest[0] && pre' == pre + [elem] && out' == out
    ensures Both(h, pre', elem', rest[1..], end, dup, d', fp) && d' == Collected(dup, d0, out')
  {
    ChainAround(h, pre, elem, rest, end);
    var next := elem.next;
    elem', pre', d', out' := elem, pre, d, out;
    if !less(elem, next) && !less(next, elem) {
      CollectMore(dup, d0, out, next);
      ghost var c;
      c, d' := MoveDuplicate(next, dup, Chain(h, pre + [elem] + rest, end), |pre| + 2, d, fp);
      out' := out + [next];
    } else {
      pre' := pre + [elem];
      elem' := next;
    }
  }

  ghost function KeptOf(less: (Elem, Elem) -> bool, s: seq<Elem>): seq<Elem> {
    if s == [] then [] else Kept(less, s[0], s[1..])
  }

  ghost function DroppedOf(less: (Elem, Elem) -> bool, s: seq<Elem>): seq<Elem> {
    if s == [] then [] else Dropped(less, s[0], s[1..])
  }

  /** list_unique: the first of each stretch of equals stays, the others go, in order, to the end of the
      other list if there is one. */
  method Unique(begin: Elem, end: Elem, dup: Elem?, less: (Elem, Elem) -> bool,
                ghost h: Elem, ghost s: seq<Elem>, ghost d: seq<Elem>, ghost fp: set<Elem>)
    returns (ghost s': seq<Elem>, ghost d': seq<Elem>)
    requires Linked(Chain(h, s, end)) && begin == Chain(h, s, end)[1] && Over(Chain(h, s, end), fp)
    requires Collects(dup, d) && (dup != null ==> Linked(d)) && Disjoint(Chain(h, s, end), d) && Over(d, fp)
    modifies fp
    ensures s' == KeptOf(less, s) && Linked(Chain(h, s', end))
    ensures d' == Collected(dup, d, DroppedOf(less, s)) && (dup != null ==> Linked(d'))
  {
    ghost var c := Chain(h, s, end);
    assert c[|c| - 1] == end && (s != [] ==> c[1] == s[0]);
    if begin == end {
      s', d' := s, d;
      assert dup != null ==> d == d[..|d| - 1] + [] + [dup];
      return;
    }
    s', d' := UniqueNonempty(begin, end, dup, less, h, s, d, fp);
  }

  method UniqueNonempty(begin: Elem, end: Elem, dup: Elem?, less: (Elem, Elem) -> bool,
                ghost h: Elem, ghost s: seq<Elem>, ghost d: seq<Elem>, ghost fp: set<Elem>)
    returns (ghost s': seq<Elem>, ghost d': seq<Elem>)
    requires s != [] && s[0] == begin && Linked(Chain(h, s, end)) && Over(Chain(h, s, end), fp)
    requires Collects(dup, d) && (dup != null ==> Linked(d)) && Disjoint(Chain(h, s, end), d) && Over(d, fp)
    modifies fp
    ensures s' == Kept(less, s[0], s[1..]) && Linked(Chain(h, s', end))
    ensures d' == Collected(dup, d, Dropped(less, s[0], s[1..])) && (dup != null ==> Linked(d'))
  {
    var elem: Elem := begin;
    ghost var pre: seq<Elem>, rest: seq<Elem>, out: seq<Elem> := [], s[1..], [];
    d' := d;
    assert pre + [elem] + rest == s;
    assert Progress(less, s, pre, elem, rest, out);
    assert d' == Collected(dup, d, out);
    while elem.next != end
      invariant Both(h, pre, elem, rest, end, dup, d', fp) && d' == Collected(dup, d, out)
      invariant AsUnit(Progress(less, s, pre, elem, rest, out))
      decreases |rest|
    {
      ChainAround(h, pre, elem, rest, end);
      ProgressStep(less, s, pre, elem, rest, out);
      elem, pre, d', out := Turn(elem, end, dup, less, h, pre, rest, d, d', out, fp);
      rest := rest[1..];
    }
    LastOne(h, pre, elem, rest, end);
    ProgressEnds(less, s, pre, elem, out);
    s' := pre + [elem];
    assert s' + rest == s';
  }

  lemma LastOne(h: Elem, pre: seq<Elem>, x: Elem, rest: seq<Elem>, end: Elem)
    requires Linked(Chain(h, pre + [x] + rest, end)) && x.next == end
    ensures rest == []
  {
    ChainAround(h, pre, x, rest, end);
    var c := Chain(h, pre + [x] + rest, end);
    assert c[|c| - 1] == end;
  }
}
