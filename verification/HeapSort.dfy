/** Heap sort in place and binary search, over any strcmp-like comparison.

    Elements are whole values: the byte-by-byte exchange of equally sized elements is one swap. */
module HeapSort {
  import opened Common

  /** A strcmp()-type comparison: a total preorder. */
  ghost predicate Comparison<T(!new)>(cmp: (T, T) -> int) {
    && (forall x, y :: cmp(x, y) > 0 <==> cmp(y, x) < 0)
    && (forall x, y, z :: cmp(x, y) <= 0 && cmp(y, z) <= 0 ==> cmp(x, z) <= 0)
  }

  /** The element with 1-based index i. */
  function At<T>(s: seq<T>, i: nat): T
    requires 1 <= i <= |s|
  {
    s[i - 1]
  }

  function Swapped<T>(s: seq<T>, i: nat, j: nat): (r: seq<T>)
    requires 1 <= i <= |s| && 1 <= j <= |s|
    ensures |r| == |s| && At(r, i) == At(s, j) && At(r, j) == At(s, i)
    ensures forall k | 1 <= k <= |s| && k != i && k != j :: At(r, k) == At(s, k)
  {
    s[i - 1 := s[j - 1]][j - 1 := s[i - 1]]
  }

  /** Parents from lo on are at least as large as their children, up to index n. */
  ghost predicate HeapFrom<T>(s: seq<T>, lo: nat, n: nat, cmp: (T, T) -> int)
    requires n <= |s| && lo >= 1
  {
    forall j | 2 <= j <= n && j / 2 >= lo :: cmp(At(s, j), At(s, j / 2)) <= 0
  }

  /** The same except at i, whose own parent is already as large as its children. */
  ghost predicate HeapBut<T>(s: seq<T>, lo: nat, i: nat, n: nat, cmp: (T, T) -> int)
    requires n <= |s| && lo >= 1 && i >= 1
  {
    && (forall j | 2 <= j <= n && j / 2 >= lo && j / 2 != i :: cmp(At(s, j), At(s, j / 2)) <= 0)
    && (forall j | 2 <= j <= n && j / 2 == i && i / 2 >= lo :: cmp(At(s, j), At(s, i / 2)) <= 0)
  }

  /** k is i or one of its descendants. */
  ghost predicate Below(i: nat, k: nat) {
    k == i || (k > i && Below(i, k / 2))
  }

  /** m is the child of i that exceeds i and its sibling. */
  ghost predicate LargestChild<T>(s: seq<T>, i: nat, n: nat, m: nat, cmp: (T, T) -> int)
    requires n <= |s| && 1 <= i <= n
  {
    && 2 <= m <= n && m / 2 == i && cmp(At(s, m), At(s, i)) > 0
    && forall j | 2 <= j <= n && j / 2 == i :: cmp(At(s, j), At(s, m)) <= 0
  }

  /** One turn of heapify moves the exception down. */
  lemma FloatDown<T(!new)>(s: seq<T>, lo: nat, i: nat, n: nat, m: nat, cmp: (T, T) -> int)
    requires Comparison(cmp) && n <= |s| && 1 <= lo <= i <= n && HeapBut(s, lo, i, n, cmp) && LargestChild(s, i, n, m, cmp)
    ensures HeapBut(Swapped(s, i, m), lo, m, n, cmp)
  {
    var r := Swapped(s, i, m);
    forall j | 2 <= j <= n && j / 2 >= lo && j / 2 != m ensures cmp(At(r, j), At(r, j / 2)) <= 0 {
      if j == i {
        assert At(r, j / 2) == At(s, i / 2);
      }
    }
    forall j | 2 <= j <= n && j / 2 == m && m / 2 >= lo ensures cmp(At(r, j), At(r, m / 2)) <= 0 {
      assert At(r, j) == At(s, j);
    }
  }

  lemma BelowSwap<T>(s: seq<T>, t: seq<T>, top: nat, i: nat, m: nat)
    requires |s| == |t| && 1 <= i <= |t| && 1 <= m <= |t| && top <= i < m && Below(top, i) && m / 2 == i
    requires forall k | 1 <= k <= |s| && !Below(top, k) :: At(t, k) == At(s, k)
    ensures Below(top, m) && forall k | 1 <= k <= |s| && !Below(top, k) :: At(Swapped(t, i, m), k) == At(s, k)
  {
  }

  lemma SwapElements<T>(s: seq<T>, i: nat, j: nat, n: nat)
    requires 1 <= i <= n <= |s| && 1 <= j <= n
    ensures multiset(Swapped(s, i, j)[..n]) == multiset(s[..n]) && Swapped(s, i, j)[n..] == s[n..]
  {
    var p := s[..n];
    var q := p[i - 1 := p[j - 1]];
    assert multiset(q) == multiset(p) - multiset{p[i - 1]} + multiset{p[j - 1]};
    assert Swapped(s, i, j)[..n] == q[j - 1 := p[i - 1]];
  }

  /** do_swap. */
  method Swap<T>(a: array<T>, i: nat, j: nat)
    requires 1 <= i <= a.Length && 1 <= j <= a.Length
    modifies a
    ensures a[..] == Swapped(old(a[..]), i, j)
  {
    a[i - 1], a[j - 1] := a[j - 1], a[i - 1];
  }

  lemma Flip<T(!new)>(cmp: (T, T) -> int, x: T, y: T)
    requires Comparison(cmp)
    ensures cmp(x, y) > 0 <==> cmp(y, x) < 0
    ensures cmp(x, x) == 0
  {
  }

  lemma Through<T(!new)>(cmp: (T, T) -> int, x: T, y: T, z: T)
    requires Comparison(cmp) && cmp(x, y) <= 0 && cmp(y, z) <= 0
    ensures cmp(x, z) <= 0
  {
  }

  /** The larger of two indices by what they hold, the first one winning ties and missing children. */
  function Larger<T>(s: seq<T>, m: nat, j: nat, n: nat, cmp: (T, T) -> int): (r: nat)
    requires 1 <= m <= n <= |s| && j >= 1
    ensures 1 <= r <= n
  {
    if j <= n && cmp(At(s, j), At(s, m)) > 0 then j else m
  }

  lemma LargerSpec<T(!new)>(s: seq<T>, m: nat, j: nat, n: nat, cmp: (T, T) -> int)
    requires Comparison(cmp) && 1 <= m <= n <= |s| && j >= 1
    ensures var r := Larger(s, m, j, n, cmp);
            cmp(At(s, m), At(s, r)) <= 0 && (j <= n ==> cmp(At(s, j), At(s, r)) <= 0)
  {
    Flip(cmp, At(s, m), At(s, m));
    if j <= n {
      Flip(cmp, At(s, j), At(s, m));
      Flip(cmp, At(s, j), At(s, j));
    }
  }

  lemma LargestSpec<T(!new)>(s: seq<T>, i: nat, n: nat, cmp: (T, T) -> int, max: nat)
    requires Comparison(cmp) && 1 <= i <= n <= |s|
    requires max == Larger(s, Larger(s, i, 2 * i, n, cmp), 2 * i + 1, n, cmp)
    ensures forall j | 2 <= j <= n && j / 2 == i :: cmp(At(s, j), At(s, max)) <= 0
    ensures max != i ==> LargestChild(s, i, n, max, cmp)
  {
    var m := Larger(s, i, 2 * i, n, cmp);
    ChildrenBelow(s, i, n, cmp, m, max);
    ChildAbove(s, i, n, cmp, m, max);
    forall j | 2 <= j <= n && j / 2 == i ensures cmp(At(s, j), At(s, max)) <= 0 {
      assert j == 2 * i || j == 2 * i + 1;
    }
  }

  lemma ChildrenBelow<T(!new)>(s: seq<T>, i: nat, n: nat, cmp: (T, T) -> int, m: nat, max: nat)
    requires Comparison(cmp) && 1 <= i <= n <= |s|
    requires m == Larger(s, i, 2 * i, n, cmp) && max == Larger(s, m, 2 * i + 1, n, cmp)
    ensures 2 * i <= n ==> cmp(At(s, 2 * i), At(s, max)) <= 0
    ensures 2 * i + 1 <= n ==> cmp(At(s, 2 * i + 1), At(s, max)) <= 0
  {
    LargerSpec(s, i, 2 * i, n, cmp);
    LargerSpec(s, m, 2 * i + 1, n, cmp);
    if 2 * i <= n {
      Through(cmp, At(s, 2 * i), At(s, m), At(s, max));
    }
  }

  lemma ChildAbove<T(!new)>(s: seq<T>, i: nat, n: nat, cmp: (T, T) -> int, m: nat, max: nat)
    requires Comparison(cmp) && 1 <= i <= n <= |s|
    requires m == Larger(s, i, 2 * i, n, cmp) && max == Larger(s, m, 2 * i + 1, n, cmp)
    ensures max != i ==> LargestChild(s, i, n, max, cmp)
  {
    ChildrenBelow(s, i, n, cmp, m, max);
    LargerSpec(s, i, 2 * i, n, cmp);
    if max == 2 * i + 1 {
      Above(cmp, At(s, i), At(s, m), At(s, max));
    }
  }

  lemma Beyond<T(!new)>(cmp: (T, T) -> int, x: T, y: T, z: T)
    requires Comparison(cmp) && cmp(x, y) < 0 && cmp(y, z) <= 0
    ensures cmp(x, z) < 0
  {
    Flip(cmp, y, x);
    Flip(cmp, z, x);
    if cmp(z, x) <= 0 {
      Through(cmp, y, z, x);
    }
  }

  lemma Above<T(!new)>(cmp: (T, T) -> int, x: T, y: T, z: T)
    requires Comparison(cmp) && cmp(x, y) <= 0 && cmp(z, y) > 0
    ensures cmp(z, x) > 0
  {
    if cmp(z, x) <= 0 {
      Through(cmp, z, x, y);
    }
  }

  /** The index of the largest among i and its children. */
  method Largest<T>(a: array<T>, i: nat, cnt: nat, cmp: (T, T) -> int) returns (max: nat)
    requires 1 <= i <= cnt <= a.Length
    ensures max == Larger(a[..], Larger(a[..], i, 2 * i, cnt, cmp), 2 * i + 1, cnt, cmp)
  {
    var left, right := 2 * i, 2 * i + 1;
    max := i;
    if left <= cnt && cmp(a[left - 1], a[max - 1]) > 0 {
      max := left;
    }
    if right <= cnt && cmp(a[right - 1], a[max - 1]) > 0 {
      max := right;
    }
  }

  /** heapify restores the heap from i down, moves elements only below i and loses none. */
  method Heapify<T(!new)>(a: array<T>, top: nat, cnt: nat, cmp: (T, T) -> int)
    requires Comparison(cmp) && 1 <= top <= cnt <= a.Length && HeapBut(a[..], top, top, cnt, cmp)
    modifies a
    ensures HeapFrom(a[..], top, cnt, cmp)
    ensures multiset(a[..cnt]) == multiset(old(a[..cnt])) && a[cnt..] == old(a[cnt..])
    ensures forall k | 1 <= k <= a.Length && !Below(top, k) :: At(a[..], k) == At(old(a[..]), k)
  {
    var i := top;
    ghost var s := a[..];
    while true
      invariant top <= i <= cnt && Below(top, i) && HeapBut(a[..], top, i, cnt, cmp)
      invariant multiset(a[..][..cnt]) == multiset(s[..cnt]) && a[..][cnt..] == s[cnt..]
      invariant forall k | 1 <= k <= a.Length && !Below(top, k) :: At(a[..], k) == At(s, k)
      decreases cnt - i
    {
      var max := Largest(a, i, cnt, cmp);
      LargestSpec(a[..], i, cnt, cmp, max);
      if max == i {
        break;
      }
      FloatDown(a[..], top, i, cnt, max, cmp);
      BelowSwap(s, a[..], top, i, max);
      SwapElements(a[..], i, max, cnt);
      Swap(a, i, max);
      i := max;
    }
    assert a[..cnt] == a[..][..cnt] && a[cnt..] == a[..][cnt..];
    assert old(a[..cnt]) == s[..cnt] && old(a[cnt..]) == s[cnt..];
  }

  // ---------------------------------------------------------------- sorting

  ghost predicate Sorted<T>(s: seq<T>, cmp: (T, T) -> int) {
    forall i, j | 0 <= i < j < |s| :: cmp(s[i], s[j]) <= 0
  }

  /** From position n on sorted and no smaller than anything before. */
  ghost predicate TailDone<T>(s: seq<T>, n: nat, cmp: (T, T) -> int)
    requires n <= |s|
  {
    Sorted(s[n..], cmp) && forall x, y | x in s[..n] && y in s[n..] :: cmp(x, y) <= 0
  }

  lemma {:induction false} RootLargest<T(!new)>(s: seq<T>, n: nat, cmp: (T, T) -> int, k: nat)
    requires Comparison(cmp) && 1 <= k <= n <= |s| && HeapFrom(s, 1, n, cmp)
    ensures cmp(At(s, k), At(s, 1)) <= 0
  {
    if k > 1 {
      RootLargest(s, n, cmp, k / 2);
    } else {
      Flip(cmp, At(s, 1), At(s, 1));
    }
  }

  /** Moving the root behind the heap extends the sorted tail. */
  lemma ExtractMax<T(!new)>(s: seq<T>, n: nat, cmp: (T, T) -> int)
    requires Comparison(cmp) && 2 <= n <= |s| && HeapFrom(s, 1, n, cmp) && TailDone(s, n, cmp)
    ensures TailDone(Swapped(s, 1, n), n - 1, cmp) && HeapBut(Swapped(s, 1, n), 1, 1, n - 1, cmp)
  {
    var r := Swapped(s, 1, n);
    SwapElements(s, 1, n, n);
    assert r[n - 1..] == [At(s, 1)] + s[n..];
    forall x | x in r[..n - 1] ensures cmp(x, At(s, 1)) <= 0 && x in s[..n] {
      var k :| 0 <= k < n - 1 && r[k] == x;
      assert r[k] == if k == 0 then At(s, n) else At(s, k + 1);
      RootLargest(s, n, cmp, if k == 0 then n else k + 1);
      assert r[k] == s[..n][if k == 0 then n - 1 else k];
    }
    assert At(s, 1) == s[..n][0];
  }

  lemma TailKept<T>(s: seq<T>, r: seq<T>, n: nat, cmp: (T, T) -> int)
    requires n <= |s| == |r| && TailDone(s, n, cmp) && r[n..] == s[n..] && multiset(r[..n]) == multiset(s[..n])
    ensures TailDone(r, n, cmp)
  {
    forall x | x in r[..n] ensures x in s[..n] {
      assert x in multiset(r[..n]);
    }
  }

  lemma SameElements<T>(s: seq<T>, r: seq<T>, n: nat)
    requires n <= |s| == |r| && r[n..] == s[n..] && multiset(r[..n]) == multiset(s[..n])
    ensures multiset(r) == multiset(s)
  {
    assert s == s[..n] + s[n..] && r == r[..n] + r[n..];
  }

  lemma LeavesAreHeaps<T>(s: seq<T>, n: nat, cmp: (T, T) -> int)
    requires n <= |s|
    ensures HeapFrom(s, n / 2 + 1, n, cmp)
  {
  }

  lemma Except<T>(s: seq<T>, i: nat, n: nat, cmp: (T, T) -> int)
    requires 1 <= i && n <= |s| && HeapFrom(s, i + 1, n, cmp)
    ensures HeapBut(s, i, i, n, cmp)
  {
  }

  /** sort: a sorted permutation, for every array and comparison. */
  method Sort<T(!new)>(a: array<T>, cmp: (T, T) -> int)
    requires Comparison(cmp)
    modifies a
    ensures Sorted(a[..], cmp) && multiset(a[..]) == multiset(old(a[..]))
  {
    var cnt := a.Length;
    BuildHeap(a, cmp);
    var i := cnt;
    assert a[..][..i] == a[..] && a[..][i..] == [];
    while i > 1
      invariant 0 <= i <= cnt && (cnt > 0 ==> i > 0) && HeapFrom(a[..], 1, i, cmp) && TailDone(a[..], i, cmp)
      invariant multiset(a[..]) == multiset(old(a[..]))
    {
      Extract(a, i, cmp);
      i := i - 1;
    }
    TailIsAll(a[..], i, cmp);
  }

  /** One turn of the second loop: the largest element goes behind the heap. */
  method Extract<T(!new)>(a: array<T>, i: nat, cmp: (T, T) -> int)
    requires Comparison(cmp) && 2 <= i <= a.Length && HeapFrom(a[..], 1, i, cmp) && TailDone(a[..], i, cmp)
    modifies a
    ensures HeapFrom(a[..], 1, i - 1, cmp) && TailDone(a[..], i - 1, cmp) && multiset(a[..]) == multiset(old(a[..]))
  {
    ghost var s := a[..];
    ExtractMax(s, i, cmp);
    Swap(a, 1, i);
    Prefixes(a, i - 1);
    Heapify(a, 1, i - 1, cmp);
    Prefixes(a, i - 1);
    Extracted(s, a[..], i, cmp);
  }

  lemma Extracted<T>(s: seq<T>, r: seq<T>, i: nat, cmp: (T, T) -> int)
    requires 2 <= i <= |s| == |r| && TailDone(Swapped(s, 1, i), i - 1, cmp)
    requires r[i - 1..] == Swapped(s, 1, i)[i - 1..] && multiset(r[..i - 1]) == multiset(Swapped(s, 1, i)[..i - 1])
    ensures TailDone(r, i - 1, cmp) && multiset(r) == multiset(s)
  {
    SwapElements(s, 1, i, i);
    SameElements(s, Swapped(s, 1, i), i);
    TailKept(Swapped(s, 1, i), r, i - 1, cmp);
    SameElements(Swapped(s, 1, i), r, i - 1);
  }

  lemma Prefixes<T>(a: array<T>, n: nat)
    requires n <= a.Length
    ensures a[..n] == a[..][..n] && a[n..] == a[..][n..]
  {
  }

  lemma TailIsAll<T(!new)>(s: seq<T>, n: nat, cmp: (T, T) -> int)
    requires n <= |s| && n <= 1 && TailDone(s, n, cmp)
    ensures Sorted(s, cmp)
  {
    assert n == 0 ==> s[n..] == s;
    forall i, j | 0 <= i < j < |s| ensures cmp(s[i], s[j]) <= 0 {
      assert s[j] == s[n..][j - n];
      if i >= n {
        assert s[i] == s[n..][i - n];
      } else {
        assert s[i] == s[..n][i];
      }
    }
  }

  method BuildHeap<T(!new)>(a: array<T>, cmp: (T, T) -> int)
    requires Comparison(cmp)
    modifies a
    ensures HeapFrom(a[..], 1, a.Length, cmp) && multiset(a[..]) == multiset(old(a[..]))
  {
    var cnt := a.Length;
    var i := cnt / 2;
    LeavesAreHeaps(a[..], cnt, cmp);
    while i > 0
      invariant 0 <= i <= cnt / 2 && HeapFrom(a[..], i + 1, cnt, cmp)
      invariant multiset(a[..]) == multiset(old(a[..]))
    {
      Except(a[..], i, cnt, cmp);
      ghost var s := a[..];
      Heapify(a, i, cnt, cmp);
      assert a[..cnt] == a[..] && s[..cnt] == s;
      i := i - 1;
    }
  }

  /** binary_search: on a sorted array a match is found exactly when there is one. */
  method BinarySearch<T(!new)>(key: T, a: array<T>, cmp: (T, T) -> int) returns (r: Option<nat>)
    requires Comparison(cmp) && Sorted(a[..], cmp)
    ensures r.Some? ==> r.value < a.Length && cmp(key, a[r.value]) == 0
    ensures r.None? <==> forall k | 0 <= k < a.Length :: cmp(key, a[k]) != 0
  {
    var first, last := 0, a.Length;
    while first < last
      invariant 0 <= first <= last <= a.Length
      invariant forall k | 0 <= k < first :: cmp(key, a[k]) > 0
      invariant forall k | last <= k < a.Length :: cmp(key, a[k]) < 0
    {
      var middle := first + (last - first) / 2;
      var c := cmp(key, a[middle]);
      if c < 0 {
        AllAbove(key, a[..], middle, cmp);
        last := middle;
      } else if c > 0 {
        AllBelow(key, a[..], middle, cmp);
        first := middle + 1;
      } else {
        return Some(middle);
      }
    }
    return None;
  }

  lemma AllAbove<T(!new)>(key: T, s: seq<T>, m: nat, cmp: (T, T) -> int)
    requires Comparison(cmp) && Sorted(s, cmp) && m < |s| && cmp(key, s[m]) < 0
    ensures forall k | m <= k < |s| :: cmp(key, s[k]) < 0
  {
    forall k | m < k < |s| ensures cmp(key, s[k]) < 0 {
      Flip(cmp, s[m], key);
      Beyond(cmp, key, s[m], s[k]);
    }
  }

  lemma AllBelow<T(!new)>(key: T, s: seq<T>, m: nat, cmp: (T, T) -> int)
    requires Comparison(cmp) && Sorted(s, cmp) && m < |s| && cmp(key, s[m]) > 0
    ensures forall k | 0 <= k <= m :: cmp(key, s[k]) > 0
  {
    forall k | 0 <= k < m ensures cmp(key, s[k]) > 0 {
      Above(cmp, s[k], s[m], key);
    }
  }
}
