/** The bottom-up merge sort of utlist.h on linked nodes.

    While a pass runs, the nodes it has put out form one chain, and of the old list two stretches are
    still linked: the rest of the current left run and everything from the current right run on. */
module UtList {
  import opened Common
  import opened Ordering
  import opened BottomUpSort

  class Node {
    var prev: Node?
    var next: Node?
  }

  /** The order a strcmp-like callback stands for. */
  ghost function Less(cmp: (Node, Node) -> int): (Node, Node) -> bool {
    (x: Node, y: Node) => cmp(y, x) > 0
  }

  // ---------------------------------------------------------------- links

  /** The head's prev is the tail, the tail's next is null, and prev mirrors next. */
  ghost predicate Linked(s: seq<Node>)
    reads s
  {
    && s != [] && NoDup(s) && s[0].prev == s[|s| - 1] && s[|s| - 1].next == null
    && (forall k {:trigger s[k].next} | 0 <= k < |s| - 1 :: s[k].next == s[k + 1])
    && (forall k {:trigger s[k].prev} | 1 <= k < |s| :: s[k].prev == s[k - 1])
  }

  /** The chain put out so far; its last next link is not set yet. */
  ghost predicate OutLinks(out: seq<Node>)
    reads out
  {
    && (out != [] ==> out[0].prev == null)
    && (forall k {:trigger out[k].next} | 0 <= k < |out| - 1 :: out[k].next == out[k + 1])
    && (forall k {:trigger out[k].prev} | 1 <= k < |out| :: out[k].prev == out[k - 1])
  }

  function At(s: seq<Node>, k: nat): Node? {
    if k < |s| then s[k] else null
  }

  /** Positions of the old list that have not been put out: the left run's rest and the right part. */
  ghost predicate Pending(n: nat, i: nat, m: nat, j: nat, k: nat) {
    i <= k < m || j <= k < n
  }

  ghost predicate OldLinks(s: seq<Node>, i: nat, m: nat, j: nat)
    reads s
  {
    forall k {:trigger s[k].next} | 0 <= k < |s| && Pending(|s|, i, m, j, k) && k + 1 != m :: s[k].next == At(s, k + 1)
  }

  ghost predicate Apart(s: seq<Node>, i: nat, m: nat, j: nat, out: seq<Node>) {
    forall k, l | 0 <= k < |s| && Pending(|s|, i, m, j, k) && 0 <= l < |out| :: s[k] != out[l]
  }

  ghost predicate Ends(out: seq<Node>, head: Node?, tail: Node?) {
    if out == [] then head == null && tail == null else head == out[0] && tail == out[|out| - 1]
  }

  ghost predicate State(s: seq<Node>, i: nat, m: nat, j: nat, out: seq<Node>, head: Node?, tail: Node?)
    reads s, out
  {
    && i <= m <= j <= |s| && NoDup(s) && NoDup(out) && Apart(s, i, m, j, out)
    && OldLinks(s, i, m, j) && OutLinks(out) && Ends(out, head, tail)
  }

  // ---------------------------------------------------------------- putting out one node

  /** Appends e to the output chain. */
  method Emit(head: Node?, tail: Node?, e: Node, ghost out: seq<Node>, ghost fp: set<Node>) returns (head': Node?)
    requires OutLinks(out) && NoDup(out) && e !in out && Over(out, fp) && e in fp && Ends(out, head, tail)
    modifies fp
    ensures OutLinks(out + [e]) && NoDup(out + [e]) && Ends(out + [e], head', e)
    ensures forall x {:trigger x.next} | x in fp && x != tail :: x.next == old(x.next)
  {
    head' := head;
    if tail != null {
      tail.next := e;
    } else {
      head' := e;
    }
    e.prev := tail;
  }

  lemma TakeNode(s: seq<Node>, i: nat, m: nat, j: nat, out: seq<Node>, t: nat, i': nat, j': nat)
    requires i <= m <= j <= |s| && NoDup(s) && Apart(s, i, m, j, out)
    requires (t == i < m && i' == i + 1 && j' == j) || (t == j < |s| && i' == i && j' == j + 1)
    ensures s[t] !in out && Apart(s, i', m, j', out + [s[t]])
  {
    var out' := out + [s[t]];
    forall k, l | 0 <= k < |s| && Pending(|s|, i', m, j', k) && 0 <= l < |out'| ensures s[k] != out'[l] {
      assert Pending(|s|, i, m, j, k);
      if l < |out| {
        assert out'[l] == out[l];
      }
    }
    assert Pending(|s|, i, m, j, t);
  }

  /** Puts out the front node of the left run (t == i) or of the right one (t == j). */
  method Put(head: Node?, tail: Node?, e: Node, ghost s: seq<Node>, ghost i: nat, ghost m: nat, ghost j: nat,
             ghost out: seq<Node>, ghost t: nat, ghost fp: set<Node>)
    returns (head': Node?, next: Node?, ghost i': nat, ghost j': nat)
    requires State(s, i, m, j, out, head, tail) && Over(s, fp) && Over(out, fp)
    requires (t == i < m || t == j < |s|) && e == s[t]
    modifies fp
    ensures i' == (if t == i && i < m then i + 1 else i) && j' == (if t == i && i < m then j else j + 1)
    ensures State(s, i', m, j', out + [e], head', e) && Over(out + [e], fp)
    ensures t + 1 != m || t >= j ==> next == At(s, t + 1)
  {
    i' := if t == i && i < m then i + 1 else i;
    j' := if t == i && i < m then j else j + 1;
    TakeNode(s, i, m, j, out, t, i', j');
    assert t + 1 != m || t >= j ==> e.next == At(s, t + 1);
    next := e.next;
    head' := Emit(head, tail, e, out, fp);
    forall k | 0 <= k < |s| && Pending(|s|, i', m, j', k) && k + 1 != m ensures s[k].next == At(s, k + 1) {
      assert Pending(|s|, i, m, j, k);
      assert s[k] in fp;
    }
  }

  // ---------------------------------------------------------------- merging two runs

  lemma MergeTake(less: (Node, Node) -> bool, s: seq<Node>, i: nat, m: nat, j: nat, end: nat, out: seq<Node>)
    requires i <= m <= j <= end <= |s| && (i < m || j < end)
    ensures var left := i < m && (j == end || !less(s[j], s[i]));
            out + Merge(less, s[i..m], s[j..end])
            == if left then out + [s[i]] + Merge(less, s[i + 1..m], s[j..end])
               else assert j < end; out + [s[j]] + Merge(less, s[i..m], s[j + 1..end])
  {
    var a, b := s[i..m], s[j..end];
    if i < m && (j == end || !less(s[j], s[i])) {
      assert a[1..] == s[i + 1..m];
      MergeNil(less, a);
      assert out + ([s[i]] + Merge(less, a[1..], b)) == out + [s[i]] + Merge(less, a[1..], b);
    } else {
      assert b[1..] == s[j + 1..end];
      assert out + ([s[j]] + Merge(less, a, b[1..])) == out + [s[j]] + Merge(less, a, b[1..]);
    }
  }

  lemma MergeNil(less: (Node, Node) -> bool, a: seq<Node>)
    requires a != []
    ensures Merge(less, a, []) == [a[0]] + Merge(less, a[1..], [])
  {
  }

  /** How far the merge of the left run i0..m and the right run behind it has come. */
  ghost predicate Halfway(less: (Node, Node) -> bool, s: seq<Node>, i0: nat, m: nat, k: nat, out0: seq<Node>, i: nat, j: nat,
                          p: Node?, q: Node?, psize: nat, qsize: nat, head: Node?, tail: Node?, out: seq<Node>)
    reads s, out
  {
    && i0 <= i <= m <= j <= Min(m + k, |s|) && psize == m - i && qsize == k - (j - m)
    && State(s, i, m, j, out, head, tail) && (i < m ==> p == s[i]) && q == At(s, j)
    && out + Merge(less, s[i..m], s[j..Min(m + k, |s|)]) == out0 + Merge(less, s[i0..m], s[m..Min(m + k, |s|)])
  }

  /** One turn of the inner loop: the node that comes first is put out. */
  method TakeNext(head0: Node?, tail0: Node?, p0: Node?, q0: Node?, psize0: nat, qsize0: nat, cmp: (Node, Node) -> int,
                  ghost s: seq<Node>, ghost i0: nat, ghost m: nat, ghost k: nat, ghost out0: seq<Node>,
                  ghost i: nat, ghost j: nat, ghost done: seq<Node>, ghost fp: set<Node>)
    returns (head: Node?, tail: Node?, p: Node?, q: Node?, psize: nat, qsize: nat, ghost i': nat, ghost j': nat, ghost out: seq<Node>)
    requires AsUnit(Halfway(Less(cmp), s, i0, m, k, out0, i, j, p0, q0, psize0, qsize0, head0, tail0, done))
    requires Over(s, fp) && Over(done, fp) && (psize0 > 0 || (qsize0 > 0 && q0 != null))
    modifies fp
    ensures AsUnit(Halfway(Less(cmp), s, i0, m, k, out0, i', j', p, q, psize, qsize, head, tail, out)) && Over(out, fp)
    ensures psize + qsize < psize0 + qsize0
  {
    ghost var end := Min(m + k, |s|);
    assert qsize0 > 0 && q0 != null <==> j < end;
    MergeTake(Less(cmp), s, i, m, j, end, done);
    p, q, psize, qsize := p0, q0, psize0, qsize0;
    var e: Node;
    if psize == 0 || (qsize > 0 && q != null && cmp(p, q) > 0) {
      e := q;
      head, q, i', j' := Put(head0, tail0, e, s, i, m, j, done, j, fp);
      qsize := qsize - 1;
    } else {
      e := p;
      head, p, i', j' := Put(head0, tail0, e, s, i, m, j, done, i, fp);
      psize := psize - 1;
    }
    out := done + [e];
    tail := e;
  }

  /** The inner loop: the left run of psize nodes at p and at most k nodes at q are put out merged. */
  method MergeTwo(head0: Node?, tail0: Node?, p0: Node, q0: Node?, psize0: nat, k: nat, cmp: (Node, Node) -> int,
                  ghost s: seq<Node>, ghost i0: nat, ghost out0: seq<Node>, ghost fp: set<Node>)
    returns (head: Node?, tail: Node?, q: Node?, ghost out: seq<Node>)
    requires i0 + psize0 <= |s| && psize0 >= 1 && k >= 1
    requires State(s, i0, i0 + psize0, i0 + psize0, out0, head0, tail0) && Over(s, fp) && Over(out0, fp)
    requires p0 == s[i0] && q0 == At(s, i0 + psize0)
    modifies fp
    ensures var m := i0 + psize0;
            var end := Min(m + k, |s|);
            && q == At(s, end) && out == out0 + Merge(Less(cmp), s[i0..m], s[m..end])
            && State(s, m, m, end, out, head, tail) && Over(out, fp)
  {
    ghost var m := i0 + psize0;
    ghost var i: nat, j: nat := i0, m;
    var p: Node?, psize, qsize := p0, psize0, k;
    head, tail, q, out := head0, tail0, q0, out0;
    while psize > 0 || (qsize > 0 && q != null)
      invariant AsUnit(Halfway(Less(cmp), s, i0, m, k, out0, i, j, p, q, psize, qsize, head, tail, out)) && Over(out, fp)
      decreases psize + qsize
    {
      head, tail, p, q, psize, qsize, i, j, out := TakeNext(head, tail, p, q, psize, qsize, cmp, s, i0, m, k, out0, i, j, out, fp);
    }
    HalfwayEnds(Less(cmp), s, i0, m, k, out0, i, j, p, q, psize, qsize, head, tail, out);
  }

  lemma HalfwayEnds(less: (Node, Node) -> bool, s: seq<Node>, i0: nat, m: nat, k: nat, out0: seq<Node>, i: nat, j: nat,
                    p: Node?, q: Node?, psize: nat, qsize: nat, head: Node?, tail: Node?, out: seq<Node>)
    requires AsUnit(Halfway(less, s, i0, m, k, out0, i, j, p, q, psize, qsize, head, tail, out))
    requires psize == 0 && (qsize == 0 || q == null)
    ensures i == m && j == Min(m + k, |s|) && AsUnit(State(s, m, m, j, out, head, tail))
    ensures out == out0 + Merge(less, s[i0..m], s[m..j])
  {
    assert s[i..m] == [] && s[j..Min(m + k, |s|)] == [];
    assert out + [] == out;
  }

  // ---------------------------------------------------------------- a pass and the whole sort

  /** Counts off the left run. */
  method SkipRun(p: Node, k: nat, ghost s: seq<Node>, ghost i: nat) returns (q: Node?, psize: nat)
    requires k >= 1 && i < |s| && p == s[i] && OldLinks(s, i, i, i)
    ensures psize == Min(k, |s| - i) && q == At(s, i + psize)
  {
    q, psize := p, 0;
    var n := 0;
    while n < k
      invariant n == psize <= Min(k, |s| - i) && q == At(s, i + psize) && i + psize < |s|
    {
      assert Pending(|s|, i, i, i, i + psize);
      psize := psize + 1;
      assert q == s[i + n];
      q := q.next;
      if q == null {
        break;
      }
      n := n + 1;
    }
  }

  /** The chain put out, with its ends. */
  ghost predicate Whole(out: seq<Node>, head: Node?, tail: Node?)
    reads out
  {
    NoDup(out) && OutLinks(out) && Ends(out, head, tail)
  }

  /** Closing the chain at the end of a pass. */
  method Close(first: Node, tail: Node, ghost out: seq<Node>, ghost fp: set<Node>)
    requires out != [] && Whole(out, first, tail) && Over(out, fp)
    modifies fp
    ensures Linked(out)
  {
    first.prev := tail;
    tail.next := null;
  }

  /** One pass at run size k over a linked list. */
  method Pass(list: Node, k: nat, cmp: (Node, Node) -> int, ghost s: seq<Node>, ghost fp: set<Node>)
    returns (head: Node, nmerges: nat, ghost out: seq<Node>)
    requires k >= 1 && Linked(s) && list == s[0] && Over(s, fp)
    modifies fp
    ensures out == MergePairs(Less(cmp), s, k) && Linked(out) && head == out[0] && Over(out, fp)
    ensures nmerges == Merges(|s|, k)
  {
    var first: Node?, tail: Node?;
    first, tail, nmerges, out := PassLoop(list, k, cmp, s, fp);
    Close(first, tail, out, fp);
    head := first;
  }

  method PassLoop(list: Node, k: nat, cmp: (Node, Node) -> int, ghost s: seq<Node>, ghost fp: set<Node>)
    returns (first: Node?, tail: Node?, nmerges: nat, ghost out: seq<Node>)
    requires k >= 1 && Linked(s) && list == s[0] && Over(s, fp)
    modifies fp
    ensures AsUnit(Whole(out, first, tail)) && Over(out, fp)
    ensures out == PairsBy(Merging(Less(cmp)), s, k) && nmerges == Merges(|s|, k)
  {
    ghost var i: nat, mg := 0, Merging(Less(cmp));
    var p: Node? := list;
    first, tail, nmerges, out := null, null, 0, [];
    TurnsBegin(mg, k, s, fp);
    while p != null
      invariant i <= |s| && AsUnit(Turning(s, i, p, first, tail, out, fp, k, mg, nmerges))
      decreases |s| - i
    {
      first, tail, p, out, i := CountedTurn(first, tail, p, k, cmp, s, i, out, nmerges, fp);
      nmerges := nmerges + 1;
    }
    TurnsEnd(s, i, first, tail, out, fp, k, mg, nmerges);
  }

  method CountedTurn(head0: Node?, tail0: Node?, p: Node, k: nat, cmp: (Node, Node) -> int, ghost s: seq<Node>, ghost i: nat,
                     ghost out0: seq<Node>, ghost nmerges: nat, ghost fp: set<Node>)
    returns (head: Node?, tail: Node?, q: Node?, ghost out: seq<Node>, ghost end: nat)
    requires k >= 1 && AsUnit(Turning(s, i, p, head0, tail0, out0, fp, k, Merging(Less(cmp)), nmerges))
    modifies fp
    ensures i < end <= |s| && AsUnit(Turning(s, end, q, head, tail, out, fp, k, Merging(Less(cmp)), nmerges + 1))
  {
    head, tail, q, out, end := PassTurn(head0, tail0, p, k, cmp, s, i, out0, fp);
    TurnProgress(Merging(Less(cmp)), s, k, i, i + Min(k, |s| - i), end, out0, out, PairsBy(Merging(Less(cmp)), s, k), nmerges, Merges(|s|, k));
  }

  /** How far a pass has come: position i of the old list is next, and `out` is put out. */
  ghost predicate Turning(s: seq<Node>, i: nat, p: Node?, head: Node?, tail: Node?, out: seq<Node>, fp: set<Node>,
                          k: nat, mg: (seq<Node>, seq<Node>) -> seq<Node>, nmerges: nat)
    requires k >= 1
    reads s, out
  {
    && i <= |s| && p == At(s, i) && AsUnit(State(s, i, i, i, out, head, tail)) && Over(s, fp) && Over(out, fp)
    && AsUnit(Progress(mg, k, s[i..], out, PairsBy(mg, s, k), nmerges, Merges(|s|, k)))
  }

  lemma TurnsBegin(mg: (seq<Node>, seq<Node>) -> seq<Node>, k: nat, s: seq<Node>, fp: set<Node>)
    requires k >= 1 && Linked(s) && Over(s, fp)
    ensures AsUnit(Turning(s, 0, s[0], null, null, [], fp, k, mg, 0))
  {
    assert s[0..] == s;
  }

  lemma TurnsEnd(s: seq<Node>, i: nat, head: Node?, tail: Node?, out: seq<Node>, fp: set<Node>, k: nat,
                 mg: (seq<Node>, seq<Node>) -> seq<Node>, nmerges: nat)
    requires k >= 1 && AsUnit(Turning(s, i, null, head, tail, out, fp, k, mg, nmerges))
    ensures AsUnit(Whole(out, head, tail)) && Over(out, fp)
    ensures out == PairsBy(mg, s, k) && nmerges == Merges(|s|, k)
  {
    assert i == |s|;
    assert s[|s|..] == [] && out + [] == out;
  }

  lemma TurnProgress(mg: (seq<Node>, seq<Node>) -> seq<Node>, s: seq<Node>, k: nat, i: nat, m: nat, end: nat,
                     out: seq<Node>, out': seq<Node>, total: seq<Node>, nmerges: nat, count: nat)
    requires k >= 1 && i < |s| && m == i + Min(k, |s| - i) && end == Min(m + k, |s|)
    requires AsUnit(Progress(mg, k, s[i..], out, total, nmerges, count)) && out' == out + mg(s[i..m], s[m..end])
    ensures AsUnit(Progress(mg, k, s[end..], out', total, nmerges + 1, count))
  {
    Sliced(s, i, m, end);
    ProgressStep(mg, k, s[i..], out, total, nmerges, count, s[i..m], s[m..end], s[end..]);
  }

  /** What is out, together with a pass over the rest, is a pass over the whole. */
  ghost predicate Progress(mg: (seq<Node>, seq<Node>) -> seq<Node>, k: nat, rest: seq<Node>, out: seq<Node>,
                           total: seq<Node>, nmerges: nat, count: nat)
    requires k >= 1
  {
    out + PairsBy(mg, rest, k) == total && nmerges + Merges(|rest|, k) == count
  }

  lemma ProgressStep(mg: (seq<Node>, seq<Node>) -> seq<Node>, k: nat, rest: seq<Node>, out: seq<Node>,
                     total: seq<Node>, nmerges: nat, count: nat, a: seq<Node>, b: seq<Node>, c: seq<Node>)
    requires k >= 1 && rest != [] && Progress(mg, k, rest, out, total, nmerges, count)
    requires a == rest[..Min(k, |rest|)] && b == rest[Min(k, |rest|)..Min(2 * k, |rest|)] && c == rest[Min(2 * k, |rest|)..]
    ensures Progress(mg, k, c, out + mg(a, b), total, nmerges + 1, count)
  {
    ByUnfold(mg, rest, k, a, b, c);
    Shift(total, out, PairsBy(mg, rest, k), mg(a, b), PairsBy(mg, c, k));
  }

  /** One turn of a pass: two runs of the old list are put out as one. */
  method PassTurn(head0: Node?, tail0: Node?, p: Node, k: nat, cmp: (Node, Node) -> int,
                  ghost s: seq<Node>, ghost i: nat, ghost out0: seq<Node>, ghost fp: set<Node>)
    returns (head: Node?, tail: Node?, q: Node?, ghost out: seq<Node>, ghost end: nat)
    requires k >= 1 && i < |s| && p == s[i] && State(s, i, i, i, out0, head0, tail0) && Over(s, fp) && Over(out0, fp)
    modifies fp
    ensures var m := i + Min(k, |s| - i);
            i < end == Min(m + k, |s|) && out == out0 + Merging(Less(cmp))(s[i..m], s[m..end])
    ensures q == At(s, end) && AsUnit(State(s, end, end, end, out, head, tail)) && Over(out, fp)
  {
    var psize: nat;
    q, psize := SkipRun(p, k, s, i);
    end := Min(i + psize + k, |s|);
    StateWider(s, i, i + psize, out0, head0, tail0);
    head, tail, q, out := MergeTwo(head0, tail0, p, q, psize, k, cmp, s, i, out0, fp);
    StateNarrower(s, i + psize, end, out, head, tail);
  }

  lemma StateNarrower(s: seq<Node>, m: nat, end: nat, out: seq<Node>, head: Node?, tail: Node?)
    requires State(s, m, m, end, out, head, tail)
    ensures State(s, end, end, end, out, head, tail)
  {
    assert forall k | 0 <= k < |s| && Pending(|s|, end, end, end, k) :: Pending(|s|, m, m, end, k);
  }

  lemma StateWider(s: seq<Node>, i: nat, m: nat, out: seq<Node>, head: Node?, tail: Node?)
    requires i <= m <= |s| && State(s, i, i, i, out, head, tail)
    ensures State(s, i, m, m, out, head, tail)
  {
    assert forall k | 0 <= k < |s| && Pending(|s|, i, m, m, k) :: Pending(|s|, i, i, i, k);
  }

  /** DL_SORT2: for every nonempty list and total preorder the result is linked both ways and holds the
      same nodes, sorted, equal ones in their old order; an empty list stays empty. */
  method DlSort(list: Node?, cmp: (Node, Node) -> int, ghost s: seq<Node>, ghost fp: set<Node>)
    returns (head: Node?, ghost out: seq<Node>)
    requires if list == null then s == [] else Linked(s) && list == s[0]
    requires Over(s, fp) && StrictWeak(Less(cmp), fp)
    modifies fp
    ensures Sorted(Less(cmp), out) && StableRearrangement(Less(cmp), s, out)
    ensures if list == null then head == null else Linked(out) && head == out[0]
  {
    head, out := list, s;
    ghost var less := Less(cmp);
    if list != null {
      OnesSorted(less, s);
      BottomUpCorrect(less, s, 1, fp);
      var insize := 1;
      var looping := true;
      while looping
        invariant AsUnit(Linked(out)) && head == out[0]
        invariant looping ==> insize >= 1 && Over(out, fp) && |out| == |s| && BottomUp(less, out, insize) == BottomUp(less, s, 1)
        invariant !looping ==> out == BottomUp(less, s, 1)
        decreases looping, |s| - insize
      {
        MergesOne(|s|, insize);
        var nmerges: nat;
        head, nmerges, out := Pass(head, insize, cmp, out, fp);
        if nmerges <= 1 {
          looping := false;
        }
        insize := insize * 2;
      }
    }
  }
}
