/** The kernel's queues as linked lists: every item has one list element inside it, and every list
    links the elements of the items that are on it.  `q` is what the lists hold, as item numbers. */
module KernelQueues {
  import opened Common
  import opened Ordering
  import opened IntrusiveList
  import opened Lists
  import opened KernelState

  /** The elements of the items in `q`. */
  ghost function ElemsOf(q: seq<nat>, es: seq<Elem>): (r: seq<Elem>)
    requires Ids(q, |es|)
    ensures |r| == |q| && forall k | 0 <= k < |q| :: r[k] == es[q[k]]
  {
    seq(|q|, k requires 0 <= k < |q| => es[q[k]])
  }

  /** The comparison of two elements that looks at the items around them. */
  function Through(less: (nat, nat) -> bool, owner: map<Elem, nat>): (Elem, Elem) -> bool {
    (a: Elem, b: Elem) => a in owner && b in owner && less(owner[a], owner[b])
  }

  ghost predicate Owns(es: seq<Elem>, owner: map<Elem, nat>) {
    forall t | 0 <= t < |es| :: es[t] in owner && owner[es[t]] == t
  }

  lemma {:induction false} MaxThrough(less: (nat, nat) -> bool, q: seq<nat>, es: seq<Elem>, owner: map<Elem, nat>)
    requires q != [] && Ids(q, |es|) && Owns(es, owner)
    ensures MaxIndex(Through(less, owner), ElemsOf(q, es)) == MaxIndex(less, q)
  {
    if |q| > 1 {
      var p := q[..|q| - 1];
      MaxThrough(less, p, es, owner);
      assert ElemsOf(q, es)[..|q| - 1] == ElemsOf(p, es);
    }
  }

  lemma {:induction false} InsertThrough(less: (nat, nat) -> bool, x: nat, q: seq<nat>, es: seq<Elem>, owner: map<Elem, nat>)
    requires x < |es| && Ids(q, |es|) && Owns(es, owner)
    ensures InsertPosition(Through(less, owner), es[x], ElemsOf(q, es)) == InsertPosition(less, x, q)
  {
    if q != [] && !less(x, q[0]) {
      InsertThrough(less, x, q[1..], es, owner);
      assert ElemsOf(q, es)[1..] == ElemsOf(q[1..], es);
    }
  }

  lemma OrderedThrough(less: (nat, nat) -> bool, x: nat, q: seq<nat>, es: seq<Elem>, owner: map<Elem, nat>)
    requires x < |es| && Ids(q, |es|) && Owns(es, owner)
    ensures Ids(InsertOrdered(less, x, q), |es|)
    ensures InsertOrdered(Through(less, owner), es[x], ElemsOf(q, es)) == ElemsOf(InsertOrdered(less, x, q), es)
  {
    InsertThrough(less, x, q, es, owner);
  }

  /** Comparisons that agree choose the same element. */
  lemma {:induction false} SameMax<T>(less: (T, T) -> bool, less': (T, T) -> bool, q: seq<T>)
    requires q != [] && forall a, b :: less(a, b) == less'(a, b)
    ensures MaxIndex(less, q) == MaxIndex(less', q)
  {
    if |q| > 1 {
      SameMax(less, less', q[..|q| - 1]);
    }
  }

  lemma {:induction false} SameInsert<T>(less: (T, T) -> bool, less': (T, T) -> bool, x: T, q: seq<T>)
    requires forall a, b :: less(a, b) == less'(a, b)
    ensures InsertPosition(less, x, q) == InsertPosition(less', x, q)
  {
    if q != [] {
      SameInsert(less, less', x, q[1..]);
    }
  }

  ghost function Nodes(l: List): set<Elem>
    reads l
  {
    set e | e in Chain(l.head, l.elems, l.tail)
  }

  /** A list none of whose parts was written is still well-formed. */
  twostate lemma Untouched(l: List)
    requires old(l.Valid()) && unchanged(l) && forall e | e in Nodes(l) :: unchanged(e)
    ensures l.Valid()
  {
    var c := Chain(l.head, l.elems, l.tail);
    assert old(Linked(c));
    forall k | 0 <= k < |c| ensures c[k].next == old(c[k].next) && c[k].prev == old(c[k].prev) {
      assert c[k] in c;
      assert c[k] in Nodes(l);
      assert unchanged(c[k]);
    }
  }

  class Queues {
    var elem: seq<Elem>
    var owner: map<Elem, nat>
    var lists: seq<List>
    ghost var q: seq<seq<nat>>
    ghost var repr: set<object>

    ghost predicate Valid()
      reads this, repr
    {
      && this !in repr && |q| == |lists| && Owns(elem, owner)
      && (forall t | 0 <= t < |elem| :: elem[t] in repr)
      && (forall i | 0 <= i < |lists| :: lists[i] in repr && Nodes(lists[i]) <= repr)
      && (forall i {:trigger Holds(lists[i], q[i])} | 0 <= i < |lists| :: Holds(lists[i], q[i]))
      && (forall i, j | 0 <= i < j < |lists| :: lists[i] != lists[j] && Nodes(lists[i]) !! Nodes(lists[j]))
    }

    ghost predicate Holds(l: List, p: seq<nat>)
      reads this, l, Nodes(l)
    {
      && Ids(p, |elem|) && l.elems == ElemsOf(p, elem) && l.Valid()
      && l.head !in owner && l.tail !in owner
    }

    ghost function AllNodes(): (ns: seq<set<Elem>>)
      reads this, lists
      ensures |ns| == |lists| && forall j | 0 <= j < |lists| :: ns[j] == Nodes(lists[j])
    {
      seq(|lists|, j requires 0 <= j < |lists| reads this, lists => Nodes(lists[j]))
    }

    twostate lemma OthersKept(i: nat)
      requires old(Valid()) && elem == old(elem) && owner == old(owner) && lists == old(lists) && repr == old(repr)
      requires |q| == |lists| && forall j | 0 <= j < |lists| && j != i :: q[j] == old(q[j])
      requires forall j | 0 <= j < |lists| && j != i :: unchanged(lists[j]) && forall e | e in Nodes(lists[j]) :: unchanged(e)
      ensures forall j | 0 <= j < |lists| && j != i :: Holds(lists[j], q[j]) && Nodes(lists[j]) == old(Nodes(lists[j]))
    {
      forall j | 0 <= j < |lists| && j != i ensures Holds(lists[j], q[j]) && Nodes(lists[j]) == old(Nodes(lists[j])) {
        assert old(Holds(lists[j], q[j]));
        Untouched(lists[j]);
      }
    }

    /** After a change of list `i` alone, in which at most the element `e` came to it. */
    lemma Reassembled(i: nat, e: Elem, ns: seq<set<Elem>>)
      requires this !in repr && |q| == |lists| == |ns| && i < |lists| && Owns(elem, owner)
      requires (forall t | 0 <= t < |elem| :: elem[t] in repr) && e in repr
      requires forall j | 0 <= j < |ns| :: lists[j] in repr && ns[j] <= repr
      requires forall j, k | 0 <= j < k < |ns| :: lists[j] != lists[k] && ns[j] !! ns[k]
      requires forall j | 0 <= j < |ns| && j != i :: Holds(lists[j], q[j]) && Nodes(lists[j]) == ns[j] && e !in ns[j]
      requires Holds(lists[i], q[i]) && Nodes(lists[i]) <= ns[i] + {e}
      ensures Valid()
    {
    }

    ghost predicate OnNone(t: nat)
      reads this
    {
      t < |elem| && forall i | 0 <= i < |q| :: t !in q[i]
    }

    /** The element of an item that is on no list is in no chain. */
    lemma OffChain(t: nat)
      requires Valid() && OnNone(t)
      ensures forall j | 0 <= j < |lists| :: elem[t] !in Nodes(lists[j]) && elem[t] !in Chain(lists[j].head, lists[j].elems, lists[j].tail)
    {
      forall j | 0 <= j < |lists| ensures elem[t] !in Chain(lists[j].head, lists[j].elems, lists[j].tail) {
        assert Holds(lists[j], q[j]);
        forall k | 0 <= k < |q[j]| ensures lists[j].elems[k] != elem[t] {
          assert owner[elem[q[j][k]]] == q[j][k];
        }
      }
    }

    /** The element of an item on list `i` is in no other chain. */
    lemma OnlyOn(i: nat, t: nat)
      requires Valid() && i < |lists| && t in q[i]
      ensures t < |elem| && elem[t] in Nodes(lists[i])
      ensures forall j | 0 <= j < |lists| && j != i :: elem[t] !in Nodes(lists[j])
    {
      assert Holds(lists[i], q[i]);
      var k :| 0 <= k < |q[i]| && q[i][k] == t;
      assert lists[i].elems[k] == elem[t];
      assert elem[t] in Chain(lists[i].head, lists[i].elems, lists[i].tail);
    }

    constructor ()
      ensures Valid() && elem == [] && q == [] && repr == {}
    {
      elem, owner, lists, q, repr := [], map[], [], [], {};
    }

    /** A new item, on no list. */
    method AddItem()
      requires Valid()
      modifies this
      ensures Valid() && q == old(q) && |elem| == old(|elem|) + 1
      ensures old(repr) <= repr && fresh(repr - old(repr))
    {
      var e := new Elem();
      elem, owner, repr := elem + [e], owner[e := |elem|], repr + {e};
      forall i | 0 <= i < |lists| ensures Holds(lists[i], q[i]) {
        assert old(Holds(lists[i], q[i]));
        Untouched(lists[i]);
      }
    }

    /** A new list, with nothing on it. */
    method AddList()
      requires Valid()
      modifies this
      ensures Valid() && q == old(q) + [[]] && elem == old(elem)
      ensures old(repr) <= repr && fresh(repr - old(repr))
    {
      ghost var ns := AllNodes();
      var l := new List();
      assert Nodes(l) == {l.head, l.tail};
      lists, q, repr := lists + [l], q + [[]], repr + {l, l.head, l.tail};
      forall i | 0 <= i < |ns| ensures Holds(lists[i], q[i]) && Nodes(lists[i]) == ns[i] {
        assert old(Holds(lists[i], q[i]));
        Untouched(lists[i]);
      }
    }

    /** list_push_back. */
    method Append(i: nat, t: nat)
      requires Valid() && i < |lists| && OnNone(t)
      modifies this`q, repr
      ensures Valid() && q == old(q)[i := old(q)[i] + [t]]
    {
      ghost var ns := AllNodes();
      OffChain(t);
      assert Holds(lists[i], q[i]);
      lists[i].PushBack(elem[t]);
      q := q[i := q[i] + [t]];
      assert lists[i].elems == ElemsOf(q[i], elem);
      OthersKept(i);
      Reassembled(i, elem[t], ns);
    }

    /** list_insert_ordered. */
    method InsertSorted(i: nat, t: nat, less: (nat, nat) -> bool)
      requires Valid() && i < |lists| && OnNone(t)
      modifies this`q, repr
      ensures Valid() && q == old(q)[i := InsertOrdered(less, t, old(q)[i])]
    {
      ghost var ns := AllNodes();
      OffChain(t);
      assert Holds(lists[i], q[i]);
      OrderedThrough(less, t, q[i], elem, owner);
      lists[i].InsertElemOrdered(elem[t], Through(less, owner));
      q := q[i := InsertOrdered(less, t, q[i])];
      OthersKept(i);
      Reassembled(i, elem[t], ns);
    }

    /** list_remove, which is told neither the list nor the position. */
    method Remove(t: nat, ghost i: nat, ghost k: nat)
      requires Valid() && i < |lists| && k < |q[i]| && q[i][k] == t
      modifies this`q, repr
      ensures Valid() && q == old(q)[i := old(q)[i][..k] + old(q)[i][k + 1..]]
    {
      ghost var ns := AllNodes();
      OnlyOn(i, t);
      assert Holds(lists[i], q[i]);
      Unlink(elem[t], lists[i], k);
      q := q[i := q[i][..k] + q[i][k + 1..]];
      assert lists[i].elems == ElemsOf(q[i], elem);
      OthersKept(i);
      Reassembled(i, elem[t], ns);
    }

    /** list_empty. */
    method IsEmpty(i: nat) returns (r: bool)
      requires Valid() && i < |lists|
      ensures r <==> q[i] == []
    {
      assert Holds(lists[i], q[i]);
      var e := lists[i].Front();
      r := e == lists[i].tail;
      if q[i] != [] {
        assert lists[i].elems[0] == elem[q[i][0]];
      }
    }

    /** list_front and list_entry. */
    method First(i: nat) returns (t: nat)
      requires Valid() && i < |lists| && q[i] != []
      ensures t == q[i][0]
    {
      assert Holds(lists[i], q[i]);
      var e := lists[i].Front();
      assert e == elem[q[i][0]];
      t := owner[e];
    }

    /** list_max and list_entry. */
    method Max(i: nat, less: (nat, nat) -> bool) returns (t: nat)
      requires Valid() && i < |lists| && q[i] != []
      ensures t == q[i][MaxIndex(less, q[i])]
    {
      assert Holds(lists[i], q[i]);
      MaxThrough(less, q[i], elem, owner);
      var e := lists[i].Max(Through(less, owner));
      t := owner[e];
    }
  }
}
