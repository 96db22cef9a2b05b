/** The kernel's block allocator: size classes, one-page arenas, free lists.

    Addresses are naturals.  Pages come from the page allocator, which is represented by what it
    grants: page numbers that are not in use. */
module Malloc {
  import opened Common

  const PGSIZE: nat := 4096
  /** sizeof (struct arena) on a 32-bit machine. */
  const HEADER: nat := 12
  const DESC_CNT: nat := 7
  const SIZE_LIMIT: nat := 0x1_0000_0000

  /** Block sizes 16, 32, ..., 1024. */
  function BlockSize(d: nat): (s: nat)
    ensures s > 0
  {
    if d == 0 then 16 else 2 * BlockSize(d - 1)
  }

  function BlocksPerArena(d: nat): nat {
    QuotientNatural(PGSIZE - HEADER, BlockSize(d));
    (PGSIZE - HEADER) / BlockSize(d)
  }

  lemma QuotientNatural(n: nat, d: nat)
    requires d > 0
    ensures n / d >= 0
  {
    var q := n / d;
    assert n < q * d + d;
    assert q < 0 ==> q * d + d <= 0;
  }

  datatype Desc = Desc(blockSize: nat, blocksPerArena: nat)

  /** malloc_init: the descriptors are exactly the size classes below half a page. */
  method MallocInit() returns (descs: seq<Desc>)
    ensures |descs| == DESC_CNT
    ensures forall d | 0 <= d < DESC_CNT :: descs[d] == Desc(BlockSize(d), BlocksPerArena(d))
    ensures BlockSize(DESC_CNT - 1) < PGSIZE / 2 <= BlockSize(DESC_CNT)
    ensures forall d | 0 <= d < DESC_CNT :: descs[d].blockSize == [16, 32, 64, 128, 256, 512, 1024][d]
    ensures forall d | 0 <= d < DESC_CNT :: descs[d].blocksPerArena == [255, 127, 63, 31, 15, 7, 3][d]
  {
    descs := [];
    var blockSize := 16;
    Sizes();
    while blockSize < PGSIZE / 2
      invariant blockSize == BlockSize(|descs|) && |descs| <= DESC_CNT
      invariant forall d | 0 <= d < |descs| :: descs[d] == Desc(BlockSize(d), BlocksPerArena(d))
      decreases PGSIZE - blockSize
    {
      descs := descs + [Desc(blockSize, (PGSIZE - HEADER) / blockSize)];
      blockSize := blockSize * 2;
    }
  }

  lemma Sizes()
    ensures BlockSize(0) == 16 && BlockSize(1) == 32 && BlockSize(2) == 64 && BlockSize(3) == 128
    ensures BlockSize(4) == 256 && BlockSize(5) == 512 && BlockSize(6) == 1024 && BlockSize(7) == 2048
    ensures forall d | d >= 7 :: BlockSize(d) >= 2048
  {
    assert BlockSize(2) == 64;
    assert BlockSize(4) == 256;
    assert BlockSize(6) == 1024;
    forall d | d >= 7 ensures BlockSize(d) >= 2048 {
      BigClass(d);
    }
  }

  lemma BigClass(d: nat)
    requires d >= 7
    ensures BlockSize(d) >= 2048
  {
    if d == 7 {
      assert BlockSize(2) == 64;
      assert BlockSize(4) == 256;
      assert BlockSize(6) == 1024;
    } else {
      BigClass(d - 1);
    }
  }

  // ---------------------------------------------------------------- addresses

  function PageOf(a: nat): nat {
    a / PGSIZE
  }

  /** The first byte behind page p's arena header. */
  function Payload(p: nat): (a: nat)
    ensures PageOf(a) == p
  {
    p * PGSIZE + HEADER
  }

  /** arena_to_block. */
  function BlockAt(p: nat, d: nat, i: nat): nat {
    p * PGSIZE + HEADER + i * BlockSize(d)
  }

  /** A block lies behind the header inside its page, and blocks do not overlap. */
  lemma BlockBounds(p: nat, d: nat, i: nat)
    requires d < DESC_CNT && i < BlocksPerArena(d)
    ensures HEADER <= BlockAt(p, d, i) - p * PGSIZE
    ensures BlockAt(p, d, i) + BlockSize(d) <= (p + 1) * PGSIZE
    ensures PageOf(BlockAt(p, d, i)) == p
  {
    WholeBlocks(PGSIZE - HEADER, BlockSize(d), i);
  }

  lemma WholeBlocks(room: nat, s: nat, i: nat)
    requires s > 0 && i < room / s
    ensures 0 <= i * s <= room - s
  {
    var n := room / s;
    assert n * s <= room;
    Mono(i + 1, n, s);
    assert (i + 1) * s == i * s + s;
  }

  lemma Mono(a: nat, b: nat, c: nat)
    requires a <= b
    ensures a * c <= b * c
  {
  }

  lemma BlocksApart(p: nat, d: nat, i: nat, j: nat)
    requires i < j
    ensures BlockAt(p, d, i) + BlockSize(d) <= BlockAt(p, d, j)
  {
    var s := BlockSize(d);
    Mono(i + 1, j, s);
    assert (i + 1) * s == i * s + s;
  }

  // ---------------------------------------------------------------- the heap's consistency

  datatype Arena = Small(desc: nat, freeCnt: nat) | Big(pages: nat)

  function Pages(a: Arena): nat {
    match a
    case Small(_, _) => 1
    case Big(n) => n
  }

  /** Address a is a block of size class d in its page's arena. */
  ghost predicate IsBlock(a: nat, d: nat) {
    exists i :: 0 <= i < BlocksPerArena(d) && a == BlockAt(PageOf(a), d, i)
  }

  /** The positions of arena p whose blocks are on the free list. */
  ghost function FreeSlots(free: seq<nat>, p: nat, d: nat): set<nat> {
    set i: nat | 0 <= i < BlocksPerArena(d) && BlockAt(p, d, i) in free
  }

  ghost predicate FreeListsOk(free: seq<seq<nat>>, arenas: map<nat, Arena>) {
    && |free| == DESC_CNT
    && (forall d | 0 <= d < DESC_CNT :: NoDup(free[d]))
    && (forall d, a | 0 <= d < DESC_CNT && a in free[d] ::
          PageOf(a) in arenas && arenas[PageOf(a)].Small? && arenas[PageOf(a)].desc == d && IsBlock(a, d))
  }

  ghost predicate LiveOk(free: seq<seq<nat>>, arenas: map<nat, Arena>, live: set<nat>)
    requires |free| == DESC_CNT
  {
    forall a | a in live ::
      PageOf(a) in arenas && LiveAt(free, arenas[PageOf(a)], a)
  }

  ghost predicate LiveAt(free: seq<seq<nat>>, arena: Arena, a: nat)
    requires |free| == DESC_CNT
  {
    if arena.Small? then arena.desc < DESC_CNT && IsBlock(a, arena.desc) && a !in free[arena.desc]
    else a == Payload(PageOf(a))
  }

  /** One arena's books: every block is free or live, and the counter counts the free ones. */
  ghost predicate ArenaOk(free: seq<seq<nat>>, arenas: map<nat, Arena>, live: set<nat>, p: nat)
    requires |free| == DESC_CNT && p in arenas
  {
    if arenas[p].Small? then
      && arenas[p].desc < DESC_CNT
      && AllAccounted(free[arenas[p].desc], live, p, arenas[p].desc)
      && arenas[p].freeCnt == |FreeSlots(free[arenas[p].desc], p, arenas[p].desc)| <= BlocksPerArena(arenas[p].desc)
    else arenas[p].pages >= 1 && Payload(p) in live
  }

  ghost predicate AllAccounted(free: seq<nat>, live: set<nat>, p: nat, d: nat) {
    forall i | 0 <= i < BlocksPerArena(d) :: BlockAt(p, d, i) in free || BlockAt(p, d, i) in live
  }

  /** No page belongs to two arenas. */
  ghost predicate Disjoint(arenas: map<nat, Arena>) {
    forall p, q | p in arenas && q in arenas && p < q :: p + Pages(arenas[p]) <= q
  }

  ghost predicate Books(free: seq<seq<nat>>, arenas: map<nat, Arena>, live: set<nat>) {
    && FreeListsOk(free, arenas) && LiveOk(free, arenas, live) && Disjoint(arenas)
    && forall p | p in arenas :: ArenaOk(free, arenas, live, p)
  }

  /** Between calls no arena is wholly free. */
  ghost predicate NoneIdle(arenas: map<nat, Arena>) {
    forall p | p in arenas && arenas[p].Small? :: arenas[p].freeCnt < BlocksPerArena(arenas[p].desc)
  }

  ghost predicate Consistent(free: seq<seq<nat>>, arenas: map<nat, Arena>, live: set<nat>) {
    Books(free, arenas, live) && NoneIdle(arenas)
  }

  /** The bytes a caller may use at a live address. */
  ghost function Capacity(arenas: map<nat, Arena>, a: nat): int
    requires PageOf(a) in arenas
  {
    match arenas[PageOf(a)]
    case Small(d, _) => BlockSize(d)
    case Big(n) => n * PGSIZE - HEADER
  }

  // ---------------------------------------------------------------- what consistency means for callers

  /** A live block lies behind the header of its own arena and inside its pages. */
  lemma LiveInside(free: seq<seq<nat>>, arenas: map<nat, Arena>, live: set<nat>, a: nat)
    requires Books(free, arenas, live) && a in live
    ensures var p := PageOf(a);
            p in arenas && Payload(p) <= a && a + Capacity(arenas, a) <= (p + Pages(arenas[p])) * PGSIZE
  {
    var p := PageOf(a);
    assert ArenaOk(free, arenas, live, p);
    match arenas[p]
    case Small(d, _) =>
      var i :| 0 <= i < BlocksPerArena(d) && a == BlockAt(p, d, i);
      BlockBounds(p, d, i);
    case Big(n) =>
  }

  /** Live blocks never overlap. */
  lemma LiveApart(free: seq<seq<nat>>, arenas: map<nat, Arena>, live: set<nat>, a: nat, b: nat)
    requires Books(free, arenas, live) && a in live && b in live && a < b
    ensures PageOf(a) in arenas && a + Capacity(arenas, a) <= b
  {
    var p, q := PageOf(a), PageOf(b);
    LiveInside(free, arenas, live, a);
    LiveInside(free, arenas, live, b);
    if p == q {
      match arenas[p]
      case Small(d, _) =>
        var i :| 0 <= i < BlocksPerArena(d) && a == BlockAt(p, d, i);
        var j :| 0 <= j < BlocksPerArena(d) && b == BlockAt(p, d, j);
        InOrder(p, d, i, j);
        BlocksApart(p, d, i, j);
      case Big(_) =>
    } else {
      PagesApart(p, Pages(arenas[p]), q);
    }
  }

  lemma InOrder(p: nat, d: nat, i: nat, j: nat)
    requires BlockAt(p, d, i) < BlockAt(p, d, j)
    ensures i < j
  {
    if j <= i {
      Mono(j, i, BlockSize(d));
    }
  }

  lemma PagesApart(p: nat, n: nat, q: nat)
    requires p + n <= q
    ensures (p + n) * PGSIZE <= q * PGSIZE
  {
  }

  /** No live block overlaps any arena's header. */
  lemma HeadersSafe(free: seq<seq<nat>>, arenas: map<nat, Arena>, live: set<nat>, a: nat, q: nat)
    requires Books(free, arenas, live) && a in live && q in arenas
    ensures PageOf(a) in arenas
    ensures a + Capacity(arenas, a) <= q * PGSIZE || Payload(q) <= a
  {
    LiveInside(free, arenas, live, a);
    var p := PageOf(a);
    if p < q {
      PagesApart(p, Pages(arenas[p]), q);
    } else if q < p {
      PagesApart(q, 1, p);
    }
  }

  /** The free list of a size class is exactly the non-live blocks of its arenas. */
  lemma FreeIsNotLive(free: seq<seq<nat>>, arenas: map<nat, Arena>, live: set<nat>, d: nat, a: nat)
    requires Books(free, arenas, live) && d < DESC_CNT
    ensures a in free[d] <==>
            PageOf(a) in arenas && arenas[PageOf(a)].Small? && arenas[PageOf(a)].desc == d && IsBlock(a, d) && a !in live
  {
    if PageOf(a) in arenas && arenas[PageOf(a)].Small? && arenas[PageOf(a)].desc == d && IsBlock(a, d) {
      assert ArenaOk(free, arenas, live, PageOf(a));
      var i :| 0 <= i < BlocksPerArena(d) && a == BlockAt(PageOf(a), d, i);
    }
  }

  /** A free block, whose list element lies inside it, overlaps no live block. */
  lemma FreeApart(free: seq<seq<nat>>, arenas: map<nat, Arena>, live: set<nat>, d: nat, b: nat, a: nat)
    requires Books(free, arenas, live) && d < DESC_CNT && b in free[d] && a in live
    ensures PageOf(a) in arenas && (a + Capacity(arenas, a) <= b || b + BlockSize(d) <= a)
  {
    LiveInside(free, arenas, live, a);
    FreeIsNotLive(free, arenas, live, d, b);
    var p, q := PageOf(a), PageOf(b);
    var i: nat :| 0 <= i < BlocksPerArena(d) && b == BlockAt(q, d, i);
    BlockBounds(q, d, i);
    if p == q {
      assert LiveAt(free, arenas[p], a);
      var j: nat :| 0 <= j < BlocksPerArena(d) && a == BlockAt(p, d, j);
      if i < j {
        BlocksApart(p, d, i, j);
      } else {
        assert j != i;
        BlocksApart(p, d, j, i);
      }
    } else if p < q {
      PagesApart(p, Pages(arenas[p]), q);
    } else {
      PagesApart(q, 1, p);
    }
  }

  // ---------------------------------------------------------------- updates of the books

  lemma BlockIndex(p: nat, d: nat, i: nat, j: nat)
    requires BlockAt(p, d, i) == BlockAt(p, d, j)
    ensures i == j
  {
    if i < j {
      BlocksApart(p, d, i, j);
    } else if j < i {
      BlocksApart(p, d, j, i);
    }
  }

  /** Putting block a on the free list, or taking it off, changes the count of its own arena only. */
  lemma SlotsChange(free: seq<nat>, free': seq<nat>, a: nat, p: nat, d: nat)
    requires d < DESC_CNT && a !in free
    requires forall x :: x in free' <==> x in free || x == a
    ensures PageOf(a) != p ==> FreeSlots(free', p, d) == FreeSlots(free, p, d)
    ensures PageOf(a) == p && IsBlock(a, d) ==> |FreeSlots(free', p, d)| == |FreeSlots(free, p, d)| + 1
  {
    var s, s' := FreeSlots(free, p, d), FreeSlots(free', p, d);
    if PageOf(a) != p {
      forall i | 0 <= i < BlocksPerArena(d) ensures BlockAt(p, d, i) != a {
        BlockBounds(p, d, i);
      }
      assert s == s';
    } else if IsBlock(a, d) {
      var k: nat :| 0 <= k < BlocksPerArena(d) && a == BlockAt(p, d, k);
      forall i: nat | i in s' ensures i in s || i == k {
        if BlockAt(p, d, i) == a {
          BlockIndex(p, d, i, k);
        }
      }
      assert s' == s + {k};
    }
  }

  /** Replacing one free list and one counter. */
  lemma FreeListsUpdate(free: seq<seq<nat>>, arenas: map<nat, Arena>, d: nat, list: seq<nat>, p: nat, c: nat)
    requires FreeListsOk(free, arenas) && d < DESC_CNT && p in arenas && arenas[p].Small? && arenas[p].desc == d
    requires NoDup(list)
    requires forall a | a in list :: a in free[d] || (PageOf(a) == p && IsBlock(a, d))
    ensures FreeListsOk(free[d := list], arenas[p := Small(d, c)])
  {
  }

  lemma LiveUpdate(free: seq<seq<nat>>, arenas: map<nat, Arena>, live: set<nat>, d: nat, list: seq<nat>, p: nat, c: nat, live': set<nat>)
    requires FreeListsOk(free, arenas) && LiveOk(free, arenas, live)
    requires d < DESC_CNT && p in arenas && arenas[p].Small? && arenas[p].desc == d
    requires forall a | a in live' :: a !in list && (a in live || (PageOf(a) == p && IsBlock(a, d)))
    ensures LiveOk(free[d := list], arenas[p := Small(d, c)], live')
  {
    forall a | a in live' ensures PageOf(a) in arenas && LiveAt(free[d := list], arenas[p := Small(d, c)][PageOf(a)], a) {
      if a in live {
        assert LiveAt(free, arenas[PageOf(a)], a);
      }
    }
  }

  lemma DisjointUpdate(arenas: map<nat, Arena>, p: nat, d: nat, c: nat)
    requires Disjoint(arenas) && p in arenas && arenas[p].Small?
    ensures Disjoint(arenas[p := Small(d, c)])
  {
  }

  /** malloc's last lines: the front block of a nonempty free list becomes live. */
  lemma PopBlock(free: seq<seq<nat>>, arenas: map<nat, Arena>, live: set<nat>, d: nat)
    requires Books(free, arenas, live) && d < DESC_CNT && free[d] != []
    ensures var b := free[d][0]; var p := PageOf(b);
            && b !in live && p in arenas && arenas[p].Small? && arenas[p].desc == d && arenas[p].freeCnt >= 1
            && Books(free[d := free[d][1..]], arenas[p := Small(d, arenas[p].freeCnt - 1)], live + {b})
  {
    var b, rest := free[d][0], free[d][1..];
    var p := PageOf(b);
    assert b in free[d];
    FreeIsNotLive(free, arenas, live, d, b);
    assert free[d] == [b] + rest && b !in rest && NoDup(rest);
    SlotsChange(rest, free[d], b, p, d);
    assert ArenaOk(free, arenas, live, p);
    var c := arenas[p].freeCnt - 1;
    FreeListsUpdate(free, arenas, d, rest, p, c);
    forall a | a in live + {b} ensures a !in rest {
      if a in live {
        FreeIsNotLive(free, arenas, live, d, a);
      }
    }
    LiveUpdate(free, arenas, live, d, rest, p, c, live + {b});
    DisjointUpdate(arenas, p, d, c);
    forall q | q in arenas ensures ArenaOk(free[d := rest], arenas[p := Small(d, c)], live + {b}, q) {
      PopArena(free, arenas, live, d, b, rest, c, q);
    }
  }

  lemma PopArena(free: seq<seq<nat>>, arenas: map<nat, Arena>, live: set<nat>, d: nat, b: nat, rest: seq<nat>, c: nat, q: nat)
    requires Books(free, arenas, live) && d < DESC_CNT && free[d] == [b] + rest && b !in rest && IsBlock(b, d)
    requires PageOf(b) in arenas && arenas[PageOf(b)] == Small(d, c + 1) && q in arenas
    ensures ArenaOk(free[d := rest], arenas[PageOf(b) := Small(d, c)], live + {b}, q)
  {
    assert ArenaOk(free, arenas, live, q);
    SlotsChange(rest, free[d], b, q, d);
  }

  /** free's first lines: a live small block goes to the front of its free list. */
  lemma PushBlock(free: seq<seq<nat>>, arenas: map<nat, Arena>, live: set<nat>, a: nat)
    requires Books(free, arenas, live) && a in live && PageOf(a) in arenas && arenas[PageOf(a)].Small?
    ensures var p := PageOf(a); var d := arenas[p].desc;
            && d < DESC_CNT
            && Books(free[d := [a] + free[d]], arenas[p := Small(d, arenas[p].freeCnt + 1)], live - {a})
  {
    var p := PageOf(a);
    var d, c := arenas[p].desc, arenas[p].freeCnt + 1;
    assert LiveAt(free, arenas[p], a);
    var longer := [a] + free[d];
    assert NoDup(longer);
    FreeListsUpdate(free, arenas, d, longer, p, c);
    forall x | x in live - {a} ensures x !in longer {
      FreeIsNotLive(free, arenas, live, d, x);
    }
    LiveUpdate(free, arenas, live, d, longer, p, c, live - {a});
    DisjointUpdate(arenas, p, d, c);
    forall q | q in arenas ensures ArenaOk(free[d := longer], arenas[p := Small(d, c)], live - {a}, q) {
      PushArena(free, arenas, live, d, a, q);
    }
  }

  lemma PushArena(free: seq<seq<nat>>, arenas: map<nat, Arena>, live: set<nat>, d: nat, a: nat, q: nat)
    requires Books(free, arenas, live) && d < DESC_CNT && a !in free[d] && IsBlock(a, d) && q in arenas
    requires PageOf(a) in arenas && arenas[PageOf(a)].Small? && arenas[PageOf(a)].desc == d
    ensures ArenaOk(free[d := [a] + free[d]], arenas[PageOf(a) := Small(d, arenas[PageOf(a)].freeCnt + 1)], live - {a}, q)
  {
    assert ArenaOk(free, arenas, live, q);
    var longer := [a] + free[d];
    SlotsChange(free[d], longer, a, q, d);
    SlotsBounded(longer, q, d);
    if arenas[q].Small? && q != PageOf(a) {
      forall i | 0 <= i < BlocksPerArena(arenas[q].desc) ensures BlockAt(q, arenas[q].desc, i) != a {
        BlockBounds(q, arenas[q].desc, i);
      }
    }
  }

  lemma SlotsBounded(free: seq<nat>, p: nat, d: nat)
    ensures |FreeSlots(free, p, d)| <= BlocksPerArena(d)
  {
    Below(FreeSlots(free, p, d), BlocksPerArena(d));
  }

  lemma {:induction false} Below(s: set<nat>, n: nat)
    requires forall i | i in s :: i < n
    ensures |s| <= n
  {
    if n > 0 {
      Below(s - {n - 1}, n - 1);
      if n - 1 in s {
        assert |s| == |s - {n - 1}| + 1;
      } else {
        assert s == s - {n - 1};
      }
    } else {
      assert s == {};
    }
  }

  /** A set of n naturals below n contains them all. */
  lemma {:induction false} Full(s: set<nat>, n: nat, k: nat)
    requires (forall i | i in s :: i < n) && |s| == n && k < n
    ensures k in s
  {
    if k !in s {
      Squeeze(s, n, k);
    }
  }

  lemma Squeeze(s: set<nat>, n: nat, k: nat)
    requires (forall i | i in s :: i < n) && k < n && k !in s
    ensures |s| < n
  {
    Below(s + {k}, n);
    assert |s + {k}| == |s| + 1;
  }

  /** Pages p .. p + n - 1 belong to no arena. */
  ghost predicate Unused(arenas: map<nat, Arena>, p: nat, n: nat) {
    forall q | q in arenas :: q + Pages(arenas[q]) <= p || p + n <= q
  }

  ghost function Blocks(p: nat, d: nat, n: nat): (r: seq<nat>)
    ensures |r| == n && forall i | 0 <= i < n :: r[i] == BlockAt(p, d, i)
  {
    seq(n, i requires 0 <= i < n => BlockAt(p, d, i))
  }

  lemma BlocksSpec(p: nat, d: nat)
    requires d < DESC_CNT
    ensures var b := Blocks(p, d, BlocksPerArena(d));
            && NoDup(b)
            && forall a | a in b :: PageOf(a) == p && IsBlock(a, d)
  {
    var n := BlocksPerArena(d);
    var b := Blocks(p, d, n);
    forall i, j | 0 <= i < j < n ensures b[i] != b[j] {
      BlocksApart(p, d, i, j);
    }
    forall a | a in b ensures PageOf(a) == p && IsBlock(a, d) {
      var i :| 0 <= i < n && b[i] == a;
      BlockBounds(p, d, i);
    }
  }

  /** malloc with an empty free list: a new arena whose blocks are all free. */
  lemma AddArena(free: seq<seq<nat>>, arenas: map<nat, Arena>, live: set<nat>, p: nat, d: nat)
    requires Books(free, arenas, live) && d < DESC_CNT && free[d] == [] && Unused(arenas, p, 1) && p !in arenas
    ensures var n := BlocksPerArena(d);
            Books(free[d := Blocks(p, d, n)], arenas[p := Small(d, n)], live)
  {
    var n := BlocksPerArena(d);
    var b := Blocks(p, d, n);
    BlocksSpec(p, d);
    var free', arenas' := free[d := b], arenas[p := Small(d, n)];
    forall a | a in live ensures PageOf(a) in arenas' && LiveAt(free', arenas'[PageOf(a)], a) {
      assert LiveAt(free, arenas[PageOf(a)], a);
    }
    forall q | q in arenas' ensures ArenaOk(free', arenas', live, q) {
      if q == p {
        AllFree(p, d);
      } else {
        assert ArenaOk(free, arenas, live, q);
        OtherSlots(b, p, q, d);
      }
    }
  }

  lemma AllFree(p: nat, d: nat)
    ensures var b := Blocks(p, d, BlocksPerArena(d));
            |FreeSlots(b, p, d)| == BlocksPerArena(d) && AllAccounted(b, {}, p, d)
  {
    var n := BlocksPerArena(d);
    var b := Blocks(p, d, n);
    assert forall i | 0 <= i < n :: b[i] == BlockAt(p, d, i);
    var s := FreeSlots(b, p, d);
    assert forall i: nat | i < n :: i in s;
    CountAll(s, n);
  }

  lemma {:induction false} CountAll(s: set<nat>, n: nat)
    requires (forall i | i in s :: i < n) && forall i: nat | i < n :: i in s
    ensures |s| == n
  {
    if n == 0 {
      assert s == {};
    } else {
      CountAll(s - {n - 1}, n - 1);
    }
  }

  lemma OtherSlots(b: seq<nat>, p: nat, q: nat, d: nat)
    requires d < DESC_CNT && p != q && forall a | a in b :: PageOf(a) == p
    ensures FreeSlots(b, q, d) == {}
  {
    forall i | 0 <= i < BlocksPerArena(d) ensures BlockAt(q, d, i) !in b {
      BlockBounds(q, d, i);
    }
  }

  /** free's last lines: a wholly free arena has no live block, and giving its page back keeps the books. */
  lemma DropArena(free: seq<seq<nat>>, arenas: map<nat, Arena>, live: set<nat>, p: nat, d: nat, list: seq<nat>)
    requires Books(free, arenas, live) && p in arenas && arenas[p] == Small(d, BlocksPerArena(d))
    requires d < DESC_CNT && NoDup(list) && forall x :: x in list <==> x in free[d] && PageOf(x) != p
    ensures forall a | a in live :: PageOf(a) != p
    ensures Books(free[d := list], arenas - {p}, live)
  {
    assert ArenaOk(free, arenas, live, p);
    forall a | a in live ensures PageOf(a) != p {
      if PageOf(a) == p {
        WhollyFree(free, arenas, live, p, d, a);
      }
    }
    var free', arenas' := free[d := list], arenas - {p};
    forall a | a in live ensures PageOf(a) in arenas' && LiveAt(free', arenas'[PageOf(a)], a) {
      assert LiveAt(free, arenas[PageOf(a)], a);
    }
    forall q | q in arenas' ensures ArenaOk(free', arenas', live, q) {
      assert ArenaOk(free, arenas, live, q);
      if arenas[q].Small? && arenas[q].desc == d {
        SameSlots(free[d], list, p, q, d);
      }
    }
  }

  lemma WhollyFree(free: seq<seq<nat>>, arenas: map<nat, Arena>, live: set<nat>, p: nat, d: nat, a: nat)
    requires Books(free, arenas, live) && p in arenas && arenas[p] == Small(d, BlocksPerArena(d)) && PageOf(a) == p
    ensures a !in live
  {
    if a in live {
      assert LiveAt(free, arenas[p], a) && ArenaOk(free, arenas, live, p);
      var k: nat :| 0 <= k < BlocksPerArena(d) && a == BlockAt(p, d, k);
      Full(FreeSlots(free[d], p, d), BlocksPerArena(d), k);
    }
  }

  lemma SameSlots(free: seq<nat>, list: seq<nat>, p: nat, q: nat, d: nat)
    requires d < DESC_CNT && p != q && forall x :: x in list <==> x in free && PageOf(x) != p
    ensures FreeSlots(list, q, d) == FreeSlots(free, q, d)
    ensures forall i | 0 <= i < BlocksPerArena(d) :: BlockAt(q, d, i) in list <==> BlockAt(q, d, i) in free
  {
    forall i | 0 <= i < BlocksPerArena(d) ensures BlockAt(q, d, i) in list <==> BlockAt(q, d, i) in free {
      BlockBounds(q, d, i);
    }
  }

  lemma AddBig(free: seq<seq<nat>>, arenas: map<nat, Arena>, live: set<nat>, p: nat, n: nat)
    requires Books(free, arenas, live) && n >= 1 && Unused(arenas, p, n) && p !in arenas
    ensures Payload(p) !in live
    ensures Books(free, arenas[p := Big(n)], live + {Payload(p)})
  {
    var a, arenas' := Payload(p), arenas[p := Big(n)];
    forall x | x in live + {a} ensures PageOf(x) in arenas' && LiveAt(free, arenas'[PageOf(x)], x) {
      if x in live {
        assert LiveAt(free, arenas[PageOf(x)], x);
      }
    }
    forall q | q in arenas' ensures ArenaOk(free, arenas', live + {a}, q) {
      if q != p {
        assert ArenaOk(free, arenas, live, q);
      }
    }
  }

  lemma DropBig(free: seq<seq<nat>>, arenas: map<nat, Arena>, live: set<nat>, a: nat)
    requires Books(free, arenas, live) && a in live && PageOf(a) in arenas && arenas[PageOf(a)].Big?
    ensures Books(free, arenas - {PageOf(a)}, live - {a})
  {
    var p := PageOf(a);
    assert LiveAt(free, arenas[p], a);
    DropBigFree(free, arenas, p);
    forall x | x in live - {a} ensures PageOf(x) in arenas - {p} && LiveAt(free, (arenas - {p})[PageOf(x)], x) {
      OtherLive(free, arenas, live, a, x);
    }
    forall q | q in arenas - {p} ensures ArenaOk(free, arenas - {p}, live - {a}, q) {
      DropBigArena(free, arenas, live, a, q);
    }
  }

  lemma DropBigFree(free: seq<seq<nat>>, arenas: map<nat, Arena>, p: nat)
    requires FreeListsOk(free, arenas) && p in arenas && arenas[p].Big?
    ensures FreeListsOk(free, arenas - {p})
  {
    forall d, x | 0 <= d < DESC_CNT && x in free[d] ensures PageOf(x) != p {
      assert arenas[PageOf(x)].Small?;
    }
  }

  lemma OtherLive(free: seq<seq<nat>>, arenas: map<nat, Arena>, live: set<nat>, a: nat, x: nat)
    requires |free| == DESC_CNT && LiveOk(free, arenas, live)
    requires a in live && PageOf(a) in arenas && arenas[PageOf(a)].Big? && x in live && x != a
    ensures PageOf(x) != PageOf(a) && PageOf(x) in arenas && LiveAt(free, arenas[PageOf(x)], x)
  {
    assert LiveAt(free, arenas[PageOf(a)], a);
    assert LiveAt(free, arenas[PageOf(x)], x);
  }

  lemma DropBigArena(free: seq<seq<nat>>, arenas: map<nat, Arena>, live: set<nat>, a: nat, q: nat)
    requires Books(free, arenas, live) && q in arenas && q != PageOf(a)
    ensures ArenaOk(free, arenas - {PageOf(a)}, live - {a}, q)
  {
    assert ArenaOk(free, arenas, live, q);
    if arenas[q].Small? {
      forall i | 0 <= i < BlocksPerArena(arenas[q].desc) ensures BlockAt(q, arenas[q].desc, i) != a {
        BlockBounds(q, arenas[q].desc, i);
      }
    }
  }

  // ---------------------------------------------------------------- malloc and free

  /** The smallest size class that holds the request, or DESC_CNT. */
  function ClassOf(size: nat, d: nat := 0): (c: nat)
    requires d <= DESC_CNT
    ensures d <= c <= DESC_CNT
    ensures c < DESC_CNT ==> BlockSize(c) >= size
    ensures forall k | d <= k < c :: BlockSize(k) < size
    decreases DESC_CNT - d
  {
    if d == DESC_CNT || BlockSize(d) >= size then d else ClassOf(size, d + 1)
  }

  /** DIV_ROUND_UP (size + sizeof *a, PGSIZE) in 32-bit arithmetic. */
  function BigPages(size: nat): nat {
    ((size + HEADER) % SIZE_LIMIT + PGSIZE - 1) % SIZE_LIMIT / PGSIZE
  }

  /** How many pages a call asks the page allocator for, if it asks at all. */
  function PagesWanted(size: nat): nat {
    if ClassOf(size) < DESC_CNT then 1 else BigPages(size)
  }

  /** When pages are granted, they hold the request exactly if adding the header does not wrap, and then there
      are no more of them than needed. */
  lemma BigPagesEnough(size: nat)
    requires size < SIZE_LIMIT && BigPages(size) >= 1
    ensures BigPages(size) * PGSIZE - HEADER >= size <==> size + HEADER < SIZE_LIMIT
    ensures size + HEADER < SIZE_LIMIT ==> (BigPages(size) - 1) * PGSIZE - HEADER < size
  {
  }

  /** No pages are asked for exactly if the sum wraps to zero or rounding it up does. */
  lemma BigPagesNone(size: nat)
    requires size < SIZE_LIMIT
    ensures BigPages(size) == 0 <==> size + HEADER == SIZE_LIMIT || SIZE_LIMIT - PGSIZE < size + HEADER < SIZE_LIMIT
  {
  }

  /** Asking for all of memory but one byte is granted with a single page. */
  lemma WrappedRequest()
    ensures BigPages(0xFFFF_FFFF) == 1 && BigPages(0xFFFF_FFFF) * PGSIZE - HEADER < 0xFFFF_FFFF
  {
  }

  /** What the page allocator may answer: nothing, or a run of unused pages. */
  ghost predicate GrantOk(arenas: map<nat, Arena>, grant: Option<nat>, n: nat) {
    grant.Some? ==> Unused(arenas, grant.value, n)
  }

  lemma UnusedIsNew(arenas: map<nat, Arena>, p: nat, n: nat)
    requires Unused(arenas, p, n) && n >= 1 && forall q | q in arenas :: Pages(arenas[q]) >= 1
    ensures p !in arenas
  {
  }

  lemma LiveHasArena(free: seq<seq<nat>>, arenas: map<nat, Arena>, live: set<nat>)
    requires Books(free, arenas, live)
    ensures forall a | a in live :: PageOf(a) in arenas
  {
  }

  lemma PagesPositive(free: seq<seq<nat>>, arenas: map<nat, Arena>, live: set<nat>)
    requires Books(free, arenas, live)
    ensures forall q | q in arenas :: Pages(arenas[q]) >= 1
  {
    forall q | q in arenas ensures Pages(arenas[q]) >= 1 {
      assert ArenaOk(free, arenas, live, q);
    }
  }

  lemma SmallClass(size: nat, d: nat)
    requires 0 < size && d < DESC_CNT && BlockSize(d) >= size
    ensures size + HEADER < SIZE_LIMIT
  {
    Sizes();
    assert d == 0 || d == 1 || d == 2 || d == 3 || d == 4 || d == 5 || d == 6;
  }

  /** Everything about the new state after a big allocation. */
  lemma BigCase(free: seq<seq<nat>>, arenas: map<nat, Arena>, live: set<nat>, p: nat, n: nat)
    requires Consistent(free, arenas, live) && n >= 1 && Unused(arenas, p, n)
    ensures p !in arenas && Payload(p) !in live
    ensures Consistent(free, arenas[p := Big(n)], live + {Payload(p)})
  {
    PagesPositive(free, arenas, live);
    UnusedIsNew(arenas, p, n);
    AddBig(free, arenas, live, p, n);
  }

  /** Everything about the new state after a block is taken off a free list. */
  lemma PopCase(free: seq<seq<nat>>, arenas: map<nat, Arena>, live: set<nat>, d: nat, arenas0: map<nat, Arena>)
    requires Books(free, arenas, live) && d < DESC_CNT && free[d] != [] && NoneIdle(arenas0)
    requires arenas == arenas0 || (PageOf(free[d][0]) in arenas && arenas == arenas0[PageOf(free[d][0]) := Small(d, BlocksPerArena(d))])
    ensures var b := free[d][0]; var p := PageOf(b);
            && b !in live && p in arenas && arenas[p].Small? && arenas[p].desc == d && arenas[p].freeCnt >= 1
            && Consistent(free[d := free[d][1..]], arenas[p := arenas[p].(freeCnt := arenas[p].freeCnt - 1)], live + {b})
  {
    PopBlock(free, arenas, live, d);
    var p := PageOf(free[d][0]);
    assert ArenaOk(free, arenas, live, p);
  }

  lemma ArenaNotEmpty(d: nat)
    requires d < DESC_CNT
    ensures BlocksPerArena(d) >= 3
  {
    Sizes();
    assert d == 0 || d == 1 || d == 2 || d == 3 || d == 4 || d == 5 || d == 6;
  }

  /** The list after the first n blocks of arena p have been removed from it. */
  ghost predicate Without(list0: seq<nat>, list: seq<nat>, p: nat, d: nat, n: nat) {
    NoDup(list) && forall x :: x in list <==> x in list0 && !Among(x, p, d, n)
  }

  ghost predicate Among(x: nat, p: nat, d: nat, n: nat) {
    exists i :: 0 <= i < n && x == BlockAt(p, d, i)
  }

  lemma AmongNext(x: nat, p: nat, d: nat, n: nat)
    ensures Among(x, p, d, n + 1) <==> Among(x, p, d, n) || x == BlockAt(p, d, n)
  {
    if Among(x, p, d, n) {
      var i :| 0 <= i < n && x == BlockAt(p, d, i);
      assert 0 <= i < n + 1;
    }
  }

  /** Every block of a wholly free arena is on the list until it is removed. */
  lemma NextThere(free: seq<seq<nat>>, arenas: map<nat, Arena>, live: set<nat>, list: seq<nat>, p: nat, d: nat, n: nat)
    requires Books(free, arenas, live) && p in arenas && arenas[p] == Small(d, BlocksPerArena(d)) && d < DESC_CNT
    requires n < BlocksPerArena(d) && Without(free[d], list, p, d, n)
    ensures BlockAt(p, d, n) in list
  {
    assert ArenaOk(free, arenas, live, p);
    Full(FreeSlots(free[d], p, d), BlocksPerArena(d), n);
    forall i | 0 <= i < n ensures BlockAt(p, d, i) != BlockAt(p, d, n) {
      BlocksApart(p, d, i, n);
    }
  }

  lemma WithoutNext(list0: seq<nat>, list: seq<nat>, p: nat, d: nat, n: nat, k: nat)
    requires Without(list0, list, p, d, n) && k < |list| && list[k] == BlockAt(p, d, n)
    ensures Without(list0, list[..k] + list[k + 1..], p, d, n + 1)
  {
    RemoveAt(list, k);
    var list' := list[..k] + list[k + 1..];
    forall x ensures x in list' <==> x in list0 && !Among(x, p, d, n + 1) {
      AmongNext(x, p, d, n);
    }
  }

  lemma WithoutAll(free: seq<seq<nat>>, arenas: map<nat, Arena>, list0: seq<nat>, list: seq<nat>, p: nat, d: nat)
    requires FreeListsOk(free, arenas) && d < DESC_CNT && list0 == free[d]
    requires Without(list0, list, p, d, BlocksPerArena(d))
    ensures forall x :: x in list <==> x in list0 && PageOf(x) != p
  {
    forall x | x in list0
      ensures PageOf(x) == p <==> Among(x, p, d, BlocksPerArena(d))
    {
      assert IsBlock(x, d);
      if i :| 0 <= i < BlocksPerArena(d) && x == BlockAt(p, d, i) {
        BlockBounds(p, d, i);
      }
    }
  }

  /** An arena that is not wholly free has a live block. */
  lemma StillUsed(free: seq<seq<nat>>, arenas: map<nat, Arena>, live: set<nat>, p: nat, d: nat)
    requires Books(free, arenas, live) && p in arenas && arenas[p].Small? && arenas[p].desc == d
    requires arenas[p].freeCnt < BlocksPerArena(d)
    ensures exists a :: a in live && PageOf(a) == p
  {
    assert ArenaOk(free, arenas, live, p);
    var n := BlocksPerArena(d);
    var s := FreeSlots(free[d], p, d);
    if forall i: nat | i < n :: i in s {
      CountAll(s, n);
    } else {
      var i: nat :| i < n && i !in s;
      BlockBounds(p, d, i);
      assert BlockAt(p, d, i) in live;
    }
  }

  lemma OthersApart(free: seq<seq<nat>>, arenas: map<nat, Arena>, live: set<nat>, a: nat)
    requires Books(free, arenas, live) && a in live
    ensures forall x | x in live :: PageOf(x) in arenas
    ensures forall x | x in live && x != a :: a + Capacity(arenas, a) <= x || x + Capacity(arenas, x) <= a
  {
    LiveHasArena(free, arenas, live);
    forall x | x in live && x != a ensures a + Capacity(arenas, a) <= x || x + Capacity(arenas, x) <= a {
      if a < x {
        LiveApart(free, arenas, live, a, x);
      } else {
        LiveApart(free, arenas, live, x, a);
      }
    }
  }

  function IndexOf(list: seq<nat>, x: nat): (k: nat)
    requires x in list
    ensures k < |list| && list[k] == x
  {
    if list[0] == x then 0 else IndexOf(list[1..], x) + 1
  }

  /** n bytes at address b in the new memory are those that were at address a. */
  ghost predicate SameBytes(mem: nat -> int, mem': nat -> int, a: nat, b: nat, n: int) {
    forall x: nat | b <= x < b + n :: mem'(x) == mem(x - b + a)
  }

  /** The blocks stay where they are, as large as they are, and keep their bytes. */
  ghost predicate Kept(arenas: map<nat, Arena>, mem: nat -> int, arenas': map<nat, Arena>, mem': nat -> int, blocks: set<nat>) {
    forall a | a in blocks ::
      && PageOf(a) in arenas && PageOf(a) in arenas'
      && Capacity(arenas', a) == Capacity(arenas, a)
      && SameBytes(mem, mem', a, a, Capacity(arenas, a))
  }

  lemma CopyKeeps(arenas: map<nat, Arena>, mem: nat -> int, src: nat, dst: nat, n: nat, blocks: set<nat>)
    requires PageOf(dst) in arenas && n <= Capacity(arenas, dst)
    requires forall x | x in blocks ::
               PageOf(x) in arenas && (dst + Capacity(arenas, dst) <= x || x + Capacity(arenas, x) <= dst)
    ensures Kept(arenas, mem, arenas, Copied(mem, src, dst, n), blocks)
    ensures SameBytes(mem, Copied(mem, src, dst, n), src, dst, n)
  {
  }

  lemma KeptTrans(a0: map<nat, Arena>, m0: nat -> int, a1: map<nat, Arena>, m1: nat -> int,
                  a2: map<nat, Arena>, m2: nat -> int, blocks: set<nat>)
    requires Kept(a0, m0, a1, m1, blocks) && Kept(a1, m1, a2, m2, blocks)
    ensures Kept(a0, m0, a2, m2, blocks)
  {
    forall a | a in blocks ensures SameBytes(m0, m2, a, a, Capacity(a0, a)) {
      assert SameBytes(m0, m1, a, a, Capacity(a0, a)) && SameBytes(m1, m2, a, a, Capacity(a1, a));
    }
  }

  lemma KeptSubset(arenas: map<nat, Arena>, mem: nat -> int, arenas': map<nat, Arena>, mem': nat -> int, blocks: set<nat>, fewer: set<nat>)
    requires Kept(arenas, mem, arenas', mem', blocks) && fewer <= blocks
    ensures Kept(arenas, mem, arenas', mem', fewer)
  {
  }

  lemma MovedThenKept(m0: nat -> int, m1: nat -> int, m2: nat -> int, src: nat, dst: nat, n: nat, cap: int)
    requires SameBytes(m0, m1, src, dst, n) && SameBytes(m1, m2, dst, dst, cap) && n <= cap
    ensures SameBytes(m0, m2, src, dst, n)
  {
    forall x: nat | dst <= x < dst + n ensures m2(x) == m0(x - dst + src) {
      assert m2(x) == m1(x);
    }
  }

  /** memset. */
  function Filled(mem: nat -> int, a: nat, n: nat, v: int): nat -> int {
    (x: nat) => if a <= x < a + n then v else mem(x)
  }

  /** memcpy. */
  function Copied(mem: nat -> int, src: nat, dst: nat, n: nat): nat -> int {
    (x: nat) => if dst <= x < dst + n then mem(src + (x - dst)) else mem(x)
  }

  class Heap {
    var free: seq<seq<nat>>
    var arenas: map<nat, Arena>
    /** The bytes in memory, as far as callers and the allocator's block operations write them. */
    var mem: nat -> int
    ghost var live: set<nat>

    ghost predicate Valid()
      reads this
    {
      Consistent(free, arenas, live)
    }

    constructor ()
      ensures Valid() && live == {} && arenas == map[]
    {
      free, arenas, live := seq(DESC_CNT, _ => []), map[], {};
      mem := _ => 0;
    }

    twostate predicate Undisturbed(blocks: set<nat>)
      reads this
    {
      Kept(old(arenas), old(mem), arenas, mem, blocks)
    }

    /** A new block for a request of `size` bytes; `grant` is what the page allocator answers if it is
        asked.  The block is at least as large as the request unless adding the header to the size
        wraps around. */
    method Malloc(size: nat, grant: Option<nat>) returns (r: Option<nat>)
      requires Valid() && size < SIZE_LIMIT && GrantOk(arenas, grant, PagesWanted(size))
      modifies this
      ensures Valid()
      ensures mem == old(mem)
      ensures r.None? ==> live == old(live) && arenas == old(arenas) && free == old(free)
      ensures r.None? <==> size == 0 || (if ClassOf(size) < DESC_CNT then old(free)[ClassOf(size)] == [] && grant.None?
                                         else BigPages(size) == 0 || grant.None?)
      ensures r.Some? ==> r.value !in old(live) && live == old(live) + {r.value} && PageOf(r.value) in arenas
                          && (Capacity(arenas, r.value) >= size <==> size + HEADER < SIZE_LIMIT)
                          && Capacity(arenas, r.value) == (if ClassOf(size) < DESC_CNT then BlockSize(ClassOf(size))
                                                           else BigPages(size) * PGSIZE - HEADER)
      ensures Undisturbed(old(live))
    {
      LiveHasArena(free, arenas, live);
      if size == 0 {
        return None;
      }
      var d := 0;
      while d < DESC_CNT && BlockSize(d) < size
        invariant d <= DESC_CNT && ClassOf(size, d) == ClassOf(size)
      {
        d := d + 1;
      }
      if d == DESC_CNT {
        r := MallocBig(size, grant);
      } else {
        r := MallocSmall(d, grant);
        SmallClass(size, d);
      }
    }

    method MallocBig(size: nat, grant: Option<nat>) returns (r: Option<nat>)
      requires Valid() && size < SIZE_LIMIT && GrantOk(arenas, grant, BigPages(size))
      modifies this
      ensures Valid() && free == old(free) && mem == old(mem)
      ensures r.None? ==> live == old(live) && arenas == old(arenas)
      ensures r.None? <==> BigPages(size) == 0 || grant.None?
      ensures r.Some? ==> r.value !in old(live) && live == old(live) + {r.value} && PageOf(r.value) in arenas
                          && (Capacity(arenas, r.value) >= size <==> size + HEADER < SIZE_LIMIT)
                          && Capacity(arenas, r.value) == BigPages(size) * PGSIZE - HEADER
      ensures Undisturbed(old(live))
    {
      var pageCnt := BigPages(size);
      LiveHasArena(free, arenas, live);
      if pageCnt == 0 || grant.None? {
        return None;
      }
      var p := grant.value;
      BigCase(free, arenas, live, p, pageCnt);
      BigPagesEnough(size);
      arenas := arenas[p := Big(pageCnt)];
      live := live + {Payload(p)};
      r := Some(Payload(p));
    }

    /** Makes a page an arena of class d and threads its blocks onto the free list one by one. */
    method NewArena(d: nat, p: nat)
      requires Valid() && d < DESC_CNT && free[d] == [] && Unused(arenas, p, 1)
      modifies this`free, this`arenas
      ensures p !in old(arenas) && arenas == old(arenas)[p := Small(d, BlocksPerArena(d))]
      ensures free == old(free)[d := Blocks(p, d, BlocksPerArena(d))]
      ensures Books(free, arenas, live)
    {
      PagesPositive(free, arenas, live);
      UnusedIsNew(arenas, p, 1);
      AddArena(free, arenas, live, p, d);
      ghost var free0 := free;
      arenas := arenas[p := Small(d, BlocksPerArena(d))];
      ghost var arenas1 := arenas;
      var i := 0;
      while i < BlocksPerArena(d)
        invariant i <= BlocksPerArena(d) && |free| == DESC_CNT
        invariant free == free0[d := Blocks(p, d, i)] && arenas == arenas1
      {
        free := free[d := free[d] + [BlockAt(p, d, i)]];
        i := i + 1;
        assert Blocks(p, d, i) == Blocks(p, d, i - 1) + [BlockAt(p, d, i - 1)];
      }
    }

    method MallocSmall(d: nat, grant: Option<nat>) returns (r: Option<nat>)
      requires Valid() && d < DESC_CNT && GrantOk(arenas, grant, 1)
      modifies this
      ensures Valid()
      ensures mem == old(mem)
      ensures r.None? ==> live == old(live) && arenas == old(arenas) && free == old(free)
      ensures r.None? <==> old(free)[d] == [] && grant.None?
      ensures r.Some? ==> r.value !in old(live) && live == old(live) + {r.value}
                          && PageOf(r.value) in arenas && Capacity(arenas, r.value) == BlockSize(d)
      ensures Undisturbed(old(live))
    {
      LiveHasArena(free, arenas, live);
      if free[d] == [] {
        if grant.None? {
          return None;
        }
        NewArena(d, grant.value);
        ArenaNotEmpty(d);
        BlockBounds(grant.value, d, 0);
      }
      r := PopFront(d, old(arenas));
    }

    method PopFront(d: nat, ghost arenas0: map<nat, Arena>) returns (r: Option<nat>)
      requires Books(free, arenas, live) && d < DESC_CNT && free[d] != [] && NoneIdle(arenas0)
      requires arenas == arenas0 || (PageOf(free[d][0]) in arenas && arenas == arenas0[PageOf(free[d][0]) := Small(d, BlocksPerArena(d))])
      modifies this`free, this`arenas, this`live
      ensures Valid()
      ensures r.Some? && r.value == old(free)[d][0] && r.value !in old(live) && live == old(live) + {r.value}
      ensures PageOf(r.value) in old(arenas) && old(arenas)[PageOf(r.value)].Small? && old(arenas)[PageOf(r.value)].desc == d
      ensures exists c :: arenas == old(arenas)[PageOf(r.value) := Small(d, c)]
    {
      PopCase(free, arenas, live, d, arenas0);
      var b := free[d][0];
      free := free[d := free[d][1..]];
      var p := PageOf(b);
      arenas := arenas[p := arenas[p].(freeCnt := arenas[p].freeCnt - 1)];
      live := live + {b};
      r := Some(b);
    }

    /** Freeing a null pointer does nothing; freeing a live block ends its life and disturbs no other.
        Pages go back to the page allocator only when no live block is left in them. */
    method Free(ptr: Option<nat>)
      requires Valid() && (ptr.Some? ==> ptr.value in live)
      modifies this
      ensures Valid()
      ensures live == if ptr.Some? then old(live) - {ptr.value} else old(live)
      ensures Undisturbed(live)
      ensures ptr.None? ==> arenas == old(arenas) && free == old(free) && mem == old(mem)
      ensures ptr.Some? ==> PageOf(ptr.value) in old(arenas)
                            && old(arenas).Keys - {PageOf(ptr.value)} <= arenas.Keys <= old(arenas).Keys
      ensures ptr.Some? ==> (PageOf(ptr.value) !in arenas <==> forall a | a in live :: PageOf(a) != PageOf(ptr.value))
    {
      LiveHasArena(free, arenas, live);
      if ptr.Some? {
        var a := ptr.value;
        if arenas[PageOf(a)].Big? {
          FreeBig(a);
        } else {
          FreeSmall(a);
        }
      }
    }

    method FreeBig(a: nat)
      requires Valid() && a in live && PageOf(a) in arenas && arenas[PageOf(a)].Big?
      modifies this
      ensures Valid() && live == old(live) - {a} && arenas == old(arenas) - {PageOf(a)}
      ensures Undisturbed(live)
      ensures forall x | x in live :: PageOf(x) != PageOf(a)
    {
      DropBig(free, arenas, live, a);
      arenas := arenas - {PageOf(a)};
      live := live - {a};
      LiveHasArena(free, arenas, live);
    }

    method FreeSmall(a: nat)
      requires Valid() && a in live && PageOf(a) in arenas && arenas[PageOf(a)].Small?
      modifies this
      ensures Valid() && live == old(live) - {a}
      ensures old(arenas).Keys - {PageOf(a)} <= arenas.Keys <= old(arenas).Keys
      ensures Undisturbed(live)
      ensures PageOf(a) !in arenas <==> forall x | x in live :: PageOf(x) != PageOf(a)
    {
      var p := PageOf(a);
      var d := arenas[p].desc;
      OthersApart(free, arenas, live, a);
      mem := Filled(mem, a, BlockSize(d), 0xcc);
      PushBlock(free, arenas, live, a);
      free := free[d := [a] + free[d]];
      arenas := arenas[p := Small(d, arenas[p].freeCnt + 1)];
      live := live - {a};
      LiveHasArena(free, arenas, live);
      if arenas[p].freeCnt >= BlocksPerArena(d) {
        ReturnArena(p, d);
      } else {
        StillUsed(free, arenas, live, p, d);
      }
    }

    /** Takes the blocks of a wholly free arena off their list one by one and gives the page back. */
    method ReturnArena(p: nat, d: nat)
      requires Books(free, arenas, live) && p in arenas && arenas[p].Small? && arenas[p].desc == d
      requires arenas[p].freeCnt >= BlocksPerArena(d)
      modifies this`free, this`arenas
      ensures arenas == old(arenas) - {p}
      ensures Books(free, arenas, live)
      ensures forall a | a in live :: PageOf(a) != p
    {
      assert ArenaOk(free, arenas, live, p);
      ghost var list0 := free[d];
      ghost var free0 := free;
      var i := 0;
      while i < BlocksPerArena(d)
        invariant i <= BlocksPerArena(d) && |free| == DESC_CNT && arenas == old(arenas)
        invariant free == free0[d := free[d]]
        invariant Without(list0, free[d], p, d, i)
      {
        var b := BlockAt(p, d, i);
        NextThere(free0, arenas, live, free[d], p, d, i);
        var k := IndexOf(free[d], b);
        WithoutNext(list0, free[d], p, d, i, k);
        free := free[d := free[d][..k] + free[d][k + 1..]];
        i := i + 1;
      }
      WithoutAll(free0, arenas, list0, free[d], p, d);
      DropArena(free0, arenas, live, p, d, free[d]);
      arenas := arenas - {p};
    }

    /** Resizing: a zero size frees, a null block allocates, and otherwise the old contents move to a new
        block as far as both reach, unless the request failed, which leaves everything as it was. */
    method Realloc(ptr: Option<nat>, size: nat, grant: Option<nat>) returns (r: Option<nat>)
      requires Valid() && (ptr.Some? ==> ptr.value in live)
      requires size < SIZE_LIMIT && GrantOk(arenas, grant, PagesWanted(size))
      modifies this
      ensures Valid()
      ensures size == 0 ==> r.None? && live == old(live) - Only(ptr)
      ensures size > 0 && r.None? ==> live == old(live) && arenas == old(arenas) && free == old(free) && mem == old(mem)
      ensures size > 0 ==> (r.None? <==> if ClassOf(size) < DESC_CNT then old(free)[ClassOf(size)] == [] && grant.None?
                                         else BigPages(size) == 0 || grant.None?)
      ensures r.Some? ==> r.value !in old(live) && live == old(live) - Only(ptr) + {r.value}
      ensures r.Some? && size + HEADER < SIZE_LIMIT ==>
                PageOf(r.value) in arenas && Capacity(arenas, r.value) >= size
      ensures r.Some? && ptr.Some? && size + HEADER < SIZE_LIMIT ==>
                PageOf(ptr.value) in old(arenas)
                && SameBytes(old(mem), mem, ptr.value, r.value, Min(size, old(Capacity(arenas, ptr.value))))
      ensures size + HEADER < SIZE_LIMIT ==> Undisturbed(old(live) - Only(ptr))
    {
      if size == 0 {
        Free(ptr);
        return None;
      }
      r := Resize(ptr, size, grant);
    }

    method Resize(ptr: Option<nat>, size: nat, grant: Option<nat>) returns (r: Option<nat>)
      requires Valid() && (ptr.Some? ==> ptr.value in live)
      requires 0 < size < SIZE_LIMIT && GrantOk(arenas, grant, PagesWanted(size))
      modifies this
      ensures Valid()
      ensures r.None? ==> live == old(live) && arenas == old(arenas) && free == old(free) && mem == old(mem)
      ensures r.None? <==> if ClassOf(size) < DESC_CNT then old(free)[ClassOf(size)] == [] && grant.None?
                           else BigPages(size) == 0 || grant.None?
      ensures r.Some? ==> r.value !in old(live) && live == old(live) - Only(ptr) + {r.value}
      ensures r.Some? && size + HEADER < SIZE_LIMIT ==>
                PageOf(r.value) in arenas && Capacity(arenas, r.value) >= size
      ensures r.Some? && ptr.Some? && size + HEADER < SIZE_LIMIT ==>
                PageOf(ptr.value) in old(arenas)
                && SameBytes(old(mem), mem, ptr.value, r.value, Min(size, old(Capacity(arenas, ptr.value))))
      ensures size + HEADER < SIZE_LIMIT ==> Undisturbed(old(live) - Only(ptr))
    {
      LiveHasArena(free, arenas, live);
      r := Malloc(size, grant);
      KeptSubset(old(arenas), old(mem), arenas, mem, old(live), old(live) - Only(ptr));
      if ptr.Some? && r.Some? {
        ghost var arenas1 := arenas;
        MoveContents(ptr.value, size, r.value);
        if size + HEADER < SIZE_LIMIT {
          assert old(live) - Only(ptr) == old(live) + {r.value} - {ptr.value, r.value};
          KeptTrans(old(arenas), old(mem), arenas1, old(mem), arenas, mem, old(live) - Only(ptr));
        }
      }
    }

    /** The copying half of realloc: `b` is the new block, which does not overlap the old one. */
    method MoveContents(a: nat, size: nat, b: nat)
      requires Valid() && a in live && b in live && a != b && PageOf(b) in arenas
      modifies this
      ensures Valid() && live == old(live) - {a}
      ensures old(PageOf(a) in arenas)
      ensures size <= old(Capacity(arenas, b)) ==>
                && Undisturbed(old(live) - {a, b})
                && PageOf(b) in arenas && Capacity(arenas, b) == old(Capacity(arenas, b))
                && SameBytes(old(mem), mem, a, b, Min(size, old(Capacity(arenas, a))))
    {
      LiveHasArena(free, arenas, live);
      var n := Min(size, BlockCapacity(a));
      OthersApart(free, arenas, live, b);
      if size <= Capacity(arenas, b) {
        CopyKeeps(arenas, mem, a, b, n, live - {b});
      }
      mem := Copied(mem, a, b, n);
      ghost var mem1 := mem;
      Free(Some(a));
      if size <= old(Capacity(arenas, b)) {
        KeptSubset(old(arenas), mem1, arenas, mem, live, live - {b});
        KeptSubset(old(arenas), old(mem), old(arenas), mem1, old(live) - {b}, live - {b});
        KeptTrans(old(arenas), old(mem), old(arenas), mem1, arenas, mem, live - {b});
        assert old(live) - {a, b} == live - {b};
        MovedThenKept(old(mem), mem1, mem, a, b, n, old(Capacity(arenas, b)));
      }
    }

    /** block_size. */
    function BlockCapacity(a: nat): (n: nat)
      requires Valid() && a in live && PageOf(a) in arenas
      reads this
      ensures n == Capacity(arenas, a)
    {
      LiveInside(free, arenas, live, a);
      if arenas[PageOf(a)].Small? then BlockSize(arenas[PageOf(a)].desc)
      else PGSIZE * arenas[PageOf(a)].pages - a % PGSIZE
    }
  }

  function Min(a: int, b: int): int {
    if a < b then a else b
  }

  ghost function Only(p: Option<nat>): set<nat> {
    if p.Some? then {p.value} else {}
  }
}
