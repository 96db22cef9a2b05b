/** Two-level page tables of the 80386, as section 3.7.6 of the IA-32 manual volume 3A lays them out.

    Words and addresses are naturals; a bit field is written as the quotient and remainder that select
    it.  Page frames that hold tables live in `mem` under the kernel virtual address of the frame. */
module PageDir {
  import opened Common

  const PGSIZE: nat := 4096
  const ENTRIES: nat := 1024
  const PTSPAN: nat := 0x40_0000
  const PHYS_BASE: nat := 0xC000_0000
  const WORDS: nat := 0x1_0000_0000
  const USER_PDES: nat := 768
  const USER_PAGES: nat := 0xC_0000

  type Word = x: nat | x < WORDS

  // ---------------------------------------------------------------- addresses

  function PgOfs(va: nat): nat { va % PGSIZE }
  function PgNo(va: nat): nat { va / PGSIZE }
  function PtNo(va: nat): nat { va / PGSIZE % ENTRIES }
  function PdNo(va: nat): nat { va / PTSPAN }

  function Ptov(paddr: nat): nat { paddr + PHYS_BASE }

  function Vtop(vaddr: nat): nat
    requires vaddr >= PHYS_BASE
  {
    vaddr - PHYS_BASE
  }

  /** Directory index, table index and offset determine an address and are determined by it. */
  lemma AddressParts(va: Word)
    ensures PtNo(va) < ENTRIES && PdNo(va) < ENTRIES && PgOfs(va) < PGSIZE
    ensures va == PdNo(va) * PTSPAN + PtNo(va) * PGSIZE + PgOfs(va)
    ensures PgNo(va) == PdNo(va) * ENTRIES + PtNo(va)
    ensures va < PHYS_BASE <==> PdNo(va) < USER_PDES
    ensures va < PHYS_BASE <==> PgNo(va) < USER_PAGES
  {
  }

  // ---------------------------------------------------------------- entries

  /** A page frame by its kernel virtual address. */
  predicate IsFrame(page: nat) {
    PHYS_BASE <= page < WORDS && page % PGSIZE == 0
  }

  predicate Present(w: Word) { w % 2 == 1 }
  predicate Writable(w: Word) { w / 2 % 2 == 1 }
  predicate User(w: Word) { w / 4 % 2 == 1 }

  function PdeCreate(pt: nat): (w: Word)
    requires IsFrame(pt)
  {
    Vtop(pt) + 4 + 2 + 1
  }

  function PteCreateUser(page: nat, writable: bool): (w: Word)
    requires IsFrame(page)
  {
    Vtop(page) + 4 + (if writable then 2 else 0) + 1
  }

  /** The frame an entry points to. */
  function FrameOf(w: Word): nat {
    Ptov(w - w % PGSIZE)
  }

  function NotPresent(w: Word): (r: Word)
    requires Present(w)
  {
    w - 1
  }

  /** Entries give back what they were made from. */
  lemma PteFields(page: nat, writable: bool)
    requires IsFrame(page)
    ensures var e := PteCreateUser(page, writable);
            FrameOf(e) == page && Present(e) && User(e) && Writable(e) == writable
  {
    FlagBits(Vtop(page) / PGSIZE, 4 + (if writable then 2 else 0) + 1);
  }

  lemma FlagBits(k: nat, f: nat)
    requires f < 8
    ensures (k * PGSIZE + f) % PGSIZE == f && (k * PGSIZE + f) % 2 == f % 2
    ensures (k * PGSIZE + f) / 2 % 2 == f / 2 % 2 && (k * PGSIZE + f) / 4 % 2 == f / 4 % 2
  {
    Selects(k * 2048, 1, f);
    Selects(k * 1024, 2, f);
    Selects(k * 512, 4, f);
  }

  /** A flag bit is not disturbed by the address bits above it. */
  lemma Selects(h: nat, unit: nat, f: nat)
    requires (unit == 1 || unit == 2 || unit == 4) && f < 8
    ensures (2 * h * unit + f) / unit % 2 == f / unit % 2
  {
    assert (2 * h * unit + f) / unit == 2 * h + f / unit;
  }

  /** A directory entry leaves the rights to the table's entries. */
  lemma PdeFields(pt: nat)
    requires IsFrame(pt)
    ensures var e := PdeCreate(pt);
            FrameOf(e) == pt && Present(e) && User(e) && Writable(e) && e != 0
  {
    FlagBits(Vtop(pt) / PGSIZE, 4 + 2 + 1);
  }

  /** Clearing the present bit keeps the rest. */
  lemma ClearedFields(w: Word)
    requires Present(w)
    ensures var r := NotPresent(w); !Present(r) && FrameOf(r) == FrameOf(w) && Writable(r) == Writable(w) && User(r) == User(w)
  {
  }

  // ---------------------------------------------------------------- the map that the tables stand for

  type Memory = map<nat, seq<Word>>

  /** One word of a table overwritten. */
  function Written(mem: Memory, p: nat, k: nat, w: Word): Memory
    requires p in mem && k < |mem[p]|
  {
    var table: seq<Word> := mem[p][k := w];
    mem[p := table]
  }

  function Zeroed(): (s: seq<Word>)
    ensures |s| == ENTRIES && forall k | 0 <= k < ENTRIES :: s[k] == 0
  {
    seq(ENTRIES, _ => 0)
  }

  datatype Mapping = Mapping(frame: nat, writable: bool)

  /** User directory entries are empty or point, with all rights, to distinct tables of their own whose
      present entries are for the user. */
  ghost predicate Good(mem: Memory, pd: nat) {
    && pd in mem && (forall p | p in mem :: |mem[p]| == ENTRIES)
    && (forall i | 0 <= i < USER_PDES && mem[pd][i] != 0 :: TableAt(mem, pd, i))
    && (forall i, j | 0 <= i < j < USER_PDES && mem[pd][i] != 0 && mem[pd][j] != 0 :: FrameOf(mem[pd][i]) != FrameOf(mem[pd][j]))
  }

  ghost predicate TableAt(mem: Memory, pd: nat, i: nat)
    requires pd in mem && i < |mem[pd]|
  {
    && Present(mem[pd][i]) && User(mem[pd][i]) && Writable(mem[pd][i])
    && FrameOf(mem[pd][i]) in mem && FrameOf(mem[pd][i]) != pd
    && UserTable(mem[FrameOf(mem[pd][i])])
  }

  ghost predicate UserTable(table: seq<Word>) {
    forall k | 0 <= k < |table| && Present(table[k]) :: User(table[k])
  }

  ghost function Pte(mem: Memory, pd: nat, page: nat): (w: Word)
    requires Good(mem, pd) && page < USER_PAGES && mem[pd][page / ENTRIES] != 0
  {
    assert TableAt(mem, pd, page / ENTRIES);
    mem[FrameOf(mem[pd][page / ENTRIES])][page % ENTRIES]
  }

  /** What the processor makes of an access in user mode: it needs entries that are present and for the
      user at both levels, and it may write if both allow it. */
  ghost function Walk(mem: Memory, pd: nat, page: nat): Option<Mapping> {
    if pd in mem && page / ENTRIES < |mem[pd]| then
      var pde := mem[pd][page / ENTRIES];
      if Present(pde) && User(pde) && FrameOf(pde) in mem && page % ENTRIES < |mem[FrameOf(pde)]| then
        var pte := mem[FrameOf(pde)][page % ENTRIES];
        if Present(pte) && User(pte) then Some(Mapping(FrameOf(pte), Writable(pde) && Writable(pte))) else None
      else None
    else None
  }

  ghost predicate Mapped(mem: Memory, pd: nat, page: nat)
    requires Good(mem, pd) && page < USER_PAGES
  {
    mem[pd][page / ENTRIES] != 0 && Present(Pte(mem, pd, page))
  }

  /** In a good directory the processor grants exactly what the present bits of the tables say. */
  lemma WalkIs(mem: Memory, pd: nat, page: nat)
    requires Good(mem, pd) && page < USER_PAGES
    ensures Walk(mem, pd, page).Some? <==> Mapped(mem, pd, page)
    ensures Mapped(mem, pd, page) ==> Walk(mem, pd, page).value == Mapping(FrameOf(Pte(mem, pd, page)), Writable(Pte(mem, pd, page)))
  {
    if mem[pd][page / ENTRIES] != 0 {
      assert TableAt(mem, pd, page / ENTRIES);
    }
  }

  /** The finite map from the user pages a process can reach to frames and rights. */
  ghost function View(mem: Memory, pd: nat): map<nat, Mapping> {
    Granted(Walker(mem, pd))
  }

  ghost function Walker(mem: Memory, pd: nat): nat -> Option<Mapping> {
    (page: nat) => Walk(mem, pd, page)
  }

  ghost function Granted(walk: nat -> Option<Mapping>): (m: map<nat, Mapping>)
    ensures forall page: nat :: page in m <==> page < USER_PAGES && walk(page).Some?
    ensures forall page | page in m :: m[page] == walk(page).value
  {
    map page: nat | 0 <= page < USER_PAGES && walk(page).Some? :: walk(page).value
  }

  /** Where accesses to one page come out differently, the map differs in that page. */
  lemma GrantedChange(walk: nat -> Option<Mapping>, walk': nat -> Option<Mapping>, page: nat)
    requires page < USER_PAGES && forall q: nat | q < USER_PAGES && q != page :: walk'(q) == walk(q)
    ensures Granted(walk') == if walk'(page).Some? then Granted(walk)[page := walk'(page).value] else Granted(walk) - {page}
  {
    if walk'(page).Some? {
      assert Granted(walk') == Granted(walk)[page := walk'(page).value];
    } else {
      assert Granted(walk') == Granted(walk) - {page};
    }
  }

  lemma GrantedSame(walk: nat -> Option<Mapping>, walk': nat -> Option<Mapping>)
    requires forall q: nat | q < USER_PAGES :: walk'(q) == walk(q)
    ensures Granted(walk') == Granted(walk)
  {
  }

  // ---------------------------------------------------------------- what updates do to the map

  /** Writing one table entry. */
  lemma WritePte(mem: Memory, pd: nat, page: nat, w: Word)
    requires Good(mem, pd) && page < USER_PAGES && mem[pd][page / ENTRIES] != 0 && (Present(w) ==> User(w))
    ensures var pt := FrameOf(mem[pd][page / ENTRIES]);
            && pt in mem && pt != pd
            && var mem' := Written(mem, pt, page % ENTRIES, w);
               && Good(mem', pd) && mem'[pd] == mem[pd]
               && (forall q | 0 <= q < USER_PAGES && mem[pd][q / ENTRIES] != 0 ::
                     Pte(mem', pd, q) == if q == page then w else Pte(mem, pd, q))
  {
    var i := page / ENTRIES;
    assert TableAt(mem, pd, i);
    var pt := FrameOf(mem[pd][i]);
    var mem' := Written(mem, pt, page % ENTRIES, w);
    forall k | 0 <= k < USER_PDES && mem'[pd][k] != 0 ensures TableAt(mem', pd, k) {
      assert TableAt(mem, pd, k);
    }
    forall q | 0 <= q < USER_PAGES && mem[pd][q / ENTRIES] != 0
      ensures Pte(mem', pd, q) == if q == page then w else Pte(mem, pd, q)
    {
      var j := q / ENTRIES;
      assert TableAt(mem, pd, j);
      assert j != i ==> FrameOf(mem[pd][j]) != pt;
      assert j == i && q % ENTRIES == page % ENTRIES ==> q == page;
    }
  }

  /** Installing an empty table changes no mapping. */
  lemma AddTable(mem: Memory, pd: nat, i: nat, pt: nat)
    requires Good(mem, pd) && i < USER_PDES && mem[pd][i] == 0 && IsFrame(pt) && pt !in mem
    ensures var mem' := Written(mem[pt := Zeroed()], pd, i, PdeCreate(pt));
            Good(mem', pd) && View(mem', pd) == View(mem, pd)
  {
    PdeFields(pt);
    var mem' := Written(mem[pt := Zeroed()], pd, i, PdeCreate(pt));
    forall k | 0 <= k < USER_PDES && mem'[pd][k] != 0 ensures TableAt(mem', pd, k) && (k != i ==> FrameOf(mem'[pd][k]) != pt) {
      if k != i {
        assert TableAt(mem, pd, k);
      }
    }
    assert Good(mem', pd);
    forall q: nat | q < USER_PAGES
      ensures Walk(mem', pd, q) == Walk(mem, pd, q)
    {
      WalkIs(mem, pd, q);
      WalkIs(mem', pd, q);
      if mem[pd][q / ENTRIES] != 0 {
        assert TableAt(mem, pd, q / ENTRIES);
      }
    }
    GrantedSame(Walker(mem, pd), Walker(mem', pd));
  }

  /** Writing a present entry adds exactly one mapping; taking the present bit away removes exactly one. */
  lemma WriteView(mem: Memory, pd: nat, page: nat, w: Word)
    requires Good(mem, pd) && page < USER_PAGES && mem[pd][page / ENTRIES] != 0 && (Present(w) ==> User(w))
    ensures var pt := FrameOf(mem[pd][page / ENTRIES]);
            && pt in mem
            && var mem' := Written(mem, pt, page % ENTRIES, w);
               && Good(mem', pd) && mem'[pd] == mem[pd]
               && (Present(w) ==> View(mem', pd) == View(mem, pd)[page := Mapping(FrameOf(w), Writable(w))])
               && (!Present(w) ==> View(mem', pd) == View(mem, pd) - {page})
  {
    WritePte(mem, pd, page, w);
    var mem' := Written(mem, FrameOf(mem[pd][page / ENTRIES]), page % ENTRIES, w);
    WalkWritten(mem, mem', pd, page, w);
    GrantedChange(Walker(mem, pd), Walker(mem', pd), page);
  }

  lemma WalkWritten(mem: Memory, mem': Memory, pd: nat, page: nat, w: Word)
    requires Good(mem, pd) && Good(mem', pd) && mem'[pd] == mem[pd] && page < USER_PAGES && mem[pd][page / ENTRIES] != 0
    requires forall q | 0 <= q < USER_PAGES && mem[pd][q / ENTRIES] != 0 :: Pte(mem', pd, q) == if q == page then w else Pte(mem, pd, q)
    ensures Walk(mem', pd, page) == if Present(w) then Some(Mapping(FrameOf(w), Writable(w))) else None
    ensures forall q: nat | q < USER_PAGES && q != page :: Walk(mem', pd, q) == Walk(mem, pd, q)
  {
    WalkIs(mem', pd, page);
    forall q: nat | q < USER_PAGES && q != page
      ensures Walk(mem', pd, q) == Walk(mem, pd, q)
    {
      WalkIs(mem, pd, q);
      WalkIs(mem', pd, q);
    }
  }

  // ---------------------------------------------------------------- destroying

  /** How many pages below n map to frame x. */
  ghost function FramesTo(mem: Memory, pd: nat, x: nat, n: nat): nat
    requires Good(mem, pd) && n <= USER_PAGES
  {
    if n == 0 then 0
    else FramesTo(mem, pd, x, n - 1) + if Mapped(mem, pd, n - 1) && FrameOf(Pte(mem, pd, n - 1)) == x then 1 else 0
  }

  /** How many of the first n directory entries point to table x. */
  ghost function TablesTo(mem: Memory, pd: nat, x: nat, n: nat): nat
    requires Good(mem, pd) && n <= USER_PDES
  {
    if n == 0 then 0
    else TablesTo(mem, pd, x, n - 1) + if mem[pd][n - 1] != 0 && FrameOf(mem[pd][n - 1]) == x then 1 else 0
  }

  lemma {:induction false} EmptyStretch(mem: Memory, pd: nat, x: nat, i: nat, j: nat)
    requires Good(mem, pd) && i < USER_PDES && mem[pd][i] == 0 && j <= ENTRIES
    ensures FramesTo(mem, pd, x, i * ENTRIES + j) == FramesTo(mem, pd, x, i * ENTRIES)
  {
    if j > 0 {
      EmptyStretch(mem, pd, x, i, j - 1);
      assert (i * ENTRIES + j - 1) / ENTRIES == i;
    }
  }

  /** A list holds each page as often as the first n pages map to it and the first m entries point to it. */
  ghost predicate Tally(freed: seq<nat>, mem: Memory, pd: nat, n: nat, m: nat)
    requires Good(mem, pd) && n <= USER_PAGES && m <= USER_PDES
  {
    forall x :: multiset(freed)[x] == FramesTo(mem, pd, x, n) + TablesTo(mem, pd, x, m)
  }

  lemma TallyPage(freed: seq<nat>, mem: Memory, pd: nat, n: nat, m: nat)
    requires Good(mem, pd) && n < USER_PAGES && m <= USER_PDES && Tally(freed, mem, pd, n, m)
    ensures Tally(if Mapped(mem, pd, n) then freed + [FrameOf(Pte(mem, pd, n))] else freed, mem, pd, n + 1, m)
  {
  }

  lemma TallyTable(freed: seq<nat>, mem: Memory, pd: nat, n: nat, m: nat)
    requires Good(mem, pd) && n <= USER_PAGES && m < USER_PDES && Tally(freed, mem, pd, n, m)
    ensures Tally(if mem[pd][m] != 0 then freed + [FrameOf(mem[pd][m])] else freed, mem, pd, n, m + 1)
  {
  }

  lemma TallySkip(freed: seq<nat>, mem: Memory, pd: nat, i: nat)
    requires Good(mem, pd) && i < USER_PDES && mem[pd][i] == 0 && Tally(freed, mem, pd, i * ENTRIES, i)
    ensures Tally(freed, mem, pd, (i + 1) * ENTRIES, i + 1)
  {
    forall x ensures FramesTo(mem, pd, x, (i + 1) * ENTRIES) == FramesTo(mem, pd, x, i * ENTRIES) {
      EmptyStretch(mem, pd, x, i, ENTRIES);
    }
  }

  lemma PresentTable(mem: Memory, pd: nat, i: nat)
    requires Good(mem, pd) && i < USER_PDES
    ensures mem[pd][i] != 0 <==> Present(mem[pd][i])
  {
    if mem[pd][i] != 0 {
      assert TableAt(mem, pd, i);
    }
  }

  class Directory {
    const pd: nat
    var mem: Memory

    ghost predicate Valid()
      reads this
    {
      IsFrame(pd) && Good(mem, pd)
    }

    ghost function Map(): map<nat, Mapping>
      requires Valid()
      reads this
    {
      View(mem, pd)
    }

    /** pagedir_create: a copy of the kernel's directory, which maps no user page. */
    constructor (page: nat, init: seq<Word>)
      requires IsFrame(page) && |init| == ENTRIES && forall i | 0 <= i < USER_PDES :: init[i] == 0
      ensures Valid() && Map() == map[] && mem[pd] == init
    {
      pd := page;
      mem := map[page := init];
    }

    /** What the page allocator may answer. */
    ghost predicate GrantOk(grant: Option<nat>)
      reads this
    {
      grant.Some? ==> IsFrame(grant.value) && grant.value !in mem
    }

    /** lookup_page without creating: the table of a user address, if there is one. */
    method FindTable(vaddr: nat) returns (r: Option<nat>)
      requires Valid() && vaddr < PHYS_BASE
      ensures r.None? <==> mem[pd][PgNo(vaddr) / ENTRIES] == 0
      ensures r.Some? ==> r.value == FrameOf(mem[pd][PgNo(vaddr) / ENTRIES]) && r.value in mem
    {
      AddressParts(vaddr);
      if mem[pd][PdNo(vaddr)] == 0 {
        return None;
      }
      assert TableAt(mem, pd, PdNo(vaddr));
      return Some(FrameOf(mem[pd][PdNo(vaddr)]));
    }

    /** lookup_page with creating: the table of a user address, a new empty one if there was none. */
    method LookupPage(vaddr: nat, grant: Option<nat>) returns (r: Option<nat>)
      requires Valid() && vaddr < PHYS_BASE && GrantOk(grant)
      modifies this
      ensures Valid() && Map() == old(Map()) && (r.None? ==> mem == old(mem))
      ensures pd in old(mem) && |old(mem)[pd]| == ENTRIES && mem[pd][USER_PDES..] == old(mem)[pd][USER_PDES..]
      ensures r.None? <==> old(mem)[pd][PgNo(vaddr) / ENTRIES] == 0 && grant.None?
      ensures r.Some? ==> mem[pd][PgNo(vaddr) / ENTRIES] != 0 && r.value == FrameOf(mem[pd][PgNo(vaddr) / ENTRIES]) && r.value in mem
    {
      AddressParts(vaddr);
      var i := PdNo(vaddr);
      if mem[pd][i] == 0 {
        if grant.None? {
          return None;
        }
        var pt := grant.value;
        AddTable(mem, pd, i, pt);
        PdeFields(pt);
        mem := mem[pt := Zeroed()];
        mem := Written(mem, pd, i, PdeCreate(pt));
      }
      assert TableAt(mem, pd, i);
      return Some(FrameOf(mem[pd][i]));
    }

    /** Writes the table entry of a user page. */
    method WriteEntry(pt: nat, page: nat, w: Word)
      requires Valid() && page < USER_PAGES && mem[pd][page / ENTRIES] != 0 && pt == FrameOf(mem[pd][page / ENTRIES])
      requires Present(w) ==> User(w)
      modifies this
      ensures Valid() && pd in old(mem) && mem[pd] == old(mem)[pd]
      ensures Map() == if Present(w) then old(Map())[page := Mapping(FrameOf(w), Writable(w))] else old(Map()) - {page}
    {
      WriteView(mem, pd, page, w);
      assert TableAt(mem, pd, page / ENTRIES);
      mem := Written(mem, pt, page % ENTRIES, w);
    }

    /** Maps one unmapped user page and changes no other; fails only for want of a table. */
    method SetPage(upage: nat, kpage: nat, writable: bool, grant: Option<nat>) returns (ok: bool)
      requires Valid() && PgOfs(upage) == 0 && upage < PHYS_BASE && IsFrame(kpage) && PgNo(upage) !in Map() && GrantOk(grant)
      modifies this
      ensures Valid()
      ensures Map() == if ok then old(Map())[PgNo(upage) := Mapping(kpage, writable)] else old(Map())
      ensures pd in old(mem) && |old(mem)[pd]| == ENTRIES && mem[pd][USER_PDES..] == old(mem)[pd][USER_PDES..]
      ensures !ok <==> old(mem)[pd][PdNo(upage)] == 0 && grant.None?
    {
      AddressParts(upage);
      var pt := LookupPage(upage, grant);
      if pt.None? {
        return false;
      }
      PteFields(kpage, writable);
      WriteEntry(pt.value, PgNo(upage), PteCreateUser(kpage, writable));
      return true;
    }

    /** The frame of the address's page plus the offset, for every user address. */
    method GetPage(uaddr: nat) returns (r: Option<nat>)
      requires Valid() && uaddr < PHYS_BASE
      ensures r == if PgNo(uaddr) in Map() then Some(Map()[PgNo(uaddr)].frame + PgOfs(uaddr)) else None
    {
      AddressParts(uaddr);
      var pt := FindTable(uaddr);
      if pt.Some? {
        var pte := mem[pt.value][PtNo(uaddr)];
        assert pte == Pte(mem, pd, PgNo(uaddr));
        WalkIs(mem, pd, PgNo(uaddr));
        if Present(pte) {
          return Some(FrameOf(pte) + PgOfs(uaddr));
        }
      }
      return None;
    }

    /** Unmaps one page, mapped or not, and changes no other. */
    method ClearPage(upage: nat)
      requires Valid() && PgOfs(upage) == 0 && upage < PHYS_BASE
      modifies this
      ensures Valid() && Map() == old(Map()) - {PgNo(upage)}
      ensures mem[pd] == old(mem[pd])
    {
      AddressParts(upage);
      var pt := FindTable(upage);
      if pt.Some? {
        var pte := mem[pt.value][PtNo(upage)];
        assert pte == Pte(mem, pd, PgNo(upage));
        WalkIs(mem, pd, PgNo(upage));
        if Present(pte) {
          ClearedFields(pte);
          WriteEntry(pt.value, PgNo(upage), NotPresent(pte));
        }
      }
    }

    /** pagedir_destroy: what it hands back to the page allocator, in order. */
    method Destroy() returns (freed: seq<nat>)
      requires Valid()
      ensures forall x :: multiset(freed)[x] == FreedCount(mem, pd, x)
    {
      freed := [];
      var i := 0;
      while i < USER_PDES
        invariant i <= USER_PDES && Tally(freed, mem, pd, i * ENTRIES, i)
      {
        PresentTable(mem, pd, i);
        if Present(mem[pd][i]) {
          freed := FreeTable(i, freed);
        } else {
          TallySkip(freed, mem, pd, i);
        }
        i := i + 1;
      }
      freed := freed + [pd];
    }

    method FreeTable(i: nat, before: seq<nat>) returns (freed: seq<nat>)
      requires Valid() && i < USER_PDES && mem[pd][i] != 0 && Tally(before, mem, pd, i * ENTRIES, i)
      ensures Tally(freed, mem, pd, (i + 1) * ENTRIES, i + 1)
    {
      freed := FreeFrames(i, before, i * ENTRIES);
      TallyTable(freed, mem, pd, (i + 1) * ENTRIES, i);
      freed := freed + [FrameOf(mem[pd][i])];
    }

    method FreeFrames(i: nat, before: seq<nat>, ghost first: nat) returns (freed: seq<nat>)
      requires Valid() && i < USER_PDES && mem[pd][i] != 0 && first == i * ENTRIES && AsUnit(Tally(before, mem, pd, first, i))
      ensures AsUnit(Tally(freed, mem, pd, first + ENTRIES, i))
    {
      var pt := FrameOf(mem[pd][i]);
      freed := before;
      var j := 0;
      while j < ENTRIES
        invariant j <= ENTRIES && AsUnit(Tally(freed, mem, pd, first + j, i))
      {
        freed := FreeEntry(pt, i, j, freed, first + j);
        j := j + 1;
      }
    }

    method FreeEntry(pt: nat, ghost i: nat, j: nat, before: seq<nat>, ghost page: nat) returns (freed: seq<nat>)
      requires Valid() && i < USER_PDES && mem[pd][i] != 0 && pt == FrameOf(mem[pd][i]) && j < ENTRIES && page == i * ENTRIES + j
      requires AsUnit(Tally(before, mem, pd, page, i))
      ensures AsUnit(Tally(freed, mem, pd, page + 1, i))
    {
      TallyEntry(before, mem, pd, i, j, page);
      var pte := mem[pt][j];
      freed := before;
      if Present(pte) {
        freed := freed + [FrameOf(pte)];
      }
    }
  }

  lemma TallyEntry(freed: seq<nat>, mem: Memory, pd: nat, i: nat, j: nat, page: nat)
    requires Good(mem, pd) && i < USER_PDES && mem[pd][i] != 0 && j < ENTRIES && page == i * ENTRIES + j
    requires AsUnit(Tally(freed, mem, pd, page, i))
    ensures FrameOf(mem[pd][i]) in mem && |mem[FrameOf(mem[pd][i])]| == ENTRIES
    ensures var pte := mem[FrameOf(mem[pd][i])][j];
            AsUnit(Tally(if Present(pte) then freed + [FrameOf(pte)] else freed, mem, pd, page + 1, i))
  {
    PteAt(mem, pd, i, j);
    TallyPage(freed, mem, pd, page, i);
  }

  lemma PteAt(mem: Memory, pd: nat, i: nat, j: nat)
    requires Good(mem, pd) && i < USER_PDES && mem[pd][i] != 0 && j < ENTRIES
    ensures FrameOf(mem[pd][i]) in mem && |mem[FrameOf(mem[pd][i])]| == ENTRIES
    ensures (i * ENTRIES + j) / ENTRIES == i && Pte(mem, pd, i * ENTRIES + j) == mem[FrameOf(mem[pd][i])][j]
  {
    assert TableAt(mem, pd, i);
  }

  // ---------------------------------------------------------------- freeing once

  ghost predicate MapsTo(mem: Memory, pd: nat, page: nat, x: nat)
    requires Good(mem, pd) && page < USER_PAGES
  {
    Mapped(mem, pd, page) && FrameOf(Pte(mem, pd, page)) == x
  }

  ghost predicate IsTable(mem: Memory, pd: nat, x: nat)
    requires Good(mem, pd)
  {
    exists i :: 0 <= i < USER_PDES && mem[pd][i] != 0 && FrameOf(mem[pd][i]) == x
  }

  lemma {:induction false} FramesSome(mem: Memory, pd: nat, x: nat, n: nat)
    requires Good(mem, pd) && n <= USER_PAGES
    ensures FramesTo(mem, pd, x, n) > 0 <==> exists q :: 0 <= q < n && MapsTo(mem, pd, q, x)
  {
    if n > 0 {
      FramesSome(mem, pd, x, n - 1);
      assert MapsTo(mem, pd, n - 1, x) || FramesTo(mem, pd, x, n) == FramesTo(mem, pd, x, n - 1);
    }
  }

  lemma {:induction false} FramesMany(mem: Memory, pd: nat, x: nat, n: nat)
    requires Good(mem, pd) && n <= USER_PAGES
    ensures FramesTo(mem, pd, x, n) > 1 <==> Twice(mem, pd, x, n)
  {
    if n > 0 {
      FramesMany(mem, pd, x, n - 1);
      FramesNext(mem, pd, x, n);
      TwiceNext(mem, pd, x, n);
    }
  }

  lemma FramesNext(mem: Memory, pd: nat, x: nat, n: nat)
    requires Good(mem, pd) && 0 < n <= USER_PAGES
    ensures FramesTo(mem, pd, x, n) > 1 <==>
            FramesTo(mem, pd, x, n - 1) > 1 || (MapsTo(mem, pd, n - 1, x) && exists p :: 0 <= p < n - 1 && MapsTo(mem, pd, p, x))
  {
    FramesSome(mem, pd, x, n - 1);
    assert FramesTo(mem, pd, x, n) == FramesTo(mem, pd, x, n - 1) + if MapsTo(mem, pd, n - 1, x) then 1 else 0;
  }

  /** Two of the first n pages map to x. */
  ghost predicate Twice(mem: Memory, pd: nat, x: nat, n: nat)
    requires Good(mem, pd) && n <= USER_PAGES
  {
    exists p, q :: 0 <= p < q < n && MapsTo(mem, pd, p, x) && MapsTo(mem, pd, q, x)
  }

  lemma TwiceNext(mem: Memory, pd: nat, x: nat, n: nat)
    requires Good(mem, pd) && 0 < n <= USER_PAGES
    ensures Twice(mem, pd, x, n) <==>
            Twice(mem, pd, x, n - 1) || (MapsTo(mem, pd, n - 1, x) && exists p :: 0 <= p < n - 1 && MapsTo(mem, pd, p, x))
  {
    if Twice(mem, pd, x, n - 1) {
      var p, q :| 0 <= p < q < n - 1 && MapsTo(mem, pd, p, x) && MapsTo(mem, pd, q, x);
      assert 0 <= p < q < n;
    }
    if p :| MapsTo(mem, pd, n - 1, x) && 0 <= p < n - 1 && MapsTo(mem, pd, p, x) {
      assert 0 <= p < n - 1 < n && MapsTo(mem, pd, n - 1, x);
    }
  }

  lemma {:induction false} TablesOnce(mem: Memory, pd: nat, x: nat, n: nat)
    requires Good(mem, pd) && n <= USER_PDES
    ensures TablesTo(mem, pd, x, n) == if exists i :: 0 <= i < n && mem[pd][i] != 0 && FrameOf(mem[pd][i]) == x then 1 else 0
  {
    if n > 0 {
      TablesOnce(mem, pd, x, n - 1);
      if i :| 0 <= i < n && mem[pd][i] != 0 && FrameOf(mem[pd][i]) == x {
        assert i < n - 1 ==> 0 <= i < n - 1;
      }
    }
  }

  /** No frame is mapped twice, and none is a page table or the directory. */
  ghost predicate Unshared(mem: Memory, pd: nat)
    requires Good(mem, pd)
  {
    && (forall p, q | 0 <= p < q < USER_PAGES && Mapped(mem, pd, p) && Mapped(mem, pd, q) ::
          FrameOf(Pte(mem, pd, p)) != FrameOf(Pte(mem, pd, q)))
    && (forall p | 0 <= p < USER_PAGES && Mapped(mem, pd, p) ::
          FrameOf(Pte(mem, pd, p)) != pd && !IsTable(mem, pd, FrameOf(Pte(mem, pd, p))))
  }

  ghost function FreedCount(mem: Memory, pd: nat, x: nat): nat
    requires Good(mem, pd)
  {
    FramesTo(mem, pd, x, USER_PAGES) + TablesTo(mem, pd, x, USER_PDES) + if x == pd then 1 else 0
  }

  /** Exactly the mapped frames, the user page tables and the directory are freed. */
  lemma FreedExactly(mem: Memory, pd: nat, x: nat)
    requires Good(mem, pd)
    ensures FreedCount(mem, pd, x) > 0 <==>
            (exists q :: 0 <= q < USER_PAGES && MapsTo(mem, pd, q, x)) || IsTable(mem, pd, x) || x == pd
  {
    FramesSome(mem, pd, x, USER_PAGES);
    TablesOnce(mem, pd, x, USER_PDES);
  }

  /** Nothing is freed twice exactly when no frame is shared. */
  lemma FreedOnce(mem: Memory, pd: nat)
    requires Good(mem, pd)
    ensures (forall x :: FreedCount(mem, pd, x) <= 1) <==> Unshared(mem, pd)
  {
    if Unshared(mem, pd) {
      forall x ensures FreedCount(mem, pd, x) <= 1 {
        OnceIfUnshared(mem, pd, x);
      }
    } else {
      var x := TwiceIfShared(mem, pd);
    }
  }

  /** Two user pages that share a frame. */
  ghost function SharedMemory(pd: nat, pt: nat, frame: nat): Memory
    requires IsFrame(pd) && IsFrame(pt) && IsFrame(frame)
  {
    var table: seq<Word> := Zeroed()[0 := PteCreateUser(frame, true)][1 := PteCreateUser(frame, true)];
    var dir: seq<Word> := Zeroed()[0 := PdeCreate(pt)];
    map[pt := table, pd := dir]
  }

  /** Destroying their directory frees that frame twice. */
  lemma SharedFrameFreedTwice(pd: nat, pt: nat, frame: nat)
    requires IsFrame(pd) && IsFrame(pt) && IsFrame(frame) && pd != pt
    ensures Good(SharedMemory(pd, pt, frame), pd) && FreedCount(SharedMemory(pd, pt, frame), pd, frame) > 1
  {
    var mem := SharedMemory(pd, pt, frame);
    PdeFields(pt);
    PteFields(frame, true);
    assert TableAt(mem, pd, 0);
    assert Good(mem, pd);
    assert MapsTo(mem, pd, 0, frame) && MapsTo(mem, pd, 1, frame);
    FramesMany(mem, pd, frame, USER_PAGES);
  }

  lemma OnceIfUnshared(mem: Memory, pd: nat, x: nat)
    requires Good(mem, pd) && Unshared(mem, pd)
    ensures FreedCount(mem, pd, x) <= 1
  {
    FramesSome(mem, pd, x, USER_PAGES);
    FramesMany(mem, pd, x, USER_PAGES);
    TablesOnce(mem, pd, x, USER_PDES);
    NotOwnTable(mem, pd);
  }

  lemma NotOwnTable(mem: Memory, pd: nat)
    requires Good(mem, pd)
    ensures !IsTable(mem, pd, pd)
  {
    forall i | 0 <= i < USER_PDES && mem[pd][i] != 0 ensures FrameOf(mem[pd][i]) != pd {
      assert TableAt(mem, pd, i);
    }
  }

  lemma TwiceIfShared(mem: Memory, pd: nat) returns (x: nat)
    requires Good(mem, pd) && !Unshared(mem, pd)
    ensures FreedCount(mem, pd, x) > 1
  {
    if p, q :| 0 <= p < q < USER_PAGES && Mapped(mem, pd, p) && Mapped(mem, pd, q)
               && FrameOf(Pte(mem, pd, p)) == FrameOf(Pte(mem, pd, q)) {
      x := FrameOf(Pte(mem, pd, p));
      assert MapsTo(mem, pd, p, x) && MapsTo(mem, pd, q, x);
      FramesMany(mem, pd, x, USER_PAGES);
    } else {
      var p :| 0 <= p < USER_PAGES && Mapped(mem, pd, p)
               && (FrameOf(Pte(mem, pd, p)) == pd || IsTable(mem, pd, FrameOf(Pte(mem, pd, p))));
      x := FrameOf(Pte(mem, pd, p));
      assert MapsTo(mem, pd, p, x);
      FramesSome(mem, pd, x, USER_PAGES);
      TablesOnce(mem, pd, x, USER_PDES);
    }
  }
}
