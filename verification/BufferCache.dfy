/** The file system's buffer cache: 64 sector slots over a block device, a hash index from sectors to
    slots, reference bits with a clock hand, and write-back of dirty slots.

    One device, one caller at a time.  What the cache is for is stated against a flat array of
    sectors: the contents a program would see with no cache at all. */
module BufferCache {
  import opened Common
  import opened Bytes
  import Simulation

  const SLOTS: nat := 64
  const SECTOR: nat := 512

  type Sector = s: seq<Byte> | |s| == SECTOR witness seq(SECTOR, _ => 0)

  datatype Entry = Entry(sector: nat, dirty: bool)

  // ---------------------------------------------------------------- bytes

  /** The sector held in slot i of the buffer. */
  function Slot(buf: seq<Byte>, i: nat): (s: Sector)
    requires i < SLOTS && |buf| == SLOTS * SECTOR
    ensures forall k | 0 <= k < SECTOR :: s[k] == buf[i * SECTOR + k]
  {
    buf[i * SECTOR..(i + 1) * SECTOR]
  }

  lemma SlotPut(buf: seq<Byte>, i: nat, off: nat, bytes: seq<Byte>, j: nat)
    requires i < SLOTS && j < SLOTS && |buf| == SLOTS * SECTOR && off + |bytes| <= SECTOR
    ensures Slot(Put(buf, i * SECTOR + off, bytes), j) == if j == i then Put(Slot(buf, i), off, bytes) else Slot(buf, j)
  {
    var r := Slot(Put(buf, i * SECTOR + off, bytes), j);
    var e: seq<Byte> := if j == i then Put(Slot(buf, i), off, bytes) else Slot(buf, j);
    forall k | 0 <= k < SECTOR ensures r[k] == e[k] {
      if j < i {
        assert j * SECTOR + k < i * SECTOR;
      } else if i < j {
        assert (i + 1) * SECTOR <= j * SECTOR + k;
      }
    }
    assert r == e;
  }

  // ---------------------------------------------------------------- consistency

  /** The index and the slot table are mutual inverses. */
  ghost predicate Inverse(index: map<nat, nat>, slots: seq<Option<Entry>>, sectors: nat) {
    && |slots| == SLOTS
    && (forall s | s in index :: index[s] < SLOTS && slots[index[s]].Some? && slots[index[s]].value.sector == s)
    && (forall i | 0 <= i < SLOTS && slots[i].Some? ::
          slots[i].value.sector < sectors && slots[i].value.sector in index && index[slots[i].value.sector] == i)
  }

  /** Every clean slot equals its sector on the disk. */
  ghost predicate CleanMatch(slots: seq<Option<Entry>>, buf: seq<Byte>, disk: seq<Sector>)
    requires |slots| == SLOTS && |buf| == SLOTS * SECTOR
  {
    forall i | 0 <= i < SLOTS && slots[i].Some? && !slots[i].value.dirty ::
      slots[i].value.sector < |disk| && Slot(buf, i) == disk[slots[i].value.sector]
  }

  ghost predicate Consistent(index: map<nat, nat>, slots: seq<Option<Entry>>, buf: seq<Byte>, disk: seq<Sector>) {
    Inverse(index, slots, |disk|) && |buf| == SLOTS * SECTOR && CleanMatch(slots, buf, disk)
  }

  ghost predicate Bounded(index: map<nat, nat>) {
    forall s | s in index :: index[s] < SLOTS
  }

  /** What sector s holds as far as a caller can tell. */
  ghost function SectorView(index: map<nat, nat>, buf: seq<Byte>, disk: seq<Sector>, s: nat): Sector
    requires s < |disk| && |buf| == SLOTS * SECTOR && Bounded(index)
  {
    if s in index then Slot(buf, index[s]) else disk[s]
  }

  /** The flat array of sectors that the cache and the disk together stand for. */
  ghost function Flat(index: map<nat, nat>, buf: seq<Byte>, disk: seq<Sector>): (flat: seq<Sector>)
    requires |buf| == SLOTS * SECTOR && Bounded(index)
    ensures |flat| == |disk| && forall s | 0 <= s < |disk| :: flat[s] == SectorView(index, buf, disk, s)
  {
    seq(|disk|, s requires 0 <= s < |disk| => SectorView(index, buf, disk, s))
  }

  // ---------------------------------------------------------------- what each operation does to the view

  /** The disk after slot i's dirty sector has been written back. */
  function WriteBack(slots: seq<Option<Entry>>, buf: seq<Byte>, disk: seq<Sector>, i: nat): (disk': seq<Sector>)
    requires i < SLOTS == |slots| && |buf| == SLOTS * SECTOR
    requires slots[i].Some? ==> slots[i].value.sector < |disk|
    ensures |disk'| == |disk|
  {
    if slots[i].Some? && slots[i].value.dirty then disk[slots[i].value.sector := Slot(buf, i)] else disk
  }

  function Zeros(): (s: Sector)
    ensures forall k | 0 <= k < SECTOR :: s[k] == 0
  {
    seq(SECTOR, _ => 0)
  }

  /** Only slot i of the buffer changes, and becomes c. */
  ghost predicate SlotChanged(buf: seq<Byte>, buf': seq<Byte>, i: nat, c: Sector) {
    && |buf| == |buf'| == SLOTS * SECTOR && i < SLOTS && Slot(buf', i) == c
    && forall j | 0 <= j < SLOTS && j != i :: Slot(buf', j) == Slot(buf, j)
  }

  lemma PutChanges(buf: seq<Byte>, i: nat, off: nat, bytes: seq<Byte>)
    requires i < SLOTS && |buf| == SLOTS * SECTOR && off + |bytes| <= SECTOR
    ensures SlotChanged(buf, Put(buf, i * SECTOR + off, bytes), i, Put(Slot(buf, i), off, bytes))
  {
    forall j | 0 <= j < SLOTS
      ensures Slot(Put(buf, i * SECTOR + off, bytes), j) == if j == i then Put(Slot(buf, i), off, bytes) else Slot(buf, j)
    {
      SlotPut(buf, i, off, bytes, j);
    }
  }

  lemma SameFlat(index: map<nat, nat>, buf: seq<Byte>, disk: seq<Sector>, index': map<nat, nat>, buf': seq<Byte>, disk': seq<Sector>)
    requires |buf| == |buf'| == SLOTS * SECTOR && Bounded(index) && Bounded(index') && |disk| == |disk'|
    requires forall s | 0 <= s < |disk| :: SectorView(index', buf', disk', s) == SectorView(index, buf, disk, s)
    ensures Flat(index', buf', disk') == Flat(index, buf, disk)
  {
  }

  /** Evicting slot i changes nothing a caller can see. */
  lemma EvictView(index: map<nat, nat>, slots: seq<Option<Entry>>, buf: seq<Byte>, buf': seq<Byte>, disk: seq<Sector>, i: nat)
    requires Consistent(index, slots, buf, disk) && i < SLOTS && slots[i].Some? && SlotChanged(buf, buf', i, Zeros())
    ensures var disk', index' := WriteBack(slots, buf, disk, i), index - {slots[i].value.sector};
            && Consistent(index', slots[i := None], buf', disk')
            && Flat(index', buf', disk') == Flat(index, buf, disk)
  {
    EvictInverse(index, slots, |disk|, i);
    EvictClean(index, slots, buf, buf', disk, i);
    var t := slots[i].value.sector;
    var disk', index' := WriteBack(slots, buf, disk, i), index - {t};
    forall s | 0 <= s < |disk| ensures SectorView(index', buf', disk', s) == SectorView(index, buf, disk, s) {
      if s == t {
        assert disk'[t] == Slot(buf, i);
      }
    }
    SameFlat(index, buf, disk, index', buf', disk');
  }

  lemma EvictInverse(index: map<nat, nat>, slots: seq<Option<Entry>>, sectors: nat, i: nat)
    requires Inverse(index, slots, sectors) && i < SLOTS && slots[i].Some?
    ensures Inverse(index - {slots[i].value.sector}, slots[i := None], sectors)
    ensures forall s | s in index && s != slots[i].value.sector :: index[s] != i
    ensures forall j | 0 <= j < SLOTS && slots[j].Some? && j != i :: slots[j].value.sector != slots[i].value.sector
  {
  }

  lemma EvictClean(index: map<nat, nat>, slots: seq<Option<Entry>>, buf: seq<Byte>, buf': seq<Byte>, disk: seq<Sector>, i: nat)
    requires Consistent(index, slots, buf, disk) && i < SLOTS && slots[i].Some? && SlotChanged(buf, buf', i, Zeros())
    ensures CleanMatch(slots[i := None], buf', WriteBack(slots, buf, disk, i))
  {
    EvictInverse(index, slots, |disk|, i);
  }

  /** Filling free slot i for an uncached sector s. */
  lemma FillView(index: map<nat, nat>, slots: seq<Option<Entry>>, buf: seq<Byte>, buf': seq<Byte>, disk: seq<Sector>,
                 i: nat, s: nat, dirty: bool, c: Sector)
    requires Consistent(index, slots, buf, disk) && i < SLOTS && slots[i].None? && s !in index && s < |disk|
    requires SlotChanged(buf, buf', i, c) && (!dirty ==> c == disk[s])
    ensures Consistent(index[s := i], slots[i := Some(Entry(s, dirty))], buf', disk)
    ensures Flat(index[s := i], buf', disk) == Flat(index, buf, disk)[s := c]
  {
    assert forall t | t in index :: index[t] != i;
  }

  /** Changing the bytes of a cached sector and marking it dirty. */
  lemma UpdateView(index: map<nat, nat>, slots: seq<Option<Entry>>, buf: seq<Byte>, buf': seq<Byte>, disk: seq<Sector>,
                   s: nat, c: Sector)
    requires Consistent(index, slots, buf, disk) && s in index && SlotChanged(buf, buf', index[s], c)
    ensures s < |disk| && Consistent(index, slots[index[s] := Some(Entry(s, true))], buf', disk)
    ensures Flat(index, buf', disk) == Flat(index, buf, disk)[s := c]
  {
    assert forall t | t in index && t != s :: index[t] != index[s];
  }

  lemma FillPut(index: map<nat, nat>, slots: seq<Option<Entry>>, buf: seq<Byte>, disk: seq<Sector>,
                i: nat, s: nat, off: nat, bytes: seq<Byte>)
    requires Consistent(index, slots, buf, disk) && i < SLOTS && slots[i].None? && s !in index && s < |disk|
    requires off + |bytes| <= SECTOR
    ensures Consistent(index[s := i], slots[i := Some(Entry(s, true))], Put(buf, i * SECTOR + off, bytes), disk)
    ensures Flat(index[s := i], Put(buf, i * SECTOR + off, bytes), disk)
            == Flat(index, buf, disk)[s := Put(Slot(buf, i), off, bytes)]
  {
    PutChanges(buf, i, off, bytes);
    FillView(index, slots, buf, Put(buf, i * SECTOR + off, bytes), disk, i, s, true, Put(Slot(buf, i), off, bytes));
  }

  lemma UpdatePut(index: map<nat, nat>, slots: seq<Option<Entry>>, buf: seq<Byte>, disk: seq<Sector>,
                  s: nat, off: nat, bytes: seq<Byte>)
    requires Consistent(index, slots, buf, disk) && s in index && off + |bytes| <= SECTOR
    ensures s < |disk| && index[s] < SLOTS
    ensures Consistent(index, slots[index[s] := Some(Entry(s, true))], Put(buf, index[s] * SECTOR + off, bytes), disk)
    ensures Flat(index, Put(buf, index[s] * SECTOR + off, bytes), disk)
            == Flat(index, buf, disk)[s := Put(Flat(index, buf, disk)[s], off, bytes)]
  {
    PutChanges(buf, index[s], off, bytes);
    UpdateView(index, slots, buf, Put(buf, index[s] * SECTOR + off, bytes), disk, s, Put(Slot(buf, index[s]), off, bytes));
  }

  // ---------------------------------------------------------------- the clock hand

  function AllSet(refbits: seq<bool>): bool {
    forall i | 0 <= i < |refbits| :: refbits[i]
  }

  /** update_clock_idx: the hand moves at most one slot. */
  function HandAfter(refbits: seq<bool>, clock: nat): (h: nat)
    requires clock < SLOTS == |refbits|
    ensures h < SLOTS
  {
    if AllSet(refbits) then 0 else if refbits[clock] then (clock + 1) % SLOTS else clock
  }

  function BitsAfter(refbits: seq<bool>): (r: seq<bool>)
    ensures |r| == |refbits|
  {
    if AllSet(refbits) then seq(|refbits|, _ => false) else refbits
  }

  /** The hand is meant to stop at a slot that has not been referenced.  Moving one slot only, it does
      so exactly when every slot was referenced or one of the two slots it looks at was not. */
  lemma HandFindsUnreferenced(refbits: seq<bool>, clock: nat)
    requires clock < SLOTS == |refbits|
    ensures !BitsAfter(refbits)[HandAfter(refbits, clock)] <==>
            AllSet(refbits) || !refbits[clock] || !refbits[(clock + 1) % SLOTS]
  {
  }

  /** The rule: when all slots are referenced, they become unreferenced and the hand goes to slot 0; otherwise no bit
      changes and the hand moves on, to the next slot in the circle, exactly if its slot is referenced. */
  lemma HandRule(refbits: seq<bool>, clock: nat)
    requires clock < SLOTS == |refbits|
    ensures (forall i | 0 <= i < 64 :: refbits[i]) ==>
              HandAfter(refbits, clock) == 0 && forall i | 0 <= i < 64 :: !BitsAfter(refbits)[i]
    ensures (exists i | 0 <= i < 64 :: !refbits[i]) ==>
              && BitsAfter(refbits) == refbits
              && HandAfter(refbits, clock) == if !refbits[clock] then clock else if clock < 63 then clock + 1 else 0
  {
    if i :| 0 <= i < 64 && !refbits[i] {
      assert !AllSet(refbits);
    }
  }

  function AllBut(k: nat): (r: seq<bool>)
    ensures |r| == SLOTS && forall i | 0 <= i < SLOTS :: r[i] <==> i != k
  {
    seq(SLOTS, i => i != k)
  }

  /** A recently used slot can be the next victim although another is free for the taking. */
  lemma ReferencedVictim()
    ensures BitsAfter(AllBut(2))[HandAfter(AllBut(2), 0)] && !BitsAfter(AllBut(2))[2]
  {
    assert !AllBut(2)[2];
  }

  // ---------------------------------------------------------------- the cache

  datatype Request = Read(sector: nat, off: nat, size: nat) | Write(sector: nat, off: nat, bytes: seq<Byte>) | Flush

  ghost predicate InRange(r: Request, sectors: nat) {
    if r.Read? then r.sector < sectors && r.off + r.size <= SECTOR
    else if r.Write? then r.sector < sectors && r.off + |r.bytes| <= SECTOR
    else true
  }

  /** What a flat array of sectors does with a request. */
  ghost function FlatStep(flat: seq<Sector>, r: Request): (flat': seq<Sector>)
    requires InRange(r, |flat|)
    ensures |flat'| == |flat|
  {
    if r.Write? then flat[r.sector := Put(flat[r.sector], r.off, r.bytes)] else flat
  }

  ghost function FlatAnswer(flat: seq<Sector>, r: Request): seq<Byte>
    requires InRange(r, |flat|)
  {
    if r.Read? then flat[r.sector][r.off..r.off + r.size] else []
  }

  /** Two sectors agree outside the n bytes from off on. */
  ghost predicate Agree(a: Sector, b: Sector, off: nat, n: nat) {
    forall k | 0 <= k < SECTOR && !(off <= k < off + n) :: a[k] == b[k]
  }

  lemma PutAgree(a: Sector, b: Sector, off: nat, bytes: seq<Byte>)
    requires off + |bytes| <= SECTOR
    ensures Put(a, off, bytes) == Put(b, off, bytes) <==> Agree(a, b, off, |bytes|)
  {
    var pa, pb := Put(a, off, bytes), Put(b, off, bytes);
    if pa == pb {
      forall k | 0 <= k < SECTOR && !(off <= k < off + |bytes|) ensures a[k] == b[k] {
        assert pa[k] == pb[k];
      }
    }
  }

  /** The first n slots hold what their sectors hold on the disk. */
  ghost predicate Settled(slots: seq<Option<Entry>>, buf: seq<Byte>, disk: seq<Sector>, n: nat)
    requires |slots| == SLOTS && |buf| == SLOTS * SECTOR && n <= SLOTS
  {
    forall i | 0 <= i < n && slots[i].Some? :: slots[i].value.sector < |disk| && disk[slots[i].value.sector] == Slot(buf, i)
  }

  /** One step of the flush. */
  lemma FlushStep(index: map<nat, nat>, slots: seq<Option<Entry>>, buf: seq<Byte>, disk: seq<Sector>, i: nat)
    requires Consistent(index, slots, buf, disk) && i < SLOTS && Settled(slots, buf, disk, i)
    ensures var disk' := WriteBack(slots, buf, disk, i);
            && Consistent(index, slots, buf, disk') && Flat(index, buf, disk') == Flat(index, buf, disk)
            && Settled(slots, buf, disk', i + 1)
  {
    if slots[i].Some? {
      EvictInverse(index, slots, |disk|, i);
    }
    SameFlat(index, buf, disk, index, buf, WriteBack(slots, buf, disk, i));
  }

  /** What a new sector in slot i starts from: zeros over an evicted one, else the old memory. */
  function Background(slots: seq<Option<Entry>>, buf: seq<Byte>, i: nat): Sector
    requires i < SLOTS == |slots| && |buf| == SLOTS * SECTOR
  {
    if slots[i].Some? then Zeros() else Slot(buf, i)
  }

  // ---------------------------------------------------------------- the states of a cache

  datatype Snapshot = Snapshot(
    index: map<nat, nat>,
    slots: seq<Option<Entry>>,
    refbits: seq<bool>,
    clock: nat,
    buf: seq<Byte>,
    disk: seq<Sector>)

  ghost predicate Sound(c: Snapshot) {
    AsUnit(Consistent(c.index, c.slots, c.buf, c.disk)) && |c.refbits| == SLOTS && c.clock < SLOTS
  }

  ghost function ViewOf(c: Snapshot): (flat: seq<Sector>)
    requires Sound(c)
    ensures |flat| == |c.disk|
  {
    Flat(c.index, c.buf, c.disk)
  }

  ghost function Ticked(c: Snapshot): (c': Snapshot)
    requires Sound(c)
    ensures Sound(c') && ViewOf(c') == ViewOf(c)
  {
    c.(refbits := BitsAfter(c.refbits), clock := HandAfter(c.refbits, c.clock))
  }

  ghost function EvictedAt(c: Snapshot, i: nat): (c': Snapshot)
    requires Sound(c) && i < SLOTS
  {
    if c.slots[i].None? then c
    else c.(index := c.index - {c.slots[i].value.sector}, slots := c.slots[i := None],
            buf := Put(c.buf, i * SECTOR, Zeros()), disk := WriteBack(c.slots, c.buf, c.disk, i))
  }

  /** Eviction frees the slot and changes nothing a caller can see. */
  lemma EvictExact(c: Snapshot, i: nat)
    requires Sound(c) && i < SLOTS
    ensures var c' := EvictedAt(c, i);
            && Sound(c') && ViewOf(c') == ViewOf(c) && c'.slots[i].None? && |c'.disk| == |c.disk|
            && (forall s | s in c'.index :: s in c.index) && Slot(c'.buf, i) == Background(c.slots, c.buf, i)
            && (forall k | 0 <= k < SECTOR :: Slot(c'.buf, i)[k] == if c.slots[i].Some? then 0 else Slot(c.buf, i)[k])
            && (forall j | 0 <= j < SLOTS && j != i :: Slot(c'.buf, j) == Slot(c.buf, j))
  {
    if c.slots[i].Some? {
      PutChanges(c.buf, i, 0, Zeros());
      PutWhole(Slot(c.buf, i), Zeros());
      EvictView(c.index, c.slots, c.buf, Put(c.buf, i * SECTOR, Zeros()), c.disk, i);
    }
  }

  /** A sector gets slot i: its index entry, its bytes, its reference bit. */
  ghost function FilledAt(c: Snapshot, i: nat, entry: Entry, off: nat, bytes: seq<Byte>): Snapshot
    requires Sound(c) && i < SLOTS && off + |bytes| <= SECTOR
  {
    c.(index := c.index[entry.sector := i], slots := c.slots[i := Some(entry)], refbits := c.refbits[i := true],
       buf := Put(c.buf, i * SECTOR + off, bytes))
  }

  /** The cache once the hand has moved and its slot is free. */
  ghost function Cleared(c: Snapshot): (c': Snapshot)
    requires Sound(c)
    ensures Sound(c') && ViewOf(c') == ViewOf(c) && |c'.disk| == |c.disk| && c'.clock == HandAfter(c.refbits, c.clock)
    ensures c'.slots[c'.clock].None? && (forall s | s in c'.index :: s in c.index)
    ensures Slot(c'.buf, c'.clock) == Background(c.slots, c.buf, HandAfter(c.refbits, c.clock))
  {
    EvictExact(Ticked(c), Ticked(c).clock);
    EvictedAt(Ticked(c), Ticked(c).clock)
  }

  ghost function AfterRead(c: Snapshot, s: nat): Snapshot
    requires Sound(c) && s < |c.disk|
  {
    if s in c.index then c.(refbits := c.refbits[c.index[s] := true])
    else
      var e := Cleared(c);
      FilledAt(e, e.clock, Entry(s, false), 0, e.disk[s])
  }

  /** Bytes of the sector in slot i are overwritten. */
  ghost function UpdatedAt(c: Snapshot, i: nat, s: nat, off: nat, bytes: seq<Byte>): Snapshot
    requires Sound(c) && i < SLOTS && off + |bytes| <= SECTOR
  {
    c.(slots := c.slots[i := Some(Entry(s, true))], refbits := c.refbits[i := true], buf := Put(c.buf, i * SECTOR + off, bytes))
  }

  ghost function AfterWrite(c: Snapshot, s: nat, off: nat, bytes: seq<Byte>): Snapshot
    requires Sound(c) && s < |c.disk| && off + |bytes| <= SECTOR
  {
    if s in c.index then UpdatedAt(c, c.index[s], s, off, bytes)
    else
      var e := Cleared(c);
      FilledAt(e, e.clock, Entry(s, true), off, bytes)
  }

  /** The first n slots written back. */
  ghost function FlushedTo(c: Snapshot, n: nat): (c': Snapshot)
    requires Sound(c) && n <= SLOTS
    ensures AsUnit(Flushed(c, c', n))
  {
    if n == 0 then c
    else
      var d := FlushedTo(c, n - 1);
      FlushOne(c, d, n - 1);
      WrittenBack(d, n - 1)
  }

  /** Only the disk has changed, nothing that a caller can see, and the first n slots agree with it. */
  ghost predicate Flushed(c: Snapshot, c': Snapshot, n: nat)
    requires Sound(c) && n <= SLOTS
  {
    && Sound(c') && ViewOf(c') == ViewOf(c) && |c'.disk| == |c.disk| && c' == c.(disk := c'.disk)
    && Settled(c'.slots, c'.buf, c'.disk, n)
  }

  ghost function WrittenBack(c: Snapshot, i: nat): (c': Snapshot)
    requires Sound(c) && i < SLOTS
  {
    c.(disk := WriteBack(c.slots, c.buf, c.disk, i))
  }

  lemma FlushOne(c: Snapshot, d: Snapshot, i: nat)
    requires Sound(c) && i < SLOTS && Flushed(c, d, i)
    ensures AsUnit(Flushed(c, WrittenBack(d, i), i + 1))
  {
    FlushStep(d.index, d.slots, d.buf, d.disk, i);
  }

  /** A miss brings the sector in from the disk, and no read changes the view. */
  lemma ReadExact(c: Snapshot, s: nat)
    requires Sound(c) && s < |c.disk|
    ensures var c' := AfterRead(c, s);
            && Sound(c') && |c'.disk| == |c.disk| && ViewOf(c') == ViewOf(c)
            && s in c'.index && c'.refbits[c'.index[s]] && Slot(c'.buf, c'.index[s]) == ViewOf(c)[s]
  {
    if s !in c.index {
      var e := Cleared(c);
      PutChanges(e.buf, e.clock, 0, e.disk[s]);
      PutWhole(Slot(e.buf, e.clock), e.disk[s]);
      FillView(e.index, e.slots, e.buf, Put(e.buf, e.clock * SECTOR, e.disk[s]), e.disk, e.clock, s, false, e.disk[s]);
      assert ViewOf(e)[s := e.disk[s]] == ViewOf(e);
    }
  }

  /** Which sectors are cached after an access to s: on a hit the same ones; on a miss s takes the hand's slot, and only
      the sector that was there, if any, has to go. */
  ghost predicate Replaces(c: Snapshot, c': Snapshot, s: nat)
    requires Sound(c)
  {
    var h := HandAfter(c.refbits, c.clock);
    if s in c.index then c'.index == c.index && c'.clock == c.clock && c'.disk == c.disk && c'.refbits == c.refbits[c.index[s] := true]
    else
      && c'.clock == h && c'.refbits == BitsAfter(c.refbits)[h := true]
      && s in c'.index && c'.index[s] == h
      && (forall t | t != s :: t in c'.index <==> t in c.index && c.index[t] != h)
      && (forall t | t != s && t in c'.index :: c'.index[t] == c.index[t])
  }

  lemma AccessReplaces(c: Snapshot, s: nat, off: nat, bytes: seq<Byte>)
    requires Sound(c) && s < |c.disk| && off + |bytes| <= SECTOR
    ensures Replaces(c, AfterRead(c, s), s) && Replaces(c, AfterWrite(c, s, off, bytes), s)
    ensures s !in c.index ==> AfterRead(c, s).slots[HandAfter(c.refbits, c.clock)] == Some(Entry(s, false))
  {
    if s !in c.index {
      var h := HandAfter(c.refbits, c.clock);
      var e := Cleared(c);
      assert e.index == if c.slots[h].Some? then c.index - {c.slots[h].value.sector} else c.index;
      forall t | t in c.index ensures t in e.index <==> c.index[t] != h {
        assert c.slots[c.index[t]].value.sector == t;
      }
    }
  }

  /** The condition under which writing n bytes of a sector leaves its other bytes alone. */
  ghost predicate Lands(c: Snapshot, s: nat, off: nat, n: nat)
    requires Sound(c) && s < |c.disk|
  {
    s in c.index || Agree(Background(c.slots, c.buf, HandAfter(c.refbits, c.clock)), c.disk[s], off, n)
  }

  /** A write is the flat array's write if and only if it lands; other sectors never change. */
  lemma WriteExact(c: Snapshot, s: nat, off: nat, bytes: seq<Byte>)
    requires Sound(c) && s < |c.disk| && off + |bytes| <= SECTOR
    ensures var c' := AfterWrite(c, s, off, bytes);
            && Sound(c') && |c'.disk| == |c.disk| && s in c'.index && c'.refbits[c'.index[s]]
            && ViewOf(c') == ViewOf(c)[s := ViewOf(c')[s]] && ViewOf(c')[s][off..off + |bytes|] == bytes
            && (ViewOf(c') == ViewOf(c)[s := Put(ViewOf(c)[s], off, bytes)] <==> Lands(c, s, off, |bytes|))
  {
    var v := ViewOf(c);
    if s in c.index {
      HitExact(c, s, off, bytes);
      PutReads(v[s], off, bytes);
      OneSector(v, s, Put(v[s], off, bytes), Put(v[s], off, bytes));
    } else {
      var b := Background(c.slots, c.buf, HandAfter(c.refbits, c.clock));
      MissExact(c, s, off, bytes);
      PutReads(b, off, bytes);
      PutAgree(b, c.disk[s], off, bytes);
      OneSector(v, s, Put(b, off, bytes), Put(c.disk[s], off, bytes));
    }
  }

  lemma HitExact(c: Snapshot, s: nat, off: nat, bytes: seq<Byte>)
    requires Sound(c) && s < |c.disk| && off + |bytes| <= SECTOR && s in c.index
    ensures var c' := AfterWrite(c, s, off, bytes);
            && Sound(c') && |c'.disk| == |c.disk| && s in c'.index && c'.refbits[c'.index[s]]
            && ViewOf(c') == ViewOf(c)[s := Put(ViewOf(c)[s], off, bytes)]
  {
    UpdateExact(c, s, off, bytes);
  }

  lemma UpdateExact(c: Snapshot, s: nat, off: nat, bytes: seq<Byte>)
    requires Sound(c) && s < |c.disk| && off + |bytes| <= SECTOR && s in c.index
    ensures var c' := UpdatedAt(c, c.index[s], s, off, bytes);
            Sound(c') && ViewOf(c') == ViewOf(c)[s := Put(ViewOf(c)[s], off, bytes)]
  {
    UpdatePut(c.index, c.slots, c.buf, c.disk, s, off, bytes);
  }

  lemma MissExact(c: Snapshot, s: nat, off: nat, bytes: seq<Byte>)
    requires Sound(c) && s < |c.disk| && off + |bytes| <= SECTOR && s !in c.index
    ensures var c' := AfterWrite(c, s, off, bytes);
            && Sound(c') && |c'.disk| == |c.disk| && s in c'.index && c'.refbits[c'.index[s]]
            && ViewOf(c') == ViewOf(c)[s := Put(Background(c.slots, c.buf, HandAfter(c.refbits, c.clock)), off, bytes)]
  {
    FillExact(Cleared(c), s, off, bytes);
  }

  lemma FillExact(e: Snapshot, s: nat, off: nat, bytes: seq<Byte>)
    requires Sound(e) && s < |e.disk| && off + |bytes| <= SECTOR && s !in e.index && e.slots[e.clock].None?
    ensures var c' := FilledAt(e, e.clock, Entry(s, true), off, bytes);
            Sound(c') && ViewOf(c') == ViewOf(e)[s := Put(Slot(e.buf, e.clock), off, bytes)]
  {
    FillPut(e.index, e.slots, e.buf, e.disk, e.clock, s, off, bytes);
  }

  lemma PutReads(s: seq<Byte>, off: nat, bytes: seq<Byte>)
    requires off + |bytes| <= |s|
    ensures Put(s, off, bytes)[off..off + |bytes|] == bytes
  {
  }

  lemma OneSector(flat: seq<Sector>, s: nat, a: Sector, b: Sector)
    requires s < |flat|
    ensures flat[s := a] == flat[s := b] <==> a == b
    ensures flat[s := a] == flat[s := flat[s := a][s]] && flat[s := a][s] == a
  {
    assert flat[s := a][s] == a && flat[s := b][s] == b;
  }

  lemma FlushExact(c: Snapshot)
    requires Sound(c)
    ensures var c' := FlushedTo(c, SLOTS); c'.disk == ViewOf(c)
  {
  }

  // ---------------------------------------------------------------- runs

  /** What the cache does with a request. */
  ghost function After(c: Snapshot, r: Request): (c': Snapshot)
    requires Sound(c) && InRange(r, |c.disk|)
    ensures Sound(c') && |c'.disk| == |c.disk|
  {
    if r.Read? then
      ReadExact(c, r.sector);
      AfterRead(c, r.sector)
    else if r.Write? then
      WriteExact(c, r.sector, r.off, r.bytes);
      AfterWrite(c, r.sector, r.off, r.bytes)
    else FlushedTo(c, SLOTS)
  }

  /** What it answers. */
  ghost function AnswerOf(c: Snapshot, r: Request): seq<Byte>
    requires Sound(c) && InRange(r, |c.disk|)
  {
    if r.Read? then
      ReadExact(c, r.sector);
      var c' := AfterRead(c, r.sector);
      Slot(c'.buf, c'.index[r.sector])[r.off..r.off + r.size]
    else []
  }

  ghost predicate LandsIn(c: Snapshot, r: Request)
    requires Sound(c) && InRange(r, |c.disk|)
  {
    r.Write? ==> Lands(c, r.sector, r.off, |r.bytes|)
  }

  /** One request: the answer is always the flat array's, the new view exactly if a write lands. */
  lemma StepExact(c: Snapshot, r: Request)
    requires Sound(c) && InRange(r, |c.disk|)
    ensures ViewOf(After(c, r)) == FlatStep(ViewOf(c), r) <==> LandsIn(c, r)
    ensures AnswerOf(c, r) == FlatAnswer(ViewOf(c), r)
    ensures r.Flush? ==> After(c, r).disk == ViewOf(c)
  {
    if r.Read? {
      ReadExact(c, r.sector);
    } else if r.Write? {
      WriteExact(c, r.sector, r.off, r.bytes);
    } else {
      FlushExact(c);
    }
  }

  // The run theorems speak of total functions: outside the good states nothing happens.

  ghost predicate Good(c: Snapshot, n: nat) {
    Sound(c) && |c.disk| == n
  }

  ghost function Next(n: nat, c: Snapshot, r: Request): Snapshot {
    if Good(c, n) && InRange(r, n) then After(c, r) else c
  }

  ghost function Step(n: nat): (Snapshot, Request) -> Snapshot {
    (c, r) => Next(n, c, r)
  }

  ghost function Answer(n: nat): (Snapshot, Request) -> seq<Byte> {
    (c, r) => if Good(c, n) && InRange(r, n) then AnswerOf(c, r) else []
  }

  ghost function View(n: nat): Snapshot -> seq<Sector> {
    c => if Good(c, n) then ViewOf(c) else []
  }

  ghost function Landing(n: nat): (Snapshot, Request) -> bool {
    (c, r) => Good(c, n) && InRange(r, n) && LandsIn(c, r)
  }

  ghost function Flat1(n: nat): (seq<Sector>, Request) -> seq<Sector> {
    (flat, r) => if |flat| == n && InRange(r, n) then FlatStep(flat, r) else flat
  }

  ghost function FlatReply(n: nat): (seq<Sector>, Request) -> seq<Byte> {
    (flat, r) => if |flat| == n && InRange(r, n) then FlatAnswer(flat, r) else []
  }

  /** Each single request is exact: the cache simulates a flat array precisely when its write lands. */
  lemma CacheExact(n: nat)
    ensures Simulation.Exact(Step(n), Flat1(n), View(n), Landing(n), c => Good(c, n), r => InRange(r, n))
    ensures Simulation.SameAnswers(Answer(n), FlatReply(n), View(n), c => Good(c, n), r => InRange(r, n))
  {
    forall c, r | Good(c, n) && InRange(r, n)
      ensures Good(Step(n)(c, r), n)
      ensures View(n)(Step(n)(c, r)) == Flat1(n)(View(n)(c), r) <==> Landing(n)(c, r)
      ensures Answer(n)(c, r) == FlatReply(n)(View(n)(c), r)
    {
      CacheStep(n, c, r);
    }
  }

  lemma CacheStep(n: nat, c: Snapshot, r: Request)
    requires Good(c, n) && InRange(r, n)
    ensures Good(Step(n)(c, r), n)
    ensures View(n)(Step(n)(c, r)) == Flat1(n)(View(n)(c), r) <==> Landing(n)(c, r)
    ensures Answer(n)(c, r) == FlatReply(n)(View(n)(c), r)
  {
    StepExact(c, r);
    assert Step(n)(c, r) == After(c, r);
  }

  /** Over every run: the cache stays a flat array throughout if and only if every write lands in the
      state it meets. */
  lemma RunExact(c: Snapshot, rs: seq<Request>, n: nat)
    requires Good(c, n) && forall r | r in rs :: InRange(r, n)
    ensures (forall k | 0 <= k <= |rs| :: Simulation.AgreesAt(Step(n), Flat1(n), View(n), c, rs, k))
            <==> Simulation.AllLand(Step(n), Landing(n), c, rs, |rs|)
  {
    CacheExact(n);
    Simulation.RunExact(Step(n), Flat1(n), View(n), Landing(n), c => Good(c, n), r => InRange(r, n), c, rs);
  }

  /** The first write that does not land makes the difference. */
  lemma FirstMissDiffers(c: Snapshot, rs: seq<Request>, n: nat, k: nat)
    requires Good(c, n) && (forall r | r in rs :: InRange(r, n)) && k < |rs|
    requires Simulation.AllLand(Step(n), Landing(n), c, rs, k) && !Simulation.LandsAt(Step(n), Landing(n), c, rs, k)
    ensures Simulation.AgreesAt(Step(n), Flat1(n), View(n), c, rs, k)
    ensures !Simulation.AgreesAt(Step(n), Flat1(n), View(n), c, rs, k + 1)
  {
    CacheExact(n);
    Simulation.AgreesWhileLanding(Step(n), Flat1(n), View(n), Landing(n), c => Good(c, n), r => InRange(r, n), c, rs, k);
    Simulation.AgreesNext(Step(n), Flat1(n), View(n), Landing(n), c => Good(c, n), r => InRange(r, n), c, rs, k);
  }

  /** While every write lands, every answer is the flat array's. */
  lemma AnswersFlat(c: Snapshot, rs: seq<Request>, n: nat)
    requires Good(c, n) && (forall r | r in rs :: InRange(r, n))
    requires Simulation.AllLand(Step(n), Landing(n), c, rs, |rs|)
    ensures Simulation.AnswersTo(Step(n), Answer(n), c, rs, |rs|)
            == Simulation.AnswersTo(Flat1(n), FlatReply(n), View(n)(c), rs, |rs|)
  {
    CacheExact(n);
    Simulation.AnswersAgree(Step(n), Flat1(n), View(n), Landing(n), Answer(n), FlatReply(n),
                            c => Good(c, n), r => InRange(r, n), c, rs, |rs|);
  }

  lemma ReadHandled(c: Snapshot, s: nat, off: nat, size: nat, n: nat)
    requires Good(c, n) && s < n && off + size <= SECTOR
    ensures Step(n)(c, Read(s, off, size)) == AfterRead(c, s) && Answer(n)(c, Read(s, off, size)) == ViewOf(c)[s][off..off + size]
  {
    ReadExact(c, s);
  }

  lemma WriteHandled(c: Snapshot, s: nat, off: nat, bytes: seq<Byte>, n: nat)
    requires Good(c, n) && s < n && off + |bytes| <= SECTOR
    ensures Step(n)(c, Write(s, off, bytes)) == AfterWrite(c, s, off, bytes) && Answer(n)(c, Write(s, off, bytes)) == []
  {
  }

  lemma FlushHandled(c: Snapshot, n: nat)
    requires Good(c, n)
    ensures Step(n)(c, Flush) == FlushedTo(c, SLOTS) && Answer(n)(c, Flush) == []
  {
  }

  class Cache {
    var index: map<nat, nat>
    var slots: seq<Option<Entry>>
    var refbits: seq<bool>
    var clock: nat
    const buf: array<Byte>
    var disk: seq<Sector>

    ghost function Now(): Snapshot
      reads this, buf
    {
      Snapshot(index, slots, refbits, clock, buf[..], disk)
    }

    ghost predicate Valid()
      reads this, buf
    {
      Sound(Now())
    }

    ghost function View(): (flat: seq<Sector>)
      requires Valid()
      reads this, buf
      ensures |flat| == |disk|
    {
      ViewOf(Now())
    }

    /** An empty cache in front of a disk.  The slots' memory is whatever was there. */
    constructor (disk: seq<Sector>, memory: array<Byte>)
      requires memory.Length == SLOTS * SECTOR
      ensures Valid() && View() == disk && buf == memory
      ensures Now() == Snapshot(map[], seq(SLOTS, _ => None), seq(SLOTS, _ => false), 0, memory[..], disk)
    {
      index, slots, refbits, clock := map[], seq(SLOTS, _ => None), seq(SLOTS, _ => false), 0;
      this.disk := disk;
      buf := memory;
    }

    /** The hand moves at most one slot; the reference bits are cleared when all were set. */
    method UpdateClock()
      requires Valid()
      modifies this`refbits, this`clock
      ensures Now() == Ticked(old(Now()))
    {
      if AllSet(refbits) {
        refbits := seq(SLOTS, _ => false);
        clock := 0;
        return;
      }
      if refbits[clock] {
        clock := (clock + 1) % SLOTS;
      }
    }

    /** Writes a dirty slot back, drops its index entry and clears its memory. */
    method Evict(i: nat)
      requires Valid() && i < SLOTS
      modifies this`index, this`slots, this`disk, buf
      ensures Now() == EvictedAt(old(Now()), i)
      ensures Valid() && slots[i].None? && View() == old(View())
      ensures old(slots)[i].Some? ==> forall k | 0 <= k < SECTOR :: Slot(buf[..], i)[k] == 0
    {
      EvictExact(Now(), i);
      if slots[i].None? {
        return;
      }
      var entry := slots[i].value;
      if entry.dirty {
        disk := disk[entry.sector := Slot(buf[..], i)];
      }
      index := index - {entry.sector};
      slots := slots[i := None];
      Store(buf, i * SECTOR, Zeros());
    }

    /** Reading bytes of a sector: what the flat array holds there, and the flat array is unchanged. */
    method Read(sector: nat, off: nat, size: nat) returns (bytes: seq<Byte>)
      requires Valid() && sector < |disk| && off + size <= SECTOR
      modifies this, buf
      ensures Valid() && View() == old(View()) && |disk| == old(|disk|)
      ensures bytes == View()[sector][off..off + size]
      ensures Now() == AfterRead(old(Now()), sector)
    {
      ReadExact(Now(), sector);
      if sector in index {
        refbits := refbits[index[sector] := true];
      } else {
        UpdateClock();
        Evict(clock);
        Fill(Entry(sector, false), clock, 0, disk[sector]);
      }
      bytes := Slot(buf[..], index[sector])[off..off + size];
    }

    /** buffer_cache_insert: the index, the reference bit and the slot table. */
    method Insert(entry: Entry, hand: nat)
      requires |slots| == |refbits| == SLOTS && hand < SLOTS
      modifies this`index, this`slots, this`refbits
      ensures index == old(index)[entry.sector := hand]
      ensures slots == old(slots)[hand := Some(entry)] && refbits == old(refbits)[hand := true]
    {
      index := index[entry.sector := hand];
      refbits := refbits[hand := true];
      slots := slots[hand := Some(entry)];
    }

    /** Writing bytes of a sector.  A miss starts from the victim slot's memory and not from the disk,
        so the write is the flat array's write exactly if those agree outside the bytes written. */
    method Write(sector: nat, off: nat, bytes: seq<Byte>)
      requires Valid() && sector < |disk| && off + |bytes| <= SECTOR
      modifies this, buf
      ensures Valid() && |disk| == old(|disk|)
      ensures View() == old(View())[sector := Put(old(View())[sector], off, bytes)] <==> old(Lands(Now(), sector, off, |bytes|))
      ensures View() == old(View())[sector := View()[sector]] && View()[sector][off..off + |bytes|] == bytes
      ensures Now() == AfterWrite(old(Now()), sector, off, bytes)
    {
      WriteExact(Now(), sector, off, bytes);
      if sector in index {
        WriteExisting(sector, off, bytes);
      } else {
        UpdateClock();
        Evict(clock);
        Fill(Entry(sector, true), clock, off, bytes);
      }
    }

    method WriteExisting(sector: nat, off: nat, bytes: seq<Byte>)
      requires Valid() && sector < |disk| && sector in index && off + |bytes| <= SECTOR
      modifies this`slots, this`refbits, buf
      ensures Now() == AfterWrite(old(Now()), sector, off, bytes)
    {
      var i := index[sector];
      slots := slots[i := Some(Entry(sector, true))];
      refbits := refbits[i := true];
      Store(buf, i * SECTOR + off, bytes);
    }

    /** The new sector's entry and bytes go into slot `hand`. */
    method Fill(entry: Entry, hand: nat, off: nat, bytes: seq<Byte>)
      requires Valid() && hand < SLOTS && off + |bytes| <= SECTOR
      modifies this`index, this`slots, this`refbits, buf
      ensures Now() == FilledAt(old(Now()), hand, entry, off, bytes)
    {
      Insert(entry, hand);
      Store(buf, hand * SECTOR + off, bytes);
    }

    /** Writing back every dirty slot makes the disk equal to the flat array. */
    method Flush()
      requires Valid()
      modifies this`disk
      ensures Valid() && View() == old(View()) && disk == View()
      ensures Now() == FlushedTo(old(Now()), SLOTS)
    {
      ghost var c := Now();
      var i := 0;
      while i < SLOTS
        invariant i <= SLOTS && AsUnit(Now() == FlushedTo(c, i))
      {
        FlushSlot(i);
        i := i + 1;
      }
      FlushExact(c);
    }

    method FlushSlot(i: nat)
      requires Valid() && i < SLOTS
      modifies this`disk
      ensures Now() == WrittenBack(old(Now()), i)
    {
      if slots[i].Some? && slots[i].value.dirty {
        disk := disk[slots[i].value.sector := Slot(buf[..], i)];
      }
    }

    /** Every run of in-range requests goes through the states, and gives the answers, described above. */
    method Serve(rs: seq<Request>) returns (answers: seq<seq<Byte>>)
      requires Valid() && forall r | r in rs :: InRange(r, |disk|)
      modifies this, buf
      ensures Valid() && |disk| == old(|disk|)
      ensures AsUnit(Simulation.Reached(Step(|disk|), Answer(|disk|), old(Now()), rs, |rs|, Now(), answers))
    {
      answers := [];
      ghost var c, n := Now(), |disk|;
      Simulation.ReachesStart(Step(n), Answer(n), c, rs);
      var k := 0;
      while k < |rs|
        invariant k <= |rs| && Valid() && |disk| == n
        invariant AsUnit(Simulation.Reached(Step(n), Answer(n), c, rs, k, Now(), answers))
      {
        assert rs[k] in rs;
        ghost var now := Now();
        var answer := Handle(rs[k]);
        Simulation.ReachesNext(Step(n), Answer(n), c, rs, k, now, answers, Now(), answer);
        answers := answers + [answer];
        k := k + 1;
      }
    }

    method Handle(r: Request) returns (answer: seq<Byte>)
      requires Valid() && InRange(r, |disk|)
      modifies this, buf
      ensures Valid() && |disk| == old(|disk|)
      ensures AsUnit(Now() == Step(|disk|)(old(Now()), r) && answer == Answer(|disk|)(old(Now()), r))
    {
      ghost var c, n := Now(), |disk|;
      answer := [];
      match r
      case Read(s, off, size) =>
        answer := Read(s, off, size);
        ReadHandled(c, s, off, size, n);
      case Write(s, off, bytes) =>
        Write(s, off, bytes);
        WriteHandled(c, s, off, bytes, n);
      case Flush =>
        Flush();
        FlushHandled(c, n);
    }
  }

  // ---------------------------------------------------------------- a partial write that loses a byte

  function Ones(): (s: Sector)
    ensures forall k | 0 <= k < SECTOR :: s[k] == 1
  {
    seq(SECTOR, _ => 1)
  }

  /** The first k sectors of the disk have been read once each, into the first k slots. */
  ghost predicate Filling(c: Snapshot, k: nat) {
    && k <= SLOTS && Sound(c) && |c.disk| == SLOTS + 1 && c.disk[SLOTS] == Ones()
    && c.clock == (if k == 0 then 0 else k - 1)
    && (forall i | 0 <= i < SLOTS :: c.refbits[i] <==> i < k)
    && (forall i | 0 <= i < SLOTS :: c.slots[i].Some? <==> i < k)
    && (forall s | s in c.index :: s < k)
  }

  lemma FillNext(c: Snapshot, k: nat)
    requires Filling(c, k) && k < SLOTS
    ensures Filling(AfterRead(c, k), k + 1)
  {
    ReadExact(c, k);
    assert !c.refbits[k];
    assert HandAfter(c.refbits, c.clock) == k;
    assert Cleared(c) == c.(clock := k);
  }

  /** With every slot occupied and referenced, the next miss evicts slot 0, and what it writes into
      starts from zeros. */
  lemma FullDoesNotLand(c: Snapshot)
    requires Filling(c, SLOTS)
    ensures !Lands(c, SLOTS, 4, 4)
  {
    assert AllSet(c.refbits);
    assert Background(c.slots, c.buf, 0) == Zeros();
    assert Zeros()[0] != c.disk[SLOTS][0];
  }

  /** Reading 64 sectors and then writing four bytes into the middle of a 65th, which holds ones only: the
      bytes around the four are lost. */
  method LoseBytes() returns (cache: Cache, ghost flat: seq<Sector>)
    ensures cache.Valid() && |flat| == SLOTS + 1
    ensures cache.View() != flat[SLOTS := Put(flat[SLOTS], 4, [9, 9, 9, 9])]
  {
    var memory := new Byte[SLOTS * SECTOR];
    cache := new Cache(seq(SLOTS + 1, _ => Ones()), memory);
    flat := cache.View();
    var k := 0;
    while k < SLOTS
      invariant k <= SLOTS && Filling(cache.Now(), k) && cache.View() == flat && |flat| == SLOTS + 1
      invariant fresh(cache) && fresh(cache.buf)
    {
      FillNext(cache.Now(), k);
      var byte := cache.Read(k, 0, 1);
      k := k + 1;
    }
    FullDoesNotLand(cache.Now());
    cache.Write(SLOTS, 4, [9, 9, 9, 9]);
  }
}
