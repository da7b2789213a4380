/** What can stand in the way of mapping a range: tables and pages already there. */
module RangeObstacles {
  import opened Definitions
  import opened Indexing
  import opened PageTables
  import opened RangeMapping

  /** A 1 GiB page cannot start at `va`: the entry for it is in use. */
  predicate HugeObstacle<W>(m: Memory<W>, va: nat) {
    va % L1_ENTRY_SIZE == 0 && Missing(m, va) <= 1
  }

  /** A 2 MiB page cannot start at `va`: the entry for it is in use. */
  predicate LargeObstacle<W>(m: Memory<W>, va: nat) {
    va % L2_ENTRY_SIZE == 0 && Missing(m, va) == 0
  }

  /** The entry for the 512 GiB that start at `va` is in use. */
  predicate SlotInUse<W>(m: Memory<W>, va: nat) {
    va % L0_ENTRY_SIZE == 0 && Missing(m, va) <= 2
  }

  predicate SameObstacle<W>(m0: Memory<W>, m: Memory<W>, va: nat) {
    && HugeObstacle(m, va) == HugeObstacle(m0, va)
    && LargeObstacle(m, va) == LargeObstacle(m0, va)
    && SlotInUse(m, va) == SlotInUse(m0, va)
  }

  ghost predicate SameObstaclesFrom<W>(m0: Memory<W>, m: Memory<W>, lo: nat) {
    forall va: nat | lo <= va < MAX_BASE :: SameObstacle(m0, m, va)
  }

  lemma {:induction false} MissingAtMost<W>(m: Memory<W>, layer: nat, p: nat, va: nat)
    requires layer <= 3
    ensures MissingFrom(m, layer, p, va) <= 3 - layer
    decreases 3 - layer
  {
  }

  lemma NotBlocked<W>(m: Memory<W>, va: nat)
    requires 0 < Missing(m, va)
    ensures !Blocked(m, va)
  {
  }

  /** Nothing above table p is missing for an address in its range. */
  lemma {:induction false} MissingClimb<W>(m: Memory<W>, places: map<nat, Place>, p: nat, va: nat)
    requires Hangs(m, places) && p in places && InTable(places[p], va)
    ensures Missing(m, va) == MissingFrom(m, places[p].layer, p, va)
    decreases places[p].layer
  {
    hide EntrySize, EntryOk;
    var pl := places[p];
    assert Hung(m, places, p);
    if p != m.root {
      var up := places[pl.up];
      assert Hung(m, places, pl.up);
      SlotIsTable(up, pl.idx, pl.up);
      assert InSlot(up, pl.idx, va);
      SlotUnique(up, va, pl.idx);
      MissingClimb(m, places, pl.up, va);
    }
  }

  lemma {:induction false} MissingAgrees<W>(m: Memory<W>, places: map<nat, Place>, m': Memory<W>, p: nat, i: nat,
      q: nat, va: nat)
    requires Hangs(m, places) && AgreesOff(m, m', p, i) && p in places && !InSlot(places[p], i, va)
    requires q in places && InTable(places[q], va)
    ensures MissingFrom(m', places[q].layer, q, va) == MissingFrom(m, places[q].layer, q, va)
    decreases 4 - places[q].layer
  {
    hide EntrySize, EntryOk;
    var layer := places[q].layer;
    WalkEnters(m, places, q, va);
    var j := SlotOf(layer, va);
    assert WordAgrees(m, m', p, i, q, j);
    assert EntryAt(m', layer, q, j) == EntryAt(m, layer, q, j);
    var e := EntryAt(m, layer, q, j);
    if e.Directory? {
      MissingAgrees(m, places, m', p, i, e.addr, va);
    }
  }

  lemma MissingSame<W>(m: Memory<W>, places: map<nat, Place>, m': Memory<W>, p: nat, i: nat, va: nat)
    requires Hangs(m, places) && AgreesOff(m, m', p, i) && p in places && !InSlot(places[p], i, va) && va < MAX_BASE
    ensures Missing(m', va) == Missing(m, va)
  {
    hide EntrySize, EntryOk, MissingFrom;
    assert Hung(m, places, m.root);
    RootCovers(va);
    MissingAgrees(m, places, m', p, i, m.root, va);
  }

  // ----- what a write does to the obstacles behind it

  /** Filling an entry changes nothing behind it. */
  lemma FillKeepsObstacles<W>(m: Memory<W>, places: map<nat, Place>, m': Memory<W>, p: nat, i: nat)
    requires Hangs(m, places) && AgreesOff(m, m', p, i) && p in places
    ensures SameObstaclesFrom(m, m', SlotBase(places[p], i) + EntrySize(places[p].layer))
  {
    hide Hangs, AgreesOff, Missing, SlotBase;
    forall va: nat | SlotBase(places[p], i) + EntrySize(places[p].layer) <= va < MAX_BASE
      ensures SameObstacle(m, m', va)
    {
      MissingSame(m, places, m', p, i, va);
    }
  }

  /** In the range of an unused entry all lower tables are missing; with a new empty table there, all but one. */
  lemma NewTableMissing<W>(m: Memory<W>, places: map<nat, Place>, m': Memory<W>, places': map<nat, Place>,
      p: nat, i: nat, x: nat, va: nat)
    requires Hangs(m, places) && Hangs(m', places') && p in places && p in places' && places'[p] == places[p]
    requires places[p].layer < 3 && i < ENTRIES && InSlot(places[p], i, va)
    requires HasTable(m, p) && EntryAt(m, places[p].layer, p, i) == Empty
    requires HasTable(m', p) && EntryAt(m', places[p].layer, p, i) == Directory(x, PERMISSIVE)
    requires HasTable(m', x) && IsEmptyTable(m', places[p].layer + 1, x)
    ensures Missing(m, va) == 3 - places[p].layer && Missing(m', va) == 2 - places[p].layer
  {
    var layer := places[p].layer;
    assert Hung(m, places, p);
    SlotUnique(places[p], va, i);
    MissingClimb(m, places, p, va);
    MissingClimb(m', places', p, va);
    hide Hangs, Hung, Missing, SlotOf, InTable, InSlot;
    assert MissingFrom(m', layer + 1, x, va) == 2 - layer;
  }

  lemma MisalignedSame<W>(m: Memory<W>, m': Memory<W>, layer: nat, va: nat)
    requires layer < 3 && va % EntrySize(layer) != 0
    requires Missing(m, va) == 3 - layer && Missing(m', va) == 2 - layer
    ensures SameObstacle(m, m', va)
  {
  }

  lemma SameMissing<W>(m: Memory<W>, m': Memory<W>, va: nat)
    requires Missing(m', va) == Missing(m, va)
    ensures SameObstacle(m, m', va)
  {
  }

  lemma PlaceFits<W>(m: Memory<W>, places: map<nat, Place>, p: nat)
    requires Hangs(m, places) && p in places
    ensures PlaceOk(places[p])
  {
    assert Hung(m, places, p);
  }

  lemma BehindStart(pl: Place, i: nat, va: nat)
    requires PlaceOk(pl) && i < ENTRIES && InSlot(pl, i, va) && SlotBase(pl, i) < va
    ensures va % EntrySize(pl.layer) != 0
  {
    hide EntrySize, SlotBase;
    SlotAligned(pl, i);
  }

  /** Adding an empty table changes nothing behind the start of its range. */
  lemma TableKeepsObstacles<W>(m: Memory<W>, places: map<nat, Place>, m': Memory<W>, places': map<nat, Place>,
      p: nat, i: nat, x: nat)
    requires Hangs(m, places) && Hangs(m', places') && p in places && p in places' && places'[p] == places[p]
    requires AgreesOff(m, m', p, i) && places[p].layer < 3 && i < ENTRIES
    requires HasTable(m, p) && EntryAt(m, places[p].layer, p, i) == Empty
    requires HasTable(m', p) && EntryAt(m', places[p].layer, p, i) == Directory(x, PERMISSIVE)
    requires HasTable(m', x) && IsEmptyTable(m', places[p].layer + 1, x)
    ensures SameObstaclesFrom(m, m', SlotBase(places[p], i) + 1)
  {
    hide AgreesOff, EntryAt, EntrySize, Hangs, HasTable, InSlot, IsEmptyTable, Missing, PlaceOk, SameObstacle,
         SlotBase;
    forall va: nat | SlotBase(places[p], i) + 1 <= va < MAX_BASE ensures SameObstacle(m, m', va) {
      if InSlot(places[p], i, va) {
        NewTableMissing(m, places, m', places', p, i, x, va);
        PlaceFits(m, places, p);
        BehindStart(places[p], i, va);
        MisalignedSame(m, m', places[p].layer, va);
      } else {
        MissingSame(m, places, m', p, i, va);
        SameMissing(m, m', va);
      }
    }
  }

  /** An entry in use is an obstacle at the start of its range. */
  lemma EntryInUse<W>(m: Memory<W>, places: map<nat, Place>, p: nat, i: nat)
    requires Hangs(m, places) && p in places && 0 < places[p].layer < 3 && i < ENTRIES
    requires HasTable(m, p) && EntryAt(m, places[p].layer, p, i) != Empty
    ensures places[p].layer == 1 ==> HugeObstacle(m, SlotBase(places[p], i))
    ensures places[p].layer == 2 ==> LargeObstacle(m, SlotBase(places[p], i))
  {
    var pl := places[p];
    var va := SlotBase(pl, i);
    assert PlaceOk(pl) by { assert Hung(m, places, p); }
    SlotAligned(pl, i);
    assert InSlot(pl, i, va);
    SlotUnique(pl, va, i);
    MissingClimb(m, places, p, va);
    var e := EntryAt(m, pl.layer, p, i);
    if e.Directory? {
      MissingAtMost(m, pl.layer + 1, e.addr, va);
    }
    hide Hangs, Hung, Missing, SlotOf, InTable, InSlot;
  }

  lemma SameObstaclesTwice<W>(m0: Memory<W>, m1: Memory<W>, m2: Memory<W>, lo: nat, mid: nat)
    requires SameObstaclesFrom(m0, m1, lo) && SameObstaclesFrom(m1, m2, mid) && lo <= mid
    ensures SameObstaclesFrom(m0, m2, mid)
  {
    forall va: nat | mid <= va < MAX_BASE ensures SameObstacle(m0, m2, va) {
      assert SameObstacle(m0, m1, va) && SameObstacle(m1, m2, va);
      hide HugeObstacle, LargeObstacle, SlotInUse;
    }
  }
}
