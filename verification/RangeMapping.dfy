/** Ranges of addresses mapped linearly, and what filling table entries one by one does to them. */
module RangeMapping {
  import opened Definitions
  import opened Indexing
  import opened PageTables
  import opened PageTableWrites

  /** The walk of `va` ends at physical address `pa`, with flags f. */
  predicate Translates(t: Translation, va: nat, pa: nat, f: Flags) {
    t.Hit? && t.flags == f && t.addr + va % EntrySize(t.layer) == pa
  }

  /** Every address of [vbase, vbase + len) goes to its counterpart from pbase. */
  ghost predicate MapsRange<W>(m: Memory<W>, vbase: nat, pbase: nat, len: nat, f: Flags) {
    forall o: nat | o < len :: MapsOffset(m, vbase, pbase, o, f)
  }

  predicate MapsOffset<W>(m: Memory<W>, vbase: nat, pbase: nat, o: nat, f: Flags) {
    Translates(Walk(m, vbase + o), vbase + o, pbase + o, f)
  }

  /** Every address outside [lo, hi) walks as before. */
  ghost predicate SameOutside<W>(m0: Memory<W>, m: Memory<W>, lo: nat, hi: nat) {
    forall va: nat | va < MAX_BASE && !(lo <= va < hi) :: Walk(m, va) == Walk(m0, va)
  }

  lemma SameOutsideTwice<W>(m0: Memory<W>, m1: Memory<W>, m2: Memory<W>, lo: nat, mid: nat, hi: nat)
    requires SameOutside(m0, m1, lo, mid) && SameOutside(m1, m2, mid, hi) && lo <= mid <= hi
    ensures SameOutside(m0, m2, lo, hi)
  {
  }

  /** Two ranges mapped one after the other make one. */
  lemma MapsRangeTwice<W>(m1: Memory<W>, m2: Memory<W>, vbase: nat, pbase: nat, len: nat, more: nat, f: Flags)
    requires MapsRange(m1, vbase, pbase, len, f) && SameOutside(m1, m2, vbase + len, vbase + len + more)
    requires MapsRange(m2, vbase + len, pbase + len, more, f) && vbase + len + more <= MAX_BASE
    ensures MapsRange(m2, vbase, pbase, len + more, f)
  {
    hide Walk;
    forall o: nat | o < len + more ensures MapsOffset(m2, vbase, pbase, o, f) {
      var va := vbase + o;
      if o < len {
        assert MapsOffset(m1, vbase, pbase, o, f);
        assert Walk(m2, va) == Walk(m1, va);
      } else {
        assert MapsOffset(m2, vbase + len, pbase + len, o - len, f);
      }
    }
  }

  lemma RangeGrows<W>(m0: Memory<W>, m1: Memory<W>, m2: Memory<W>, vbase: nat, pbase: nat, len: nat, more: nat,
      f: Flags)
    requires SameOutside(m0, m1, vbase, vbase + len) && SameOutside(m1, m2, vbase + len, vbase + len + more)
    requires MapsRange(m1, vbase, pbase, len, f) && MapsRange(m2, vbase + len, pbase + len, more, f)
    requires vbase + len + more <= MAX_BASE
    ensures SameOutside(m0, m2, vbase, vbase + len + more)
    ensures MapsRange(m2, vbase, pbase, len + more, f)
  {
    hide *;
    SameOutsideTwice(m0, m1, m2, vbase, vbase + len, vbase + len + more);
    MapsRangeTwice(m1, m2, vbase, pbase, len, more, f);
  }

  lemma OffsetInBlock(base: nat, size: nat, o: nat)
    requires size > 0 && base % size == 0 && o < size
    ensures (base + o) % size == o
  {
    assert base == base / size * size;
    IndexOfUnique(0, base + o, size, base / size);
  }

  /** Writing a page into an entry that holds no table maps exactly the addresses of that entry. */
  lemma StorePageMaps<W>(m: Memory<W>, places: map<nat, Place>, p: nat, i: nat, w: W)
    requires Hangs(m, places) && p in places && i < ENTRIES
    requires HasTable(m, p) && !EntryAt(m, places[p].layer, p, i).Directory?
    requires var e := m.view(places[p].layer, w); e.Page? && EntryOk(places, m.root, p, i, e)
    ensures Hangs(Store(m, p, i, w), places)
    ensures
      var pl := places[p];
      var e := m.view(pl.layer, w);
      && SameOutside(m, Store(m, p, i, w), SlotBase(pl, i), SlotBase(pl, i) + EntrySize(pl.layer))
      && MapsRange(Store(m, p, i, w), SlotBase(pl, i), e.addr, EntrySize(pl.layer), e.flags)
      && (forall va: nat | InSlot(pl, i, va) :: Walk(Store(m, p, i, w), va) == Hit(pl.layer, e.addr, e.flags))
  {
    hide EntryAt, EntryOk, EntrySize, Hangs, HasTable, MapsRange, PlaceOk, SlotBase, Store, Walk;
    var pl := places[p];
    var m' := Store(m, p, i, w);
    var e := m.view(pl.layer, w);
    StoreLeafWalks(m, places, p, i, w);
    SlotAligned(pl, i);
    BlockMapsRange(m', SlotBase(pl, i), pl.layer, e.addr, e.flags);
  }

  /** An aligned block translated by one entry is mapped linearly. */
  lemma BlockMapsRange<W>(m: Memory<W>, base: nat, layer: nat, addr: nat, f: Flags)
    requires base % EntrySize(layer) == 0
    requires forall va: nat | base <= va < base + EntrySize(layer) :: Walk(m, va) == Hit(layer, addr, f)
    ensures MapsRange(m, base, addr, EntrySize(layer), f)
  {
    hide EntrySize, Walk;
    forall o: nat | o < EntrySize(layer) ensures MapsOffset(m, base, addr, o, f) {
      var va := base + o;
      assert Walk(m, va) == Hit(layer, addr, f);
      OffsetInBlock(base, EntrySize(layer), o);
    }
  }

  // ----- tables missing on the way to an address

  /** How many tables a 4 KiB mapping of `va` would have to add. */
  function MissingFrom<W>(m: Memory<W>, layer: nat, p: nat, va: nat): nat
    decreases 4 - layer
  {
    if layer >= 3 || !HasTable(m, p) then 0
    else
      match EntryAt(m, layer, p, SlotOf(layer, va))
      case Empty => 3 - layer
      case Page(_, _) => 0
      case Directory(q, _) => MissingFrom(m, layer + 1, q, va)
  }

  function Missing<W>(m: Memory<W>, va: nat): nat {
    MissingFrom(m, 0, m.root, va)
  }

  /** A larger page below table p covers `va`. */
  predicate BlockedFrom<W>(m: Memory<W>, layer: nat, p: nat, va: nat) {
    WalkFrom(m, layer, p, va).Hit? && WalkFrom(m, layer, p, va).layer < 3
  }

  predicate Blocked<W>(m: Memory<W>, va: nat) {
    BlockedFrom(m, 0, m.root, va)
  }

  lemma BlockedSame<W>(m: Memory<W>, m': Memory<W>, va: nat)
    requires Walk(m', va) == Walk(m, va)
    ensures Blocked(m', va) == Blocked(m, va)
  {
  }
}
