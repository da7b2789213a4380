/** Which tables a page table consists of: one for each range that some mapping needs divided, and no other. */
module PageTableUse {
  import opened Definitions
  import opened Indexing
  import opened PageTables

  /** Some mapping in the table's range is at most as large as one of its entries. */
  ghost predicate Needed(mappings: map<nat, PTE>, layer: nat, base: nat) {
    exists b: nat :: b in mappings && base <= b < base + TableSize(layer) && mappings[b].frame.size <= EntrySize(layer)
  }

  ghost predicate TableFor(places: map<nat, Place>, layer: nat, base: nat) {
    exists p: nat :: p in places && places[p].layer == layer && places[p].base == base
  }

  lemma SizesShrink(k: nat, l: nat)
    requires k <= l < 4
    ensures EntrySize(l) <= EntrySize(k) && EntrySize(k) % EntrySize(l) == 0 && TableSize(k) % EntrySize(l) == 0
  {
  }

  /** Two aligned tables of one layer that share an address are the same range. */
  lemma SameRange(a: Place, b: Place, va: nat)
    requires PlaceOk(a) && PlaceOk(b) && a.layer == b.layer && InTable(a, va) && InTable(b, va)
    ensures a.base == b.base
  {
    hide EntrySize;
    SameBlock(a.base, va, TableSize(a.layer));
    SameBlock(b.base, va, TableSize(a.layer));
  }

  /** No range has two tables. */
  lemma {:induction false} OneTablePerRange<W>(m: Memory<W>, places: map<nat, Place>, p: nat, q: nat)
    requires Hangs(m, places) && p in places && q in places
    requires places[p].layer == places[q].layer && places[p].base == places[q].base
    ensures p == q
    decreases places[p].layer
  {
    hide EntrySize, EntryOk;
    assert Hung(m, places, p) && Hung(m, places, q);
    if p != m.root && q != m.root {
      var pl, ql := places[p], places[q];
      assert Hung(m, places, pl.up) && Hung(m, places, ql.up);
      assert InSlot(places[pl.up], pl.idx, pl.base) && InSlot(places[ql.up], ql.idx, pl.base);
      SlotUnique(places[pl.up], pl.base, pl.idx);
      SlotUnique(places[ql.up], pl.base, ql.idx);
      SameRange(places[pl.up], places[ql.up], pl.base);
      OneTablePerRange(m, places, pl.up, ql.up);
    }
  }

  /** A walk that hits at layer l went through one table of every layer up to l. */
  lemma {:induction false} WalkPassesThrough<W>(m: Memory<W>, places: map<nat, Place>, p: nat, va: nat, layer: nat)
    returns (q: nat)
    requires Hangs(m, places) && p in places && InTable(places[p], va)
    requires WalkFrom(m, places[p].layer, p, va).Hit?
    requires places[p].layer <= layer <= WalkFrom(m, places[p].layer, p, va).layer
    ensures q in places && places[q].layer == layer && InTable(places[q], va)
    decreases 4 - places[p].layer
  {
    hide EntrySize;
    if places[p].layer == layer {
      q := p;
    } else {
      WalkEnters(m, places, p, va);
      var e := EntryAt(m, places[p].layer, p, SlotOf(places[p].layer, va));
      assert e.Directory?;
      q := WalkPassesThrough(m, places, e.addr, va, layer);
    }
  }

  lemma MappedWalk<W>(m: Memory<W>, b: nat)
    requires b in Interp(m)
    ensures b < MAX_BASE && Walk(m, b).Hit? && Interp(m)[b].frame.size == EntrySize(Walk(m, b).layer)
  {
    hide EntrySize;
  }

  lemma NeededHasTable<W>(m: Memory<W>, places: map<nat, Place>, layer: nat, base: nat)
    requires Hangs(m, places) && layer < 4 && base % TableSize(layer) == 0 && base + TableSize(layer) <= MAX_BASE
    requires Needed(Interp(m), layer, base)
    ensures TableFor(places, layer, base)
  {
    hide EntrySize, Hangs, Interp, TableSize, Walk;
    var b: nat :| b in Interp(m) && base <= b < base + TableSize(layer) && Interp(m)[b].frame.size <= EntrySize(layer);
    MappedWalk(m, b);
    if Walk(m, b).layer < layer { SizesApart(Walk(m, b).layer, layer); }
    var q := TableAbove(m, places, b, layer);
    SameRange(places[q], Place(layer, base, 0, 0), b);
  }

  lemma TableAbove<W>(m: Memory<W>, places: map<nat, Place>, va: nat, layer: nat) returns (q: nat)
    requires Hangs(m, places) && va < MAX_BASE && Walk(m, va).Hit? && layer <= Walk(m, va).layer
    ensures q in places && places[q].layer == layer && InTable(places[q], va) && PlaceOk(places[q])
  {
    hide EntryAt, EntryOk, EntrySize, HasTable, TableSize, WalkFrom;
    RootCovers(va);
    assert Hung(m, places, m.root);
    q := WalkPassesThrough(m, places, m.root, va, layer);
    assert Hung(m, places, q);
  }

  lemma SizesApart(k: nat, l: nat)
    requires k < l < 4
    ensures EntrySize(l) < EntrySize(k)
  {
  }

  lemma EntryUsed<W>(m: Memory<W>, places: map<nat, Place>, p: nat) returns (i: nat)
    requires Hangs(m, places) && NonEmpty(m, places, m.root) && p in places && p != m.root
    ensures HasTable(m, p) && PlaceOk(places[p]) && m.root in places && places[m.root].layer == 0
    ensures i < ENTRIES && EntryAt(m, places[p].layer, p, i) != Empty
  {
    assert Hung(m, places, p) && Hung(m, places, m.root);
    hide EntryOk, TableSize;
    i :| i < ENTRIES && EntryAt(m, places[p].layer, p, i) != Empty;
  }

  lemma TableIsNeeded<W>(m: Memory<W>, places: map<nat, Place>, p: nat)
    requires Hangs(m, places) && NonEmpty(m, places, m.root) && p in places && p != m.root
    ensures Needed(Interp(m), places[p].layer, places[p].base)
  {
    hide EntryAt, EntryOk, EntrySize, Hangs, HasTable, Hung, InSlot, Interp, MappingAt, NonEmpty, PlaceOk, SlotOf,
         TableSize, Walk, WalkFrom;
    var pl := places[p];
    var i := EntryUsed(m, places, p);
    var va := NonEmptyHits(m, places, m.root, p, i);
    SlotUnique(pl, va, i);
    var b := HitIsMapped(m, va);
    var l := Walk(m, va).layer;
    WalkClimb(m, places, p, va);
    HitLayer(m, pl.layer, p, va);
    SizesShrink(pl.layer, l);
    MappedIsHit(m, b, va);
    BlockInTable(pl, b, va, l);
  }

  /** A page that covers an address of a table's range, and is no larger, starts in it. */
  lemma BlockInTable(pl: Place, b: nat, va: nat, l: nat)
    requires PlaceOk(pl) && InTable(pl, va) && pl.layer <= l < 4
    requires b % EntrySize(l) == 0 && b <= va < b + EntrySize(l)
    ensures pl.base <= b < pl.base + TableSize(pl.layer)
  {
    SizesShrink(pl.layer, l);
    TablePositive(pl.layer);
    hide EntrySize, TableSize;
    MultipleOf(pl.base, TableSize(pl.layer), EntrySize(l));
    BlockInside(b, va, EntrySize(l), pl.base);
  }

  lemma TablePositive(layer: nat)
    ensures TableSize(layer) > 0
  {
  }

  lemma BlockInside(b: nat, va: nat, size: nat, base: nat)
    requires size > 0 && b % size == 0 && b <= va < b + size && base % size == 0 && base <= va
    ensures base <= b
  {
    var x, y := b / size, base / size;
    assert b == x * size && base == y * size;
    assert (x + 1) * size == x * size + size;
    if x < y { MulMono(x + 1, y, size); }
  }

  /** The tables in memory are exactly the root and one for each aligned range that a mapping needs divided:
      nothing leaks, nothing is shared, and removing the last mapping of a range removes its table. */
  lemma TablesAreNeeded<W>(m: Memory<W>, places: map<nat, Place>, layer: nat, base: nat)
    requires Hangs(m, places) && NonEmpty(m, places, m.root)
    requires 0 < layer < 4 && base % TableSize(layer) == 0 && base + TableSize(layer) <= MAX_BASE
    ensures TableFor(places, layer, base) <==> Needed(Interp(m), layer, base)
    ensures forall p: nat, q: nat | p in places && q in places
      && places[p].layer == places[q].layer && places[p].base == places[q].base :: p == q
  {
    hide EntryAt, EntryOk, HasTable, Interp, MappingAt, Needed, NonEmpty, PlaceOk, SlotBase, TableSize, Walk;
    if Needed(Interp(m), layer, base) {
      NeededHasTable(m, places, layer, base);
    }
    if TableFor(places, layer, base) {
      var p: nat :| p in places && places[p].layer == layer && places[p].base == base;
      assert p != m.root by { assert Hung(m, places, m.root); }
      TableIsNeeded(m, places, p);
    }
    forall p: nat, q: nat | p in places && q in places
      && places[p].layer == places[q].layer && places[p].base == places[q].base
      ensures p == q
    {
      OneTablePerRange(m, places, p, q);
    }
  }

  // ----- which tables a call frees

  /** Some mapping starts in the table's range. */
  ghost predicate HoldsMapping(mappings: map<nat, PTE>, pl: Place) {
    exists b: nat :: b in mappings && InTable(pl, b)
  }

  lemma TableHolds<W>(m: Memory<W>, places: map<nat, Place>, p: nat)
    requires Hangs(m, places) && NonEmpty(m, places, m.root) && p in places && p != m.root
    ensures HoldsMapping(Interp(m), places[p])
  {
    hide Hangs, NonEmpty, TableSize;
    TableIsNeeded(m, places, p);
    var b: nat :| b in Interp(m) && places[p].base <= b < places[p].base + TableSize(places[p].layer);
    assert InTable(places[p], b);
  }

  /** A mapping in a table's range is no larger than one of the table's entries. */
  lemma HoldingIsNeeding<W>(m: Memory<W>, places: map<nat, Place>, p: nat, b: nat)
    requires Hangs(m, places) && p in places && InTable(places[p], b) && b in Interp(m)
    ensures PlaceOk(places[p]) && Interp(m)[b].frame.size <= EntrySize(places[p].layer)
  {
    assert PlaceOk(places[p]) by { assert Hung(m, places, p); }
    hide *;
    SizePositive(m, b);
    MappedIsHit(m, b, b);
    WalkClimb(m, places, p, b);
    HitLayer(m, places[p].layer, p, b);
    SizesShrink(places[p].layer, Walk(m, b).layer);
  }

  lemma SizePositive<W>(m: Memory<W>, b: nat)
    requires b in Interp(m)
    ensures 0 < Interp(m)[b].frame.size
  {
  }

  /** A table that some mapping of the smaller map needs is still there. */
  lemma HoldingIsKept<W>(m0: Memory<W>, places0: map<nat, Place>, m: Memory<W>, places: map<nat, Place>, p: nat)
    requires Hangs(m0, places0) && Hangs(m, places) && p in places0
    requires forall q: nat | q in places :: q in places0 && places[q] == places0[q]
    requires forall b: nat | b in Interp(m) :: b in Interp(m0) && Interp(m)[b] == Interp(m0)[b]
    requires HoldsMapping(Interp(m), places0[p])
    ensures p in places
  {
    var pl := places0[p];
    var b: nat :| b in Interp(m) && InTable(pl, b);
    HoldingIsNeeding(m0, places0, p, b);
    assert Needed(Interp(m), pl.layer, pl.base);
    hide Hangs, Interp, Needed, EntrySize, TableSize;
    NeededHasTable(m, places, pl.layer, pl.base);
    var q: nat :| q in places && places[q].layer == pl.layer && places[q].base == pl.base;
    OneTablePerRange(m0, places0, p, q);
  }

  /** If mappings and tables only go away, and no empty table is left, the tables that stay are
      exactly the root and those that still hold a mapping. */
  lemma ExactlyEmptiedGo<W>(m0: Memory<W>, places0: map<nat, Place>, m: Memory<W>, places: map<nat, Place>, p: nat)
    requires Hangs(m0, places0) && Hangs(m, places) && NonEmpty(m, places, m.root) && m.root == m0.root && p in places0
    requires forall q: nat | q in places :: q in places0 && places[q] == places0[q]
    requires forall b: nat | b in Interp(m) :: b in Interp(m0) && Interp(m)[b] == Interp(m0)[b]
    ensures p in places <==> p == m.root || HoldsMapping(Interp(m), places0[p])
  {
    assert m.root in places by { assert Hung(m, places, m.root); }
    hide Hangs, NonEmpty, HoldsMapping;
    if p in places && p != m.root {
      TableHolds(m, places, p);
    }
    if HoldsMapping(Interp(m), places0[p]) {
      HoldingIsKept(m0, places0, m, places, p);
    }
  }
}
