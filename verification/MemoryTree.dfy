/** The tree that a page table in memory spells out, and how the two move together. */
module MemoryTree {
  import opened Definitions
  import opened Indexing
  import D = DirectoryTree
  import DR = DirectoryRefinement
  import opened PageTables
  import FlatMap

  const X86 := D.Arch([D.ArchLayer(L0_ENTRY_SIZE, 512), D.ArchLayer(L1_ENTRY_SIZE, 512),
                       D.ArchLayer(L2_ENTRY_SIZE, 512), D.ArchLayer(L3_ENTRY_SIZE, 512)])

  lemma X86Facts()
    ensures D.ArchInv(X86) && DR.Splits(X86)
  {
  }

  lemma X86Sizes(layer: nat)
    requires layer < 4
    ensures D.Size(X86, layer) == EntrySize(layer) && D.Num(X86, layer) == ENTRIES &&
      D.Span(X86, layer) == TableSize(layer)
  {
  }

  function NodeOf<W>(m: Memory<W>, layer: nat, base: nat, e: Entry): D.NodeEntry
    decreases 4 - layer, 0
  {
    match e
    case Empty => D.Free
    case Page(addr, f) => D.Leaf(PTE(MemRegion(addr, EntrySize(layer)), f))
    case Directory(addr, _) => if layer < 4 then D.Dir(TreeOf(m, layer + 1, addr, base)) else D.Free
  }

  /** The directory that table p spells out. */
  function TreeOf<W>(m: Memory<W>, layer: nat, p: nat, base: nat): D.Directory
    decreases 4 - layer, 1
  {
    if layer >= 4 || !HasTable(m, p) then D.Directory([], layer, base, PERMISSIVE)
    else
      D.Directory(seq(ENTRIES, (i: nat) requires i < ENTRIES && HasTable(m, p) && layer < 4 =>
                        NodeOf(m, layer, EntryBase(base, i, EntrySize(layer)), EntryAt(m, layer, p, i))),
                  layer, base, PERMISSIVE)
  }

  lemma NodeAt<W>(m: Memory<W>, layer: nat, p: nat, base: nat, i: nat)
    requires layer < 4 && HasTable(m, p) && i < ENTRIES
    ensures |TreeOf(m, layer, p, base).entries| == ENTRIES
    ensures TreeOf(m, layer, p, base).entries[i]
         == NodeOf(m, layer, EntryBase(base, i, EntrySize(layer)), EntryAt(m, layer, p, i))
  {
  }

  lemma {:induction false} TreeInv<W>(m: Memory<W>, places: map<nat, Place>, p: nat)
    requires Hangs(m, places) && NonEmpty(m, places, m.root) && p in places
    ensures D.Inv(X86, TreeOf(m, places[p].layer, p, places[p].base))
    ensures p != m.root ==> !D.IsEmpty(TreeOf(m, places[p].layer, p, places[p].base))
    decreases 4 - places[p].layer
  {
    hide EntrySize, TableSize, D.Size, D.Num, D.Span, D.ArchInv;
    var pl := places[p];
    var d := TreeOf(m, pl.layer, p, pl.base);
    assert Hung(m, places, p);
    X86Facts();
    X86Sizes(pl.layer);
    assert D.WellFormed(X86, d);
    forall i: nat | i < ENTRIES
      ensures d.entries[i].Leaf? ==> D.LeafOk(X86, d, d.entries[i].pte)
      ensures d.entries[i].Dir? ==> D.DirOk(X86, d, i, d.entries[i].dir) && D.Inv(X86, d.entries[i].dir)
      ensures d.entries[i] == D.Free <==> EntryAt(m, pl.layer, p, i) == Empty
    {
      NodeAt(m, pl.layer, p, pl.base, i);
      var e := EntryAt(m, pl.layer, p, i);
      assert EntryOk(places, m.root, p, i, e);
      if e.Directory? {
        TreeInv(m, places, e.addr);
      }
    }
    if p != m.root {
      var i: nat :| i < ENTRIES && EntryAt(m, pl.layer, p, i) != Empty;
      assert d.entries[i] != D.Free;
    }
  }

  lemma {:induction false} TreeAt<W>(m: Memory<W>, places: map<nat, Place>, p: nat, va: nat)
    requires Hangs(m, places) && NonEmpty(m, places, m.root) && p in places
    ensures D.At(X86, TreeOf(m, places[p].layer, p, places[p].base), va)
         == if InTable(places[p], va) then MappingAt(WalkFrom(m, places[p].layer, p, va), va) else None
    decreases 4 - places[p].layer
  {
    hide D.At, D.DirOk, D.IsEmpty, D.LeafOk, D.Num, D.Size, D.Span, D.WellFormed, EntryAt, EntryBase, EntrySize,
         Hangs, HasTable, MappingAt, NonEmpty, PlaceOk, SlotOf, TableSize, TreeOf, WalkFrom;
    var pl := places[p];
    var d := TreeOf(m, pl.layer, p, pl.base);
    TreeInv(m, places, p);
    TreePlace(m, pl.layer, p, pl.base);
    assert D.WellFormed(X86, d);
    PlaceThere(m, places, p);
    X86Sizes(pl.layer);
    if InTable(pl, va) {
      var i := SlotOf(pl.layer, va);
      EntryThere(m, places, p, va);
      NodeAt(m, pl.layer, p, pl.base, i);
      assert D.Start(X86, d, i) == SlotBase(pl, i);
      D.AtEntry(X86, d, va, i);
      var e := EntryAt(m, pl.layer, p, i);
      if e.Directory? {
        assert D.At(X86, d, va) == D.At(X86, TreeOf(m, pl.layer + 1, e.addr, SlotBase(pl, i)), va);
        TreeAt(m, places, e.addr, va);
        WalkThrough(m, pl.layer, p, va);
      } else {
        LeafAt(m, pl, p, i, va);
        assert D.At(X86, d, va) == MappingAt(WalkFrom(m, pl.layer, p, va), va);
      }
    } else if D.At(X86, d, va).Some? {
      D.AtInRange(X86, d, va);
    }
  }

  lemma PlaceThere<W>(m: Memory<W>, places: map<nat, Place>, p: nat)
    requires Hangs(m, places) && p in places
    ensures HasTable(m, p) && places[p].layer < 4 && PlaceOk(places[p])
  {
    assert Hung(m, places, p);
  }

  lemma EntryThere<W>(m: Memory<W>, places: map<nat, Place>, p: nat, va: nat)
    requires Hangs(m, places) && p in places && InTable(places[p], va) && HasTable(m, p)
    ensures
      var pl := places[p];
      var i := SlotOf(pl.layer, va);
      var e := EntryAt(m, pl.layer, p, i);
      && InSlot(pl, i, va)
      && (e.Page? ==> 0 < pl.layer)
      && (e.Directory? ==> pl.layer < 3 && e.flags == PERMISSIVE && e.addr in places && InTable(places[e.addr], va)
                           && places[e.addr] == Place(pl.layer + 1, SlotBase(pl, i), p, i))
  {
    WalkEnters(m, places, p, va);
    var i := SlotOf(places[p].layer, va);
    assert EntryOk(places, m.root, p, i, EntryAt(m, places[p].layer, p, i));
    hide EntrySize, Hung;
  }

  lemma LeafAt<W>(m: Memory<W>, pl: Place, p: nat, i: nat, va: nat)
    requires HasTable(m, p) && PlaceOk(pl) && i == SlotOf(pl.layer, va) && InSlot(pl, i, va)
    requires !EntryAt(m, pl.layer, p, i).Directory? && (EntryAt(m, pl.layer, p, i).Page? ==> 0 < pl.layer)
    ensures
      var e := EntryAt(m, pl.layer, p, i);
      MappingAt(WalkFrom(m, pl.layer, p, va), va)
        == if e.Page? && va == SlotBase(pl, i) then Some(PTE(MemRegion(e.addr, EntrySize(pl.layer)), e.flags)) else None
  {
    SlotAligned(pl, i);
    hide EntrySize, SlotOf;
  }

  lemma WalkThrough<W>(m: Memory<W>, layer: nat, p: nat, va: nat)
    requires layer < 4 && HasTable(m, p)
    requires var e := EntryAt(m, layer, p, SlotOf(layer, va)); e.Directory? && e.flags == PERMISSIVE
    ensures WalkFrom(m, layer, p, va) == WalkFrom(m, layer + 1, EntryAt(m, layer, p, SlotOf(layer, va)).addr, va)
  {
  }

  lemma TreePlace<W>(m: Memory<W>, layer: nat, p: nat, base: nat)
    ensures TreeOf(m, layer, p, base).layer == layer && TreeOf(m, layer, p, base).base == base
  {
  }

  ghost function RootTree<W>(m: Memory<W>): D.Directory {
    TreeOf(m, 0, m.root, 0)
  }

  /** The tree in memory, read with division-based indices, denotes exactly what the hardware's walk sees. */
  lemma TreeDenotesMemory<W>(m: Memory<W>, places: map<nat, Place>)
    requires Hangs(m, places) && NonEmpty(m, places, m.root)
    ensures D.Inv(X86, RootTree(m)) && RootTree(m).layer == 0 && RootTree(m).base == 0
    ensures D.Interp(X86, RootTree(m)) == Interp(m)
  {
    assert Hung(m, places, m.root);
    TreeInv(m, places, m.root);
    TreePlace(m, 0, m.root, 0);
    hide D.At, WalkFrom, TreeOf, Hangs, NonEmpty, D.Inv;
    forall va: nat ensures D.At(X86, RootTree(m), va) == if va in Interp(m) then Some(Interp(m)[va]) else None {
      TreeAt(m, places, m.root, va);
      if va < MAX_BASE { RootCovers(va); }
      RootEnds();
    }
    DR.InterpEqual(X86, RootTree(m), Interp(m));
  }

  lemma RootEnds()
    ensures TableSize(0) == MAX_BASE
  {
  }

  /** Memory whose view gained a mapping spells out the tree that mapping it produces. */
  lemma MapMovesTree<W>(m: Memory<W>, places: map<nat, Place>, m': Memory<W>, places': map<nat, Place>, base: nat,
      pte: PTE)
    requires Hangs(m, places) && NonEmpty(m, places, m.root)
    requires Hangs(m', places') && NonEmpty(m', places', m'.root)
    requires D.Inv(X86, RootTree(m)) && D.Accepted(X86, RootTree(m), base, pte)
    requires FlatMap.MapFrame(Interp(m), base, pte) == Ok(Interp(m'))
    ensures D.MapFrame(X86, RootTree(m), base, pte) == Ok(RootTree(m'))
  {
    hide *;
    X86Facts();
    TreeDenotesMemory(m, places);
    TreeDenotesMemory(m', places');
    DR.MapFrameRefines(X86, RootTree(m), base, pte);
    DR.Canonical(X86, D.MapFrame(X86, RootTree(m), base, pte).value, RootTree(m'));
  }

  /** Memory whose view lost a mapping spells out the tree that unmapping it produces. */
  lemma UnmapMovesTree<W>(m: Memory<W>, places: map<nat, Place>, m': Memory<W>, places': map<nat, Place>, base: nat)
    requires Hangs(m, places) && NonEmpty(m, places, m.root)
    requires Hangs(m', places') && NonEmpty(m', places', m'.root)
    requires D.Inv(X86, RootTree(m)) && RootTree(m).base <= base < RootTree(m).base + D.Span(X86, RootTree(m).layer)
    requires FlatMap.Unmap(Interp(m), base) == Ok(Interp(m'))
    ensures D.Unmap(X86, RootTree(m), base) == Ok(RootTree(m'))
  {
    hide *;
    X86Facts();
    TreeDenotesMemory(m, places);
    TreeDenotesMemory(m', places');
    DR.UnmapRefines(X86, RootTree(m), base);
    DR.Canonical(X86, D.Unmap(X86, RootTree(m), base).value, RootTree(m'));
  }
}
