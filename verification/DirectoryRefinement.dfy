/** The tree means a flat map, its operations are the map's, and no two trees mean the same map. */
module DirectoryRefinement {
  import opened Definitions
  import opened Indexing
  import opened DirectoryTree
  import FlatMap

  lemma InterpEqual(a: Arch, d: Directory, m: map<nat, PTE>)
    requires Inv(a, d)
    requires forall va: nat :: At(a, d, va) == if va in m then Some(m[va]) else None
    ensures Interp(a, d) == m
  {
    forall va: nat
      ensures va in Interp(a, d) <==> va in m
      ensures va in Interp(a, d) ==> Interp(a, d)[va] == m[va]
    {
      InterpAt(a, d, va);
    }
    hide At, Interp, Inv;
  }

  lemma AtInterp(a: Arch, d: Directory, va: nat)
    requires Inv(a, d)
    ensures At(a, d, va) == if va in Interp(a, d) then Some(Interp(a, d)[va]) else None
  {
    InterpAt(a, d, va);
  }

  /** Mapping in the tree is mapping in the flat map, and keeps the tree in shape. */
  lemma MapFrameRefines(a: Arch, d: Directory, base: nat, pte: PTE)
    requires Inv(a, d) && Accepted(a, d, base, pte)
    ensures
      match MapFrame(a, d, base, pte)
      case Ok(d') =>
        && Inv(a, d') && d'.layer == d.layer && d'.base == d.base
        && FlatMap.MapFrame(Interp(a, d), base, pte) == Ok(Interp(a, d'))
      case Err => FlatMap.MapFrame(Interp(a, d), base, pte) == Err
  {
    hide Accepted, At, Interp, Inv, IsEmpty, MapFrame, Overlaps, OverlapsExistingVmem;
    MapFrameErr(a, d, base, pte);
    OverlapsInterp(a, d, base, pte);
    if MapFrame(a, d, base, pte).Ok? {
      var d' := MapFrame(a, d, base, pte).value;
      var m := Interp(a, d)[base := pte];
      MapFrameInv(a, d, base, pte);
      forall va: nat ensures At(a, d', va) == if va in m then Some(m[va]) else None {
        MapFrameAt(a, d, base, pte, va);
        AtInterp(a, d, va);
      }
      InterpEqual(a, d', m);
    }
  }

  /** Unmapping in the tree is unmapping in the flat map, and keeps the tree in shape. */
  lemma UnmapRefines(a: Arch, d: Directory, base: nat)
    requires Inv(a, d) && d.base <= base < d.base + Span(a, d.layer)
    ensures
      match Unmap(a, d, base)
      case Ok(d') =>
        && Inv(a, d') && d'.layer == d.layer && d'.base == d.base
        && FlatMap.Unmap(Interp(a, d), base) == Ok(Interp(a, d'))
      case Err => FlatMap.Unmap(Interp(a, d), base) == Err
  {
    hide At, Interp, Inv, Span, Unmap;
    UnmapAt(a, d, base, base);
    AtInterp(a, d, base);
    if Unmap(a, d, base).Ok? {
      var d' := Unmap(a, d, base).value;
      var m := Interp(a, d) - {base};
      UnmapInv(a, d, base);
      forall va: nat ensures At(a, d', va) == if va in m then Some(m[va]) else None {
        UnmapAt(a, d, base, va);
        AtInterp(a, d, va);
      }
      InterpEqual(a, d', m);
    }
  }

  // ----- looking up

  lemma {:induction false} ResolveAt(a: Arch, d: Directory, va: nat)
    requires Inv(a, d) && Resolve(a, d, va).Ok?
    ensures var (b, pte) := Resolve(a, d, va).value; At(a, d, b) == Some(pte) && b <= va < b + pte.frame.size
    decreases d
  {
    var size := Size(a, d.layer);
    var i := IndexOf(d.base, va, size);
    IndexOfBounds(d.base, va, size);
    match d.entries[i]
    case Leaf(pte) => AtEntry(a, d, Start(a, d, i), i);
    case Dir(e) =>
      ResolveAt(a, e, va);
      var b := Resolve(a, e, va).value.0;
      AtInRange(a, e, b);
      ChildRange(a, d, i, e);
      AtEntry(a, d, b, i);
    case Free =>
  }

  /** Whatever mapping covers `va` is the one that the lookup finds. */
  lemma {:induction false} CoveringFound(a: Arch, d: Directory, va: nat, b: nat)
    requires Inv(a, d) && At(a, d, b).Some? && b <= va < b + At(a, d, b).value.frame.size
    ensures Resolve(a, d, va) == Ok((b, At(a, d, b).value))
    decreases d
  {
    AtFits(a, d, b);
    var size := Size(a, d.layer);
    var i := IndexOf(d.base, b, size);
    IndexOfBounds(d.base, b, size);
    IndexOfUnique(d.base, va, size, i);
    match d.entries[i]
    case Leaf(_) =>
    case Dir(e) => CoveringFound(a, e, va, b);
    case Free =>
  }

  lemma ResolveRefines(a: Arch, d: Directory, va: nat)
    requires Inv(a, d)
    ensures FlatMap.Resolves(Interp(a, d), va, Resolve(a, d, va))
  {
    hide At, Interp, Inv, Resolve;
    if Resolve(a, d, va).Ok? {
      ResolveAt(a, d, va);
      AtInterp(a, d, Resolve(a, d, va).value.0);
    }
    forall b: nat | FlatMap.Covers(Interp(a, d), b, va) ensures Resolve(a, d, va) == Ok((b, Interp(a, d)[b])) {
      AtInterp(a, d, b);
      CoveringFound(a, d, va, b);
    }
  }

  // ----- no two trees mean the same map

  /** Every table below the top layer has at least two entries. */
  predicate Splits(a: Arch) {
    forall i: nat | 0 < i < |a.layers| :: 1 < a.layers[i].numEntries
  }

  lemma SmallerBelow(a: Arch, layer: nat)
    requires ArchInv(a) && Splits(a) && layer + 1 < |a.layers|
    ensures Size(a, layer + 1) < Size(a, layer)
  {
    MulMono(2, Num(a, layer + 1), Size(a, layer + 1));
  }

  /** A directory in entry i maps some address there, to a smaller page than the entry could be. */
  lemma DirMapsSmaller(a: Arch, d: Directory, i: nat) returns (va: nat)
    requires Splits(a) && Inv(a, d) && i < |d.entries| && d.entries[i].Dir?
    ensures Start(a, d, i) <= va < Start(a, d, i) + Size(a, d.layer)
    ensures At(a, d, va).Some? && At(a, d, va).value.frame.size < Size(a, d.layer)
  {
    var e := d.entries[i].dir;
    assert Inv(a, e);
    va := NonEmptyMaps(a, e);
    AtInRange(a, e, va);
    ChildRange(a, d, i, e);
    AtEntry(a, d, va, i);
    AtFits(a, e, va);
    SmallerBelow(a, d.layer);
  }

  /** A page in entry i maps one address there, to a page of the entry's size. */
  lemma LeafMapsWhole(a: Arch, d: Directory, i: nat, va: nat)
    requires Inv(a, d) && i < |d.entries| && d.entries[i].Leaf?
    requires Start(a, d, i) <= va < Start(a, d, i) + Size(a, d.layer)
    ensures At(a, d, va) == if va == Start(a, d, i) then Some(d.entries[i].pte) else None
    ensures d.entries[i].pte.frame.size == Size(a, d.layer)
  {
    AtEntry(a, d, va, i);
    assert LeafOk(a, d, d.entries[i].pte);
  }

  lemma FreeMapsNothing(a: Arch, d: Directory, i: nat, va: nat)
    requires Inv(a, d) && i < |d.entries| && d.entries[i].Free?
    requires Start(a, d, i) <= va < Start(a, d, i) + Size(a, d.layer)
    ensures At(a, d, va) == None
  {
    AtEntry(a, d, va, i);
  }

  lemma SmallerThanEntry(a: Arch, d: Directory, i: nat, va: nat)
    requires Splits(a) && Inv(a, d) && i < |d.entries| && d.entries[i].Dir?
    requires Start(a, d, i) <= va < Start(a, d, i) + Size(a, d.layer) && At(a, d, va).Some?
    ensures At(a, d, va).value.frame.size < Size(a, d.layer)
  {
    var e := d.entries[i].dir;
    assert Inv(a, e);
    AtEntry(a, d, va, i);
    ChildRange(a, d, i, e);
    AtFits(a, e, va);
    SmallerBelow(a, d.layer);
  }

  lemma SameShape(a: Arch, d1: Directory, d2: Directory)
    requires Inv(a, d1) && Inv(a, d2) && d1.layer == d2.layer && d1.base == d2.base
    ensures |d1.entries| == |d2.entries| && 0 < Size(a, d1.layer)
    ensures forall i: nat :: Start(a, d1, i) == Start(a, d2, i)
  {
  }

  lemma DirStaysDir(a: Arch, d1: Directory, d2: Directory, i: nat)
    requires Splits(a) && Inv(a, d1) && Inv(a, d2) && d1.layer == d2.layer && d1.base == d2.base
    requires forall va: nat :: At(a, d1, va) == At(a, d2, va)
    requires i < |d1.entries| && i < |d2.entries| && d1.entries[i].Dir?
    ensures d2.entries[i].Dir?
  {
    SameShape(a, d1, d2);
    hide *;
    var va := DirMapsSmaller(a, d1, i);
    assert At(a, d1, va) == At(a, d2, va);
    if d2.entries[i].Leaf? {
      LeafMapsWhole(a, d2, i, va);
    } else if d2.entries[i].Free? {
      FreeMapsNothing(a, d2, i, va);
    }
  }

  lemma LeafStaysLeaf(a: Arch, d1: Directory, d2: Directory, i: nat)
    requires Splits(a) && Inv(a, d1) && Inv(a, d2) && d1.layer == d2.layer && d1.base == d2.base
    requires forall va: nat :: At(a, d1, va) == At(a, d2, va)
    requires i < |d1.entries| && i < |d2.entries| && d1.entries[i].Leaf?
    ensures d2.entries[i] == d1.entries[i]
  {
    SameShape(a, d1, d2);
    hide *;
    var va := Start(a, d1, i);
    assert At(a, d1, va) == At(a, d2, va);
    LeafMapsWhole(a, d1, i, va);
    if d2.entries[i].Leaf? {
      LeafMapsWhole(a, d2, i, va);
    } else if d2.entries[i].Dir? {
      SmallerThanEntry(a, d2, i, va);
    } else {
      FreeMapsNothing(a, d2, i, va);
    }
  }

  lemma ChildSame(a: Arch, d1: Directory, d2: Directory, i: nat, va: nat)
    requires Inv(a, d1) && Inv(a, d2) && d1.layer == d2.layer && d1.base == d2.base
    requires At(a, d1, va) == At(a, d2, va)
    requires i < |d1.entries| && d1.entries[i].Dir? && d2.entries[i].Dir?
    ensures At(a, d1.entries[i].dir, va) == At(a, d2.entries[i].dir, va)
  {
    var e1, e2 := d1.entries[i].dir, d2.entries[i].dir;
    ChildRange(a, d1, i, e1);
    ChildRange(a, d2, i, e2);
    if Start(a, d1, i) <= va < Start(a, d1, i) + Size(a, d1.layer) {
      AtEntry(a, d1, va, i);
      AtEntry(a, d2, va, i);
    } else {
      if At(a, e1, va).Some? { AtInRange(a, e1, va); }
      if At(a, e2, va).Some? { AtInRange(a, e2, va); }
    }
  }

  lemma {:induction false} SameMappingsSameTree(a: Arch, d1: Directory, d2: Directory)
    requires Splits(a) && Inv(a, d1) && Inv(a, d2) && d1.layer == d2.layer && d1.base == d2.base
    requires forall va: nat :: At(a, d1, va) == At(a, d2, va)
    ensures d1 == d2
    decreases d1
  {
    hide At;
    SameShape(a, d1, d2);
    forall i: nat | i < |d1.entries| ensures d1.entries[i] == d2.entries[i] {
      if d1.entries[i].Leaf? {
        LeafStaysLeaf(a, d1, d2, i);
      } else if d2.entries[i].Leaf? {
        LeafStaysLeaf(a, d2, d1, i);
      } else if d1.entries[i].Dir? {
        DirStaysDir(a, d1, d2, i);
        var e1, e2 := d1.entries[i].dir, d2.entries[i].dir;
        forall va: nat ensures At(a, e1, va) == At(a, e2, va) {
          ChildSame(a, d1, d2, i, va);
        }
        SameMappingsSameTree(a, e1, e2);
      } else if d2.entries[i].Dir? {
        DirStaysDir(a, d2, d1, i);
      }
    }
    assert d1.entries == d2.entries;
  }

  /** Two trees of one layer and base that denote the same map are the same tree. */
  lemma Canonical(a: Arch, d1: Directory, d2: Directory)
    requires Splits(a) && Inv(a, d1) && Inv(a, d2) && d1.layer == d2.layer && d1.base == d2.base
    requires Interp(a, d1) == Interp(a, d2)
    ensures d1 == d2
  {
    hide *;
    forall va: nat ensures At(a, d1, va) == At(a, d2, va) {
      AtInterp(a, d1, va);
      AtInterp(a, d2, va);
    }
    SameMappingsSameTree(a, d1, d2);
  }

  ghost predicate IsCanonical(a: Arch) {
    forall d1: Directory, d2: Directory | Inv(a, d1) && Inv(a, d2) && d1.layer == d2.layer && d1.base == d2.base ::
      Interp(a, d1) == Interp(a, d2) ==> d1 == d2
  }

  /** A table with first entry `n` and nothing else. */
  function Single(a: Arch, layer: nat, n: NodeEntry): Directory
  {
    Directory(seq(Num(a, layer), (i: nat) => if i == 0 then n else Free), layer, 0, PERMISSIVE)
  }

  lemma SingleAt(a: Arch, layer: nat, n: NodeEntry, va: nat)
    requires ArchInv(a) && layer < |a.layers|
    ensures n.Leaf? ==> At(a, Single(a, layer, n), va) == if va == 0 then Some(n.pte) else None
    ensures n.Dir? && va < Size(a, layer) ==> At(a, Single(a, layer, n), va) == At(a, n.dir, va)
    ensures n.Dir? && Size(a, layer) <= va ==> At(a, Single(a, layer, n), va) == None
  {
    var d, size := Single(a, layer, n), Size(a, layer);
    IndexOfBounds(0, va, size);
    assert 0 % Span(a, layer) == 0;
    if va < size {
      AtEntry(a, d, va, 0);
    }
  }

  lemma SingleInv(a: Arch, layer: nat, n: NodeEntry)
    requires ArchInv(a) && layer < |a.layers|
    requires n.Leaf? ==> n.pte == PTE(MemRegion(0, Size(a, layer)), PERMISSIVE)
    requires n.Dir? ==> n.dir.layer == layer + 1 && n.dir.base == 0 && !IsEmpty(n.dir) && Inv(a, n.dir)
    ensures Inv(a, Single(a, layer, n))
    ensures n != Free ==> !IsEmpty(Single(a, layer, n))
  {
    var d := Single(a, layer, n);
    assert d.entries[0] == n;
    assert 0 % Span(a, layer) == 0;
  }

  /** A layer of one-entry tables makes the form ambiguous: a page, or a table holding just that page. */
  lemma OneEntryTablesAmbiguous(a: Arch, i: nat)
    requires ArchInv(a) && 0 < i < |a.layers| && a.layers[i].numEntries == 1
    ensures !IsCanonical(a)
  {
    var pte := PTE(MemRegion(0, Size(a, i)), PERMISSIVE);
    assert Size(a, i - 1) == Size(a, i);
    var inner := Single(a, i, Leaf(pte));
    var d1, d2 := Single(a, i - 1, Leaf(pte)), Single(a, i - 1, Dir(inner));
    SingleInv(a, i, Leaf(pte));
    SingleInv(a, i - 1, Leaf(pte));
    SingleInv(a, i - 1, Dir(inner));
    assert d1.entries[0] != d2.entries[0];
    var m := map[0 := pte];
    hide At, Interp, Inv, IsEmpty, Num, Span;
    forall va: nat
      ensures At(a, d1, va) == if va in m then Some(m[va]) else None
      ensures At(a, d2, va) == if va in m then Some(m[va]) else None
    {
      SingleAt(a, i - 1, Leaf(pte), va);
      SingleAt(a, i, Leaf(pte), va);
      SingleAt(a, i - 1, Dir(inner), va);
      assert 0 < Size(a, i - 1);
    }
    InterpEqual(a, d1, m);
    InterpEqual(a, d2, m);
    assert d1.layer == d2.layer && d1.base == d2.base;
  }

  /** The tree form is canonical exactly for layerings whose lower tables all have more than one entry. */
  lemma CanonicalExactly(a: Arch)
    requires ArchInv(a)
    ensures IsCanonical(a) <==> Splits(a)
  {
    if Splits(a) {
      forall d1: Directory, d2: Directory | Inv(a, d1) && Inv(a, d2) && d1.layer == d2.layer && d1.base == d2.base
        ensures Interp(a, d1) == Interp(a, d2) ==> d1 == d2
      {
        hide *;
        if Interp(a, d1) == Interp(a, d2) {
          Canonical(a, d1, d2);
        }
      }
    } else {
      var i: nat :| 0 < i < |a.layers| && a.layers[i].numEntries <= 1;
      OneEntryTablesAmbiguous(a, i);
    }
  }

  lemma MappedOverlaps(m: map<nat, PTE>, base: nat, pte: PTE)
    ensures base in m ==> OverlapsExistingVmem(m, base, pte)
  {
  }

  /** Mapping a frame and unmapping it again gives back the very same tree. */
  lemma MapThenUnmap(a: Arch, d: Directory, base: nat, pte: PTE)
    requires Splits(a) && Inv(a, d) && Accepted(a, d, base, pte) && MapFrame(a, d, base, pte).Ok?
    ensures
      var d' := MapFrame(a, d, base, pte).value;
      Inv(a, d') && d'.base <= base < d'.base + Span(a, d'.layer) && Unmap(a, d', base) == Ok(d)
  {
    var d' := MapFrame(a, d, base, pte).value;
    assert d.base <= base < d.base + Span(a, d.layer);
    hide Interp, Inv, IsEmpty, MapFrame, OverlapsExistingVmem, Size, Span, Splits, Unmap;
    MapFrameRefines(a, d, base, pte);
    UnmapRefines(a, d', base);
    MappedOverlaps(Interp(a, d), base, pte);
    assert Interp(a, d') - {base} == Interp(a, d);
    Canonical(a, Unmap(a, d', base).value, d);
  }
}
