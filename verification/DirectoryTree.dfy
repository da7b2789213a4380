/** The page table as a tree, over any layering of entry sizes. */
module DirectoryTree {
  import opened Definitions
  import opened Indexing
  import FlatMap

  datatype ArchLayer = ArchLayer(entrySize: nat, numEntries: nat)

  datatype Arch = Arch(layers: seq<ArchLayer>)

  datatype NodeEntry = Dir(dir: Directory) | Leaf(pte: PTE) | Free

  datatype Directory = Directory(entries: seq<NodeEntry>, layer: nat, base: nat, flags: Flags)

  /** An entry of one layer covers exactly a table of the next. */
  ghost predicate ArchInv(a: Arch) {
    && |a.layers| <= 4
    && (forall i: nat | i < |a.layers| ::
          0 < a.layers[i].entrySize <= L0_ENTRY_SIZE && 0 < a.layers[i].numEntries <= 512)
    && (forall i: nat | i + 1 < |a.layers| :: Size(a, i) == Span(a, i + 1))
  }

  function Size(a: Arch, layer: nat): nat {
    if layer < |a.layers| then a.layers[layer].entrySize else 0
  }

  function Num(a: Arch, layer: nat): nat {
    if layer < |a.layers| then a.layers[layer].numEntries else 0
  }

  function Span(a: Arch, layer: nat): nat {
    Num(a, layer) * Size(a, layer)
  }

  function Start(a: Arch, d: Directory, i: nat): nat {
    EntryBase(d.base, i, Size(a, d.layer))
  }

  predicate IsEmpty(d: Directory) {
    forall i: nat | i < |d.entries| :: d.entries[i] == Free
  }

  ghost predicate WellFormed(a: Arch, d: Directory) {
    && ArchInv(a)
    && d.layer < |a.layers|
    && d.base % Span(a, d.layer) == 0
    && |d.entries| == Num(a, d.layer)
    && d.flags == PERMISSIVE
  }

  predicate LeafOk(a: Arch, d: Directory, pte: PTE) {
    pte.frame.size == Size(a, d.layer) && 0 < Size(a, d.layer) && pte.frame.base % Size(a, d.layer) == 0
  }

  predicate DirOk(a: Arch, d: Directory, i: nat, e: Directory) {
    e.layer == d.layer + 1 && e.base == Start(a, d, i) && !IsEmpty(e)
  }

  ghost predicate Inv(a: Arch, d: Directory)
    decreases d
  {
    && WellFormed(a, d)
    && (forall i: nat | i < |d.entries| && d.entries[i].Leaf? :: LeafOk(a, d, d.entries[i].pte))
    && (forall i: nat | i < |d.entries| && d.entries[i].Dir? :: DirOk(a, d, i, d.entries[i].dir))
    && (forall i: nat | i < |d.entries| && d.entries[i].Dir? :: Inv(a, d.entries[i].dir))
  }

  // ----- the map that a directory denotes

  /** The mappings of entries i and up. */
  ghost function InterpFrom(a: Arch, d: Directory, i: nat): map<nat, PTE>
    decreases d, |d.entries| - i
  {
    if i >= |d.entries| then map[] else
      InterpFrom(a, d, i + 1) +
      match d.entries[i]
      case Free => map[]
      case Leaf(pte) => map[Start(a, d, i) := pte]
      case Dir(e) => InterpFrom(a, e, 0)
  }

  ghost function Interp(a: Arch, d: Directory): map<nat, PTE> {
    InterpFrom(a, d, 0)
  }

  /** The mapping that starts at `va`, found by indexing. */
  function At(a: Arch, d: Directory, va: nat): Option<PTE>
    decreases d
  {
    if va < d.base || Size(a, d.layer) == 0 then None else
      var i := IndexOf(d.base, va, Size(a, d.layer));
      if i >= |d.entries| then None else
        match d.entries[i]
        case Free => None
        case Leaf(pte) => if va == Start(a, d, i) then Some(pte) else None
        case Dir(e) => At(a, e, va)
  }

  lemma Slot(a: Arch, d: Directory, va: nat)
    requires WellFormed(a, d) && d.base <= va < d.base + Span(a, d.layer)
    ensures 0 < Size(a, d.layer)
    ensures
      var i := IndexOf(d.base, va, Size(a, d.layer));
      i < |d.entries| && Start(a, d, i) <= va < Start(a, d, i) + Size(a, d.layer)
  {
    IndexOfBounds(d.base, va, Size(a, d.layer));
    IndexInTable(d.base, va, Size(a, d.layer), Num(a, d.layer));
  }

  lemma AtInRange(a: Arch, d: Directory, va: nat)
    requires WellFormed(a, d) && At(a, d, va).Some?
    ensures d.base <= va < d.base + Span(a, d.layer)
  {
    var size := Size(a, d.layer);
    var i := IndexOf(d.base, va, size);
    IndexOfBounds(d.base, va, size);
    EntryInTable(d.base, i, size, Num(a, d.layer));
  }

  /** A directory in entry i covers exactly the range of that entry. */
  lemma ChildRange(a: Arch, d: Directory, i: nat, e: Directory)
    requires WellFormed(a, d) && WellFormed(a, e) && i < |d.entries| && DirOk(a, d, i, e)
    ensures e.base == Start(a, d, i) && Span(a, e.layer) == Size(a, d.layer)
  {
  }

  /** The union of the entries' mappings is what indexing finds. */
  lemma {:induction false} InterpFromAt(a: Arch, d: Directory, i: nat, va: nat)
    requires Inv(a, d) && i <= |d.entries|
    ensures va in InterpFrom(a, d, i) <==> At(a, d, va).Some? && i <= IndexOf(d.base, va, Size(a, d.layer))
    ensures va in InterpFrom(a, d, i) ==> At(a, d, va) == Some(InterpFrom(a, d, i)[va])
    decreases d, |d.entries| - i
  {
    var size := Size(a, d.layer);
    if i < |d.entries| {
      InterpFromAt(a, d, i + 1, va);
      match d.entries[i]
      case Free =>
      case Leaf(pte) =>
        IndexOfUnique(d.base, Start(a, d, i), size, i);
      case Dir(e) =>
        InterpFromAt(a, e, 0, va);
        ChildRange(a, d, i, e);
        if At(a, e, va).Some? {
          AtInRange(a, e, va);
          IndexOfUnique(d.base, va, size, i);
        }
    }
  }

  // ----- mappings lie in their entry

  lemma {:induction false} AtFits(a: Arch, d: Directory, va: nat)
    requires Inv(a, d) && At(a, d, va).Some?
    ensures d.base <= va && 0 < Size(a, d.layer)
    ensures
      var i := IndexOf(d.base, va, Size(a, d.layer));
      var size := At(a, d, va).value.frame.size;
      0 < size <= Size(a, d.layer) && va + size <= Start(a, d, i) + Size(a, d.layer)
    decreases d
  {
    var i := IndexOf(d.base, va, Size(a, d.layer));
    match d.entries[i]
    case Free =>
    case Leaf(pte) =>
    case Dir(e) =>
      AtFits(a, e, va);
      ChildRange(a, d, i, e);
      EntryInTable(e.base, IndexOf(e.base, va, Size(a, e.layer)), Size(a, e.layer), Num(a, e.layer));
      SizeBelow(a, d.layer);
  }

  lemma SizeBelow(a: Arch, layer: nat)
    requires ArchInv(a) && layer + 1 < |a.layers|
    ensures 0 < Size(a, layer + 1) <= Size(a, layer)
  {
    MulMono(1, Num(a, layer + 1), Size(a, layer + 1));
  }

  /** A directory that is not empty maps something. */
  lemma {:induction false} NonEmptyMaps(a: Arch, d: Directory) returns (va: nat)
    requires Inv(a, d) && !IsEmpty(d)
    ensures At(a, d, va).Some?
    decreases d
  {
    var i: nat :| i < |d.entries| && d.entries[i] != Free;
    match d.entries[i]
    case Leaf(pte) =>
      va := Start(a, d, i);
      IndexOfUnique(d.base, va, Size(a, d.layer), i);
    case Dir(e) =>
      va := NonEmptyMaps(a, e);
      AtInRange(a, e, va);
      ChildRange(a, d, i, e);
      IndexOfUnique(d.base, va, Size(a, d.layer), i);
  }

  // ----- requests

  /** The alignment, bounds and size that a request to map must have below directory d. */
  ghost predicate Accepted(a: Arch, d: Directory, base: nat, pte: PTE) {
    && (exists k: nat | d.layer <= k < |a.layers| :: pte.frame.size == Size(a, k))
    && 0 < pte.frame.size
    && base % pte.frame.size == 0
    && pte.frame.base % pte.frame.size == 0
    && d.base <= base
    && base + pte.frame.size <= d.base + Span(a, d.layer)
  }

  function EmptyBelow(a: Arch, d: Directory, i: nat): Directory {
    Directory(seq(Num(a, d.layer + 1), (_: nat) => Free), d.layer + 1, Start(a, d, i), PERMISSIVE)
  }

  function Update(d: Directory, i: nat, e: NodeEntry): Directory
    requires i < |d.entries|
  {
    d.(entries := d.entries[i := e])
  }

  lemma SizesPositive(a: Arch, j: nat)
    requires ArchInv(a) && j < |a.layers|
    ensures 0 < Size(a, j)
  {
  }

  lemma SizeNested(a: Arch, j: nat)
    requires ArchInv(a) && j + 1 < |a.layers|
    ensures 0 < Size(a, j + 1) && Size(a, j) % Size(a, j + 1) == 0
  {
    MulMod(Num(a, j + 1), Size(a, j + 1));
  }

  lemma {:induction false} SizeDivides(a: Arch, j: nat, k: nat)
    requires ArchInv(a) && j <= k < |a.layers|
    ensures 0 < Size(a, k) && Size(a, j) % Size(a, k) == 0
    decreases k - j
  {
    SizesPositive(a, j);
    SizesPositive(a, k);
    if j == k {
      MulMod(1, Size(a, k));
    } else {
      SizeDivides(a, j + 1, k);
      SizesPositive(a, j + 1);
      SizeNested(a, j);
      hide *;
      MultipleOf(Size(a, j), Size(a, j + 1), Size(a, k));
    }
  }

  /** An accepted request lies within one entry. */
  lemma RequestInEntry(a: Arch, d: Directory, base: nat, pte: PTE)
    requires WellFormed(a, d) && Accepted(a, d, base, pte)
    ensures 0 < Size(a, d.layer)
    ensures
      var i := IndexOf(d.base, base, Size(a, d.layer));
      && i < |d.entries| && Start(a, d, i) <= base && base + pte.frame.size <= Start(a, d, i) + Size(a, d.layer)
      && (pte.frame.size == Size(a, d.layer) ==> base == Start(a, d, i))
  {
    var size := Size(a, d.layer);
    Slot(a, d, base);
    var k: nat :| d.layer <= k < |a.layers| && pte.frame.size == Size(a, k);
    SizeDivides(a, d.layer, k);
    var i := IndexOf(d.base, base, size);
    EntryAligned(d.base, i, size, Num(a, d.layer));
    MultipleOf(Start(a, d, i), size, pte.frame.size);
    AlignedSum(Start(a, d, i), size, pte.frame.size);
    BlockFits(base, pte.frame.size, Start(a, d, i) + size);
  }

  lemma EmptyBelowInv(a: Arch, d: Directory, i: nat)
    requires WellFormed(a, d) && i < |d.entries| && d.layer + 1 < |a.layers|
    ensures Inv(a, EmptyBelow(a, d, i)) && IsEmpty(EmptyBelow(a, d, i))
    ensures Span(a, d.layer + 1) == Size(a, d.layer)
  {
    EntryAligned(d.base, i, Size(a, d.layer), Num(a, d.layer));
  }

  lemma AcceptedBelow(a: Arch, d: Directory, base: nat, pte: PTE, e: Directory)
    requires WellFormed(a, d) && Accepted(a, d, base, pte) && pte.frame.size != Size(a, d.layer)
    requires 0 < Size(a, d.layer) && d.base <= base
    requires e.layer == d.layer + 1 && e.base == Start(a, d, IndexOf(d.base, base, Size(a, d.layer)))
    ensures d.layer + 1 < |a.layers| && Accepted(a, e, base, pte)
  {
    RequestInEntry(a, d, base, pte);
    var k: nat :| d.layer <= k < |a.layers| && pte.frame.size == Size(a, k);
    assert k != d.layer;
  }

  // ----- mapping and unmapping

  ghost function MapFrame(a: Arch, d: Directory, base: nat, pte: PTE): (r: Result<Directory>)
    requires Inv(a, d) && Accepted(a, d, base, pte)
    ensures IsEmpty(d) ==> r.Ok?
    decreases |a.layers| - d.layer
  {
    RequestInEntry(a, d, base, pte);
    var i := IndexOf(d.base, base, Size(a, d.layer));
    match d.entries[i]
    case Leaf(_) => Err
    case Dir(e) =>
      if Size(a, d.layer) == pte.frame.size then Err else
        AcceptedBelow(a, d, base, pte, e);
        (match MapFrame(a, e, base, pte)
         case Ok(e') => Ok(Update(d, i, Dir(e')))
         case Err => Err)
    case Free =>
      if Size(a, d.layer) == pte.frame.size then Ok(Update(d, i, Leaf(pte))) else
        AcceptedBelow(a, d, base, pte, EmptyBelow(a, d, i));
        EmptyBelowInv(a, d, i);
        Ok(Update(d, i, Dir(MapFrame(a, EmptyBelow(a, d, i), base, pte).value)))
  }

  ghost function Unmap(a: Arch, d: Directory, base: nat): Result<Directory>
    requires Inv(a, d) && d.base <= base < d.base + Span(a, d.layer)
    decreases d
  {
    Slot(a, d, base);
    var i := IndexOf(d.base, base, Size(a, d.layer));
    match d.entries[i]
    case Leaf(_) => if base % Size(a, d.layer) == 0 then Ok(Update(d, i, Free)) else Err
    case Dir(e) =>
      assert Inv(a, d.entries[i].dir);
      ChildRange(a, d, i, e);
      (match Unmap(a, e, base)
       case Ok(e') => Ok(Update(d, i, if IsEmpty(e') then Free else Dir(e')))
       case Err => Err)
    case Free => Err
  }

  function Resolve(a: Arch, d: Directory, va: nat): Result<(nat, PTE)>
    decreases d
  {
    if va < d.base || Size(a, d.layer) == 0 then Err else
      var i := IndexOf(d.base, va, Size(a, d.layer));
      if i >= |d.entries| then Err else
        match d.entries[i]
        case Leaf(pte) => Ok((Start(a, d, i), pte))
        case Dir(e) => Resolve(a, e, va)
        case Free => Err
  }

  // ----- what mapping does

  lemma UpdateInv(a: Arch, d: Directory, i: nat, n: NodeEntry)
    requires Inv(a, d) && i < |d.entries|
    requires n.Leaf? ==> LeafOk(a, d, n.pte)
    requires n.Dir? ==> DirOk(a, d, i, n.dir) && Inv(a, n.dir)
    ensures Inv(a, Update(d, i, n))
    ensures n != Free ==> !IsEmpty(Update(d, i, n))
  {
    var d' := Update(d, i, n);
    if n != Free {
      assert d'.entries[i] != Free;
    }
    forall j: nat | j < |d'.entries| && d'.entries[j].Dir?
      ensures DirOk(a, d', j, d'.entries[j].dir) && Inv(a, d'.entries[j].dir) {
      if j != i {
        assert DirOk(a, d, j, d.entries[j].dir) && Inv(a, d.entries[j].dir);
      }
    }
  }

  lemma {:induction false} MapFrameInv(a: Arch, d: Directory, base: nat, pte: PTE)
    requires Inv(a, d) && Accepted(a, d, base, pte) && MapFrame(a, d, base, pte).Ok?
    ensures
      var d' := MapFrame(a, d, base, pte).value;
      Inv(a, d') && d'.layer == d.layer && d'.base == d.base && !IsEmpty(d')
    decreases |a.layers| - d.layer
  {
    hide WellFormed;
    RequestInEntry(a, d, base, pte);
    var i := IndexOf(d.base, base, Size(a, d.layer));
    match d.entries[i]
    case Leaf(_) =>
    case Dir(e) =>
      AcceptedBelow(a, d, base, pte, e);
      MapFrameInv(a, e, base, pte);
      UpdateInv(a, d, i, Dir(MapFrame(a, e, base, pte).value));
    case Free =>
      if Size(a, d.layer) == pte.frame.size {
        assert LeafOk(a, d, pte);
        UpdateInv(a, d, i, Leaf(pte));
      } else {
        var e := EmptyBelow(a, d, i);
        AcceptedBelow(a, d, base, pte, e);
        EmptyBelowInv(a, d, i);
        MapFrameInv(a, e, base, pte);
        UpdateInv(a, d, i, Dir(MapFrame(a, e, base, pte).value));
      }
  }

  lemma {:induction false} AtEmpty(a: Arch, d: Directory, va: nat)
    requires IsEmpty(d)
    ensures At(a, d, va) == None
  {
  }

  /** Entry j of a directory decides the addresses of its range. */
  lemma AtEntry(a: Arch, d: Directory, va: nat, j: nat)
    requires WellFormed(a, d) && j < |d.entries| && Start(a, d, j) <= va < Start(a, d, j) + Size(a, d.layer)
    ensures d.entries[j].Free? ==> At(a, d, va) == None
    ensures d.entries[j].Leaf? ==> At(a, d, va) == if va == Start(a, d, j) then Some(d.entries[j].pte) else None
    ensures d.entries[j].Dir? ==> At(a, d, va) == At(a, d.entries[j].dir, va)
  {
    IndexOfUnique(d.base, va, Size(a, d.layer), j);
  }

  /** Outside entry i, a directory and its update agree. */
  lemma AtElsewhere(a: Arch, d: Directory, i: nat, n: NodeEntry, va: nat)
    requires WellFormed(a, d) && i < |d.entries|
    requires !(Start(a, d, i) <= va < Start(a, d, i) + Size(a, d.layer))
    ensures At(a, Update(d, i, n), va) == At(a, d, va)
  {
    if d.base <= va && Size(a, d.layer) > 0 {
      IndexOfBounds(d.base, va, Size(a, d.layer));
    }
  }

  lemma {:induction false} MapFrameAt(a: Arch, d: Directory, base: nat, pte: PTE, va: nat)
    requires Inv(a, d) && Accepted(a, d, base, pte) && MapFrame(a, d, base, pte).Ok?
    ensures At(a, MapFrame(a, d, base, pte).value, va) == if va == base then Some(pte) else At(a, d, va)
    decreases |a.layers| - d.layer
  {
    hide WellFormed, At;
    RequestInEntry(a, d, base, pte);
    var size := Size(a, d.layer);
    var i := IndexOf(d.base, base, size);
    var d' := MapFrame(a, d, base, pte).value;
    assert 0 < pte.frame.size;
    MapFrameInv(a, d, base, pte);
    assert WellFormed(a, d) && WellFormed(a, d');
    if Start(a, d, i) <= va < Start(a, d, i) + size {
      AtEntry(a, d, va, i);
      AtEntry(a, d', va, i);
      match d.entries[i]
      case Leaf(_) =>
      case Dir(e) =>
        AcceptedBelow(a, d, base, pte, e);
        MapFrameAt(a, e, base, pte, va);
      case Free =>
        if size != pte.frame.size {
          var e := EmptyBelow(a, d, i);
          AcceptedBelow(a, d, base, pte, e);
          EmptyBelowInv(a, d, i);
          MapFrameAt(a, e, base, pte, va);
          AtEmpty(a, e, va);
        }
    } else {
      AtElsewhere(a, d, i, d'.entries[i], va);
      assert d' == Update(d, i, d'.entries[i]);
    }
  }

  // ----- when mapping is refused

  lemma InterpAt(a: Arch, d: Directory, va: nat)
    requires Inv(a, d)
    ensures va in Interp(a, d) <==> At(a, d, va).Some?
    ensures va in Interp(a, d) ==> At(a, d, va) == Some(Interp(a, d)[va])
  {
    InterpFromAt(a, d, 0, va);
  }

  ghost predicate Overlaps(a: Arch, d: Directory, base: nat, pte: PTE) {
    exists b: nat :: At(a, d, b).Some? && Overlap(Range(base, pte), Range(b, At(a, d, b).value))
  }

  lemma OverlapsInterp(a: Arch, d: Directory, base: nat, pte: PTE)
    requires Inv(a, d)
    ensures Overlaps(a, d, base, pte) <==> OverlapsExistingVmem(Interp(a, d), base, pte)
  {
    forall b: nat ensures b in Interp(a, d) <==> At(a, d, b).Some?
      ensures b in Interp(a, d) ==> At(a, d, b) == Some(Interp(a, d)[b])
    {
      InterpAt(a, d, b);
    }
    hide At, Interp, Inv;
    if Overlaps(a, d, base, pte) {
      var b: nat :| At(a, d, b).Some? && Overlap(Range(base, pte), Range(b, At(a, d, b).value));
      assert b in Interp(a, d);
    }
  }

  /** A request within entry i only overlaps mappings of entry i. */
  lemma OverlapInEntry(a: Arch, d: Directory, i: nat, base: nat, pte: PTE, b: nat)
    requires Inv(a, d) && i < |d.entries| && 0 < pte.frame.size
    requires Start(a, d, i) <= base && base + pte.frame.size <= Start(a, d, i) + Size(a, d.layer)
    requires At(a, d, b).Some? && Overlap(Range(base, pte), Range(b, At(a, d, b).value))
    ensures Start(a, d, i) <= b < Start(a, d, i) + Size(a, d.layer)
  {
    hide At, EntryBase, IndexOf, Inv, Size;
    AtFits(a, d, b);
    var size := Size(a, d.layer);
    var j := IndexOf(d.base, b, size);
    IndexOfBounds(d.base, b, size);
    EntriesApart(d.base, i, j, size);
  }

  lemma EntriesApart(base: nat, i: nat, j: nat, size: nat)
    ensures j < i ==> EntryBase(base, j, size) + size <= EntryBase(base, i, size)
    ensures i < j ==> EntryBase(base, i, size) + size <= EntryBase(base, j, size)
  {
    assert (j + 1) * size == j * size + size && (i + 1) * size == i * size + size;
    if j < i {
      MulMono(j + 1, i, size);
    } else if i < j {
      MulMono(i + 1, j, size);
    }
  }

  lemma LeafOverlaps(a: Arch, d: Directory, i: nat, base: nat, pte: PTE)
    requires Inv(a, d) && i < |d.entries| && d.entries[i].Leaf?
    requires Start(a, d, i) <= base < Start(a, d, i) + Size(a, d.layer)
    ensures Overlaps(a, d, base, pte)
  {
    var b := Start(a, d, i);
    AtEntry(a, d, b, i);
    assert Overlap(Range(base, pte), Range(b, At(a, d, b).value));
  }

  lemma FullDirOverlaps(a: Arch, d: Directory, i: nat, base: nat, pte: PTE)
    requires Inv(a, d) && i < |d.entries| && d.entries[i].Dir?
    requires base == Start(a, d, i) && pte.frame.size == Size(a, d.layer)
    ensures Overlaps(a, d, base, pte)
  {
    var e := d.entries[i].dir;
    var b := NonEmptyMaps(a, e);
    AtInRange(a, e, b);
    ChildRange(a, d, i, e);
    AtEntry(a, d, b, i);
    assert Overlap(Range(base, pte), Range(b, At(a, d, b).value));
  }

  lemma DirOverlaps(a: Arch, d: Directory, i: nat, base: nat, pte: PTE)
    requires Inv(a, d) && i < |d.entries| && d.entries[i].Dir? && 0 < pte.frame.size
    requires Start(a, d, i) <= base && base + pte.frame.size <= Start(a, d, i) + Size(a, d.layer)
    ensures Overlaps(a, d, base, pte) <==> Overlaps(a, d.entries[i].dir, base, pte)
  {
    var e := d.entries[i].dir;
    if Overlaps(a, d, base, pte) {
      var b: nat :| At(a, d, b).Some? && Overlap(Range(base, pte), Range(b, At(a, d, b).value));
      OverlapInEntry(a, d, i, base, pte, b);
      AtEntry(a, d, b, i);
    }
    if Overlaps(a, e, base, pte) {
      var b: nat :| At(a, e, b).Some? && Overlap(Range(base, pte), Range(b, At(a, e, b).value));
      AtInRange(a, e, b);
      ChildRange(a, d, i, e);
      AtEntry(a, d, b, i);
    }
  }

  /** Mapping is refused exactly when the request overlaps a mapping. */
  lemma {:induction false} MapFrameErr(a: Arch, d: Directory, base: nat, pte: PTE)
    requires Inv(a, d) && Accepted(a, d, base, pte)
    ensures MapFrame(a, d, base, pte).Err? <==> Overlaps(a, d, base, pte)
    decreases |a.layers| - d.layer
  {
    hide WellFormed, At;
    RequestInEntry(a, d, base, pte);
    var i := IndexOf(d.base, base, Size(a, d.layer));
    assert 0 < pte.frame.size;
    match d.entries[i]
    case Leaf(_) => LeafOverlaps(a, d, i, base, pte);
    case Dir(e) =>
      if Size(a, d.layer) == pte.frame.size {
        FullDirOverlaps(a, d, i, base, pte);
      } else {
        DirOverlaps(a, d, i, base, pte);
        AcceptedBelow(a, d, base, pte, e);
        MapFrameErr(a, e, base, pte);
      }
    case Free =>
      if Overlaps(a, d, base, pte) {
        var b: nat :| At(a, d, b).Some? && Overlap(Range(base, pte), Range(b, At(a, d, b).value));
        OverlapInEntry(a, d, i, base, pte, b);
        AtEntry(a, d, b, i);
        assert false;
      }
  }

  // ----- what unmapping does

  lemma {:induction false} UnmapInv(a: Arch, d: Directory, base: nat)
    requires Inv(a, d) && d.base <= base < d.base + Span(a, d.layer) && Unmap(a, d, base).Ok?
    ensures
      var d' := Unmap(a, d, base).value;
      Inv(a, d') && d'.layer == d.layer && d'.base == d.base
    decreases d
  {
    Slot(a, d, base);
    var i := IndexOf(d.base, base, Size(a, d.layer));
    match d.entries[i]
    case Leaf(_) => UpdateInv(a, d, i, Free);
    case Dir(e) =>
      ChildRange(a, d, i, e);
      UnmapInv(a, e, base);
      var e' := Unmap(a, e, base).value;
      UpdateInv(a, d, i, if IsEmpty(e') then Free else Dir(e'));
    case Free =>
  }

  lemma {:induction false} UnmapAt(a: Arch, d: Directory, base: nat, va: nat)
    requires Inv(a, d) && d.base <= base < d.base + Span(a, d.layer)
    ensures Unmap(a, d, base).Ok? <==> At(a, d, base).Some?
    ensures Unmap(a, d, base).Ok? ==> At(a, Unmap(a, d, base).value, va) == if va == base then None else At(a, d, va)
    decreases d
  {
    hide At;
    Slot(a, d, base);
    var size := Size(a, d.layer);
    var i := IndexOf(d.base, base, size);
    AtEntry(a, d, base, i);
    match d.entries[i]
    case Leaf(_) =>
      EntryAligned(d.base, i, size, Num(a, d.layer));
      if base % size == 0 {
        AlignedIsBase(Start(a, d, i), base, size);
      }
      AfterUpdate(a, d, i, Free, va);
    case Dir(e) =>
      ChildRange(a, d, i, e);
      UnmapAt(a, e, base, va);
      if Unmap(a, e, base).Ok? {
        var e' := Unmap(a, e, base).value;
        UnmapInv(a, e, base);
        AfterUpdate(a, d, i, if IsEmpty(e') then Free else Dir(e'), va);
        if IsEmpty(e') {
          AtEmpty(a, e', va);
        }
      }
    case Free =>
  }

  lemma AfterUpdate(a: Arch, d: Directory, i: nat, n: NodeEntry, va: nat)
    requires WellFormed(a, d) && i < |d.entries|
    ensures
      var d' := Update(d, i, n);
      if Start(a, d, i) <= va < Start(a, d, i) + Size(a, d.layer) then
        && (n.Free? ==> At(a, d', va) == None)
        && (n.Dir? ==> At(a, d', va) == At(a, n.dir, va))
        && (d.entries[i].Leaf? ==> At(a, d, va) == if va == Start(a, d, i) then Some(d.entries[i].pte) else None)
        && (d.entries[i].Dir? ==> At(a, d, va) == At(a, d.entries[i].dir, va))
      else At(a, d', va) == At(a, d, va)
  {
    if Start(a, d, i) <= va < Start(a, d, i) + Size(a, d.layer) {
      AtEntry(a, d, va, i);
      AtEntry(a, Update(d, i, n), va, i);
    } else {
      AtElsewhere(a, d, i, n, va);
    }
    hide At;
  }
}
