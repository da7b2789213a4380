/** Four-level page tables in memory: how tables hang together, and what the MMU's walk finds in them.
    Generic in the words that tables hold: `view` is how the hardware reads a word at a layer. */
module PageTables {
  import opened Definitions
  import opened Indexing

  const ENTRIES: nat := 512

  datatype Entry = Empty | Directory(addr: nat, flags: Flags) | Page(addr: nat, flags: Flags)

  datatype Memory<!W> = Memory(pages: map<nat, seq<W>>, root: nat, view: (nat, W) -> Entry)

  /** Address space mapped by one entry of a table at `layer`. */
  function EntrySize(layer: nat): (size: nat)
    ensures size > 0
  {
    if layer == 0 then L0_ENTRY_SIZE
    else if layer == 1 then L1_ENTRY_SIZE
    else if layer == 2 then L2_ENTRY_SIZE
    else L3_ENTRY_SIZE
  }

  function TableSize(layer: nat): nat {
    ENTRIES * EntrySize(layer)
  }

  lemma SizesNest(layer: nat)
    requires layer < 3
    ensures EntrySize(layer) == TableSize(layer + 1)
  {
  }

  /** The entry that the hardware selects at `layer`: nine bits of the address. */
  function SlotOf(layer: nat, va: nat): (i: nat)
    ensures i < ENTRIES
  {
    va / EntrySize(layer) % ENTRIES
  }

  // ----- the hardware's walk

  datatype Translation = Fault | Hit(layer: nat, addr: nat, flags: Flags)

  /** Flags in effect when one entry on the path carries `f` and the rest of the path `g`. */
  function Meet(f: Flags, g: Flags): Flags {
    Flags(f.isWritable && g.isWritable, f.isSupervisor || g.isSupervisor, f.disableExecute || g.disableExecute)
  }

  predicate HasTable<W>(m: Memory<W>, p: nat) {
    p in m.pages && |m.pages[p]| == ENTRIES
  }

  function EntryAt<W>(m: Memory<W>, layer: nat, p: nat, i: nat): Entry
    requires HasTable(m, p) && i < ENTRIES
  {
    m.view(layer, m.pages[p][i])
  }

  function WalkFrom<W>(m: Memory<W>, layer: nat, p: nat, va: nat): Translation
    decreases 4 - layer
  {
    if layer >= 4 || !HasTable(m, p) then Fault
    else
      match EntryAt(m, layer, p, SlotOf(layer, va))
      case Empty => Fault
      case Page(addr, f) => if layer == 0 then Fault else Hit(layer, addr, f)
      case Directory(addr, f) =>
        match WalkFrom(m, layer + 1, addr, va)
        case Fault => Fault
        case Hit(l, a, g) => Hit(l, a, Meet(f, g))
  }

  function Walk<W>(m: Memory<W>, va: nat): Translation {
    WalkFrom(m, 0, m.root, va)
  }

  /** The flags of the entries that the walk of `va` goes through. */
  function PathFrom<W>(m: Memory<W>, layer: nat, p: nat, va: nat): seq<Flags>
    decreases 4 - layer
  {
    if layer >= 4 || !HasTable(m, p) then []
    else
      match EntryAt(m, layer, p, SlotOf(layer, va))
      case Empty => []
      case Page(_, f) => [f]
      case Directory(addr, f) => [f] + PathFrom(m, layer + 1, addr, va)
  }

  /** A translation allows writing if every entry on its path does, and forbids user access or execution if one does. */
  lemma {:induction false} PathFlags<W>(m: Memory<W>, layer: nat, p: nat, va: nat)
    requires WalkFrom(m, layer, p, va).Hit?
    ensures
      var t, path := WalkFrom(m, layer, p, va), PathFrom(m, layer, p, va);
      && |path| == t.layer + 1 - layer
      && (t.flags.isWritable <==> forall f: Flags | f in path :: f.isWritable)
      && (t.flags.isSupervisor <==> exists f: Flags :: f in path && f.isSupervisor)
      && (t.flags.disableExecute <==> exists f: Flags :: f in path && f.disableExecute)
    decreases 4 - layer
  {
    var e := EntryAt(m, layer, p, SlotOf(layer, va));
    if e.Directory? {
      PathFlags(m, layer + 1, e.addr, va);
      assert e.flags in PathFrom(m, layer, p, va);
    } else {
      assert e.flags in PathFrom(m, layer, p, va);
    }
  }

  /** The mapping that the walk of `va` finds, if `va` is its first address. */
  ghost function MappingAt(t: Translation, va: nat): Option<PTE> {
    match t
    case Fault => None
    case Hit(layer, addr, f) =>
      if va % EntrySize(layer) == 0 then Some(PTE(MemRegion(addr, EntrySize(layer)), f)) else None
  }

  /** The hardware's view of memory: every mapping, at its first address. */
  ghost function Interp<W>(m: Memory<W>): map<nat, PTE> {
    map va: nat | 0 <= va < MAX_BASE && MappingAt(Walk(m, va), va).Some? :: MappingAt(Walk(m, va), va).value
  }

  // ----- how tables hang together

  /** Where a table sits: its layer, its first address, and the one entry that refers to it. */
  datatype Place = Place(layer: nat, base: nat, up: nat, idx: nat)

  function SlotBase(pl: Place, i: nat): nat {
    EntryBase(pl.base, i, EntrySize(pl.layer))
  }

  predicate InTable(pl: Place, va: nat) {
    pl.base <= va < pl.base + TableSize(pl.layer)
  }

  predicate InSlot(pl: Place, i: nat, va: nat) {
    SlotBase(pl, i) <= va < SlotBase(pl, i) + EntrySize(pl.layer)
  }

  predicate PlaceOk(pl: Place) {
    pl.layer < 4 && pl.base % TableSize(pl.layer) == 0 && pl.base + TableSize(pl.layer) <= MAX_BASE
  }

  /** Table `p` is the root, or exactly the entry its place names refers to it. */
  predicate Hung<W>(m: Memory<W>, places: map<nat, Place>, p: nat)
    requires p in places
  {
    var pl := places[p];
    && HasTable(m, p)
    && PlaceOk(pl)
    && if p == m.root then pl == Place(0, 0, p, 0) else
         && pl.layer > 0
         && pl.up in places
         && HasTable(m, pl.up)
         && pl.idx < ENTRIES
         && places[pl.up].layer == pl.layer - 1
         && pl.base == SlotBase(places[pl.up], pl.idx)
         && EntryAt(m, pl.layer - 1, pl.up, pl.idx) == Directory(p, PERMISSIVE)
  }

  /** What entry `i` of table `p` may hold: a directory leads to a table hung there, a page is aligned. */
  predicate EntryOk(places: map<nat, Place>, root: nat, p: nat, i: nat, e: Entry)
    requires p in places
  {
    var pl := places[p];
    match e
    case Empty => true
    case Page(addr, f) => 0 < pl.layer && addr % EntrySize(pl.layer) == 0
    case Directory(addr, f) =>
      && f == PERMISSIVE
      && pl.layer < 3
      && addr != root
      && addr in places
      && places[addr] == Place(pl.layer + 1, SlotBase(pl, i), p, i)
  }

  /** The tables of memory form one tree below the root: no sharing, no leak, no dangling entry. */
  ghost predicate Hangs<W>(m: Memory<W>, places: map<nat, Place>) {
    && places.Keys == m.pages.Keys
    && m.root in places
    && (forall p: nat | p in places :: Hung(m, places, p))
    && (forall p: nat, i: nat | p in places && i < ENTRIES ::
      EntryOk(places, m.root, p, i, EntryAt(m, places[p].layer, p, i)))
  }

  /** Every table other than the root and `but` maps something. */
  ghost predicate NonEmpty<W>(m: Memory<W>, places: map<nat, Place>, but: nat)
    requires Hangs(m, places)
  {
    forall p: nat | p in places && p != m.root && p != but :: !IsEmptyTable(m, places[p].layer, p)
  }

  ghost predicate IsEmptyTable<W>(m: Memory<W>, layer: nat, p: nat)
    requires HasTable(m, p)
  {
    forall i: nat | i < ENTRIES :: EntryAt(m, layer, p, i) == Empty
  }

  // ----- index arithmetic

  lemma SlotBounds(pl: Place, va: nat)
    requires PlaceOk(pl) && InTable(pl, va)
    ensures InSlot(pl, SlotOf(pl.layer, va), va)
    ensures SlotOf(pl.layer, va) == IndexOf(pl.base, va, EntrySize(pl.layer))
  {
    hide EntrySize;
    IndexOfAligned(pl.base, va, EntrySize(pl.layer), ENTRIES);
    IndexOfBounds(pl.base, va, EntrySize(pl.layer));
  }

  lemma SlotUnique(pl: Place, va: nat, i: nat)
    requires PlaceOk(pl) && i < ENTRIES && InSlot(pl, i, va)
    ensures InTable(pl, va) && SlotOf(pl.layer, va) == i
  {
    hide EntrySize;
    IndexOfUnique(pl.base, va, EntrySize(pl.layer), i);
    EntryInTable(pl.base, i, EntrySize(pl.layer), ENTRIES);
    SlotBounds(pl, va);
  }

  /** Entry `i` of a table covers exactly the table that can hang there. */
  lemma SlotIsTable(pl: Place, i: nat, q: nat)
    requires PlaceOk(pl) && pl.layer < 3 && i < ENTRIES
    ensures PlaceOk(Place(pl.layer + 1, SlotBase(pl, i), q, i))
    ensures forall va: nat :: InSlot(pl, i, va) <==> InTable(Place(pl.layer + 1, SlotBase(pl, i), q, i), va)
  {
    SizesNest(pl.layer);
    hide EntrySize;
    EntryAligned(pl.base, i, EntrySize(pl.layer), ENTRIES);
    EntryInTable(pl.base, i, EntrySize(pl.layer), ENTRIES);
  }

  lemma SlotAligned(pl: Place, i: nat)
    requires PlaceOk(pl) && i < ENTRIES
    ensures SlotBase(pl, i) % EntrySize(pl.layer) == 0
    ensures forall va: nat :: InSlot(pl, i, va) && va % EntrySize(pl.layer) == 0 ==> va == SlotBase(pl, i)
    ensures SlotBase(pl, i) + EntrySize(pl.layer) <= MAX_BASE
  {
    hide EntrySize;
    EntryAligned(pl.base, i, EntrySize(pl.layer), ENTRIES);
    EntryInTable(pl.base, i, EntrySize(pl.layer), ENTRIES);
    forall va: nat | InSlot(pl, i, va) && va % EntrySize(pl.layer) == 0 ensures va == SlotBase(pl, i) {
      AlignedIsBase(SlotBase(pl, i), va, EntrySize(pl.layer));
    }
  }

  // ----- what the walk finds

  /** The walk of an address in table p's range goes through p, and nothing above p restricts it. */
  lemma {:induction false} WalkClimb<W>(m: Memory<W>, places: map<nat, Place>, p: nat, va: nat)
    requires Hangs(m, places) && p in places && InTable(places[p], va)
    ensures Walk(m, va) == WalkFrom(m, places[p].layer, p, va)
    decreases places[p].layer
  {
    hide EntrySize;
    var pl := places[p];
    assert Hung(m, places, p);
    if p != m.root {
      var up := places[pl.up];
      assert Hung(m, places, pl.up);
      SlotIsTable(up, pl.idx, pl.up);
      assert InSlot(up, pl.idx, va);
      SlotUnique(up, va, pl.idx);
      WalkClimb(m, places, pl.up, va);
    }
  }

  /** Below an entry in use, the walk continues in the table that hangs there. */
  lemma WalkEnters<W>(m: Memory<W>, places: map<nat, Place>, p: nat, va: nat)
    requires Hangs(m, places) && p in places && InTable(places[p], va)
    ensures Hung(m, places, p)
    ensures InSlot(places[p], SlotOf(places[p].layer, va), va)
    ensures
      var e := EntryAt(m, places[p].layer, p, SlotOf(places[p].layer, va));
      e.Directory? ==> && places[p].layer < 3
                       && e.addr in places && places[e.addr].layer == places[p].layer + 1
                       && InTable(places[e.addr], va)
  {
    hide EntrySize;
    var pl := places[p];
    assert Hung(m, places, p);
    SlotBounds(pl, va);
    var i := SlotOf(pl.layer, va);
    var e := EntryAt(m, pl.layer, p, i);
    assert EntryOk(places, m.root, p, i, e);
    if e.Directory? {
      SlotIsTable(pl, i, p);
    }
  }

  /** Memory m' has all tables of m, and they differ in entry i of table p at most. */
  ghost predicate AgreesOff<W>(m: Memory<W>, m': Memory<W>, p: nat, i: nat) {
    && m'.view == m.view
    && m'.root == m.root
    && forall q: nat, j: nat | HasTable(m, q) && j < ENTRIES :: WordAgrees(m, m', p, i, q, j)
  }

  predicate WordAgrees<W(==)>(m: Memory<W>, m': Memory<W>, p: nat, i: nat, q: nat, j: nat)
    requires HasTable(m, q) && j < ENTRIES
  {
    HasTable(m', q) && ((q == p && j == i) || m'.pages[q][j] == m.pages[q][j])
  }

  /** Changing entry i of table p, and adding tables, leaves every walk outside that entry as it was. */
  lemma {:induction false} WalkAgrees<W>(m: Memory<W>, places: map<nat, Place>, m': Memory<W>, p: nat, i: nat, q: nat,
      va: nat)
    requires Hangs(m, places) && AgreesOff(m, m', p, i) && p in places && !InSlot(places[p], i, va)
    requires q in places && InTable(places[q], va)
    ensures WalkFrom(m', places[q].layer, q, va) == WalkFrom(m, places[q].layer, q, va)
    decreases 4 - places[q].layer
  {
    hide EntrySize;
    var layer := places[q].layer;
    WalkEnters(m, places, q, va);
    var j := SlotOf(layer, va);
    assert WordAgrees(m, m', p, i, q, j);
    assert EntryAt(m', layer, q, j) == EntryAt(m, layer, q, j);
    var e := EntryAt(m, layer, q, j);
    if e.Directory? {
      WalkAgrees(m, places, m', p, i, e.addr, va);
    }
  }

  /** A hit at layer l is the same for all addresses that agree above l. */
  lemma {:induction false} HitCovers<W>(m: Memory<W>, layer: nat, p: nat, va: nat, va': nat)
    requires WalkFrom(m, layer, p, va).Hit?
    requires var l := WalkFrom(m, layer, p, va).layer; va / EntrySize(l) == va' / EntrySize(l)
    ensures WalkFrom(m, layer, p, va') == WalkFrom(m, layer, p, va)
    ensures layer <= WalkFrom(m, layer, p, va).layer < 4
    decreases 4 - layer
  {
    var l := WalkFrom(m, layer, p, va).layer;
    var e := EntryAt(m, layer, p, SlotOf(layer, va));
    HitLayer(m, layer, p, va);
    SameSlotAbove(layer, l, va, va');
    if e.Directory? {
      hide EntrySize;
      HitCovers(m, layer + 1, e.addr, va, va');
    }
  }

  lemma {:induction false} HitLayer<W>(m: Memory<W>, layer: nat, p: nat, va: nat)
    requires WalkFrom(m, layer, p, va).Hit?
    ensures layer <= WalkFrom(m, layer, p, va).layer < 4
    ensures 0 < WalkFrom(m, layer, p, va).layer
    decreases 4 - layer
  {
  }

  lemma DivNests(va: nat, size: nat, n: nat)
    requires size > 0 && n > 0
    ensures va / (n * size) == va / size / n
  {
    var q := va / size;
    IndexOfBounds(0, va, size);
    IndexOfBounds(0, q, n);
    var k := q / n;
    assert EntryBase(0, k, n * size) == (k * n) * size;
    MulMono(k * n, q, size);
    MulMono(q + 1, k * n + n, size);
    assert (q + 1) * size == q * size + size && (k * n + n) * size == k * (n * size) + n * size;
    IndexOfUnique(0, va, n * size, k);
  }

  lemma {:induction false} SameSlotAbove(k: nat, l: nat, va: nat, va': nat)
    requires k <= l < 4 && va / EntrySize(l) == va' / EntrySize(l)
    ensures va / EntrySize(k) == va' / EntrySize(k)
    decreases l - k
  {
    if k < l {
      SameSlotAbove(k + 1, l, va, va');
      SizesNest(k);
      hide EntrySize;
      DivNests(va, EntrySize(k + 1), ENTRIES);
      DivNests(va', EntrySize(k + 1), ENTRIES);
    }
  }

  // ----- mappings and the addresses they cover

  lemma CoveredBase(va: nat, size: nat) returns (base: nat)
    requires size > 0
    ensures base <= va < base + size && base % size == 0 && base / size == va / size
    ensures MAX_BASE % size == 0 && va < MAX_BASE ==> base + size <= MAX_BASE
  {
    base := EntryBase(0, va / size, size);
    IndexOfBounds(0, va, size);
    MulMod(va / size, size);
    IndexOfUnique(0, base, size, va / size);
    if MAX_BASE % size == 0 && va < MAX_BASE {
      var n := MAX_BASE / size;
      assert MAX_BASE == n * size;
      IndexInTable(0, va, size, n);
      EntryInTable(0, va / size, size, n);
    }
  }

  lemma SizeDividesSpace(layer: nat)
    ensures MAX_BASE % EntrySize(layer) == 0
  {
  }

  /** Every address that the walk translates is covered by a mapping. */
  lemma HitIsMapped<W>(m: Memory<W>, va: nat) returns (base: nat)
    requires va < MAX_BASE && Walk(m, va).Hit?
    ensures base in Interp(m) && base <= va < base + Interp(m)[base].frame.size
    ensures Walk(m, va) == Walk(m, base) && Interp(m)[base].frame.size == EntrySize(Walk(m, va).layer)
  {
    hide EntrySize;
    var l := Walk(m, va).layer;
    SizeDividesSpace(l);
    base := CoveredBase(va, EntrySize(l));
    HitCovers(m, 0, m.root, va, base);
    assert MappingAt(Walk(m, base), base).Some?;
  }

  lemma SameBlock(base: nat, va: nat, size: nat)
    requires size > 0 && base % size == 0 && base <= va < base + size
    ensures base / size == va / size && base == va / size * size
    ensures MAX_BASE % size == 0 && base < MAX_BASE ==> va < MAX_BASE
  {
    assert base == base / size * size;
    IndexOfUnique(0, va, size, base / size);
    if MAX_BASE % size == 0 && base < MAX_BASE {
      var n := MAX_BASE / size;
      assert MAX_BASE == n * size;
      IndexInTable(0, base, size, n);
      EntryInTable(0, base / size, size, n);
    }
  }

  /** Every address that a mapping covers is translated by the same entry as its first one. */
  lemma MappedIsHit<W>(m: Memory<W>, base: nat, va: nat)
    requires base in Interp(m) && base <= va < base + Interp(m)[base].frame.size
    ensures Walk(m, base).Hit? && Walk(m, va) == Walk(m, base) && va < MAX_BASE
    ensures Interp(m)[base] == PTE(MemRegion(Walk(m, base).addr, EntrySize(Walk(m, base).layer)), Walk(m, base).flags)
    ensures base % EntrySize(Walk(m, base).layer) == 0
  {
    hide EntrySize, WalkFrom;
    assert MappingAt(Walk(m, base), base) == Some(Interp(m)[base]);
    var size := EntrySize(Walk(m, base).layer);
    SizeDividesSpace(Walk(m, base).layer);
    SameBlock(base, va, size);
    HitCovers(m, 0, m.root, base, va);
  }

  /** Mappings are told apart by the addresses that they cover. */
  lemma MappingsDisjoint<W>(m: Memory<W>, b1: nat, b2: nat, va: nat)
    requires b1 in Interp(m) && b1 <= va < b1 + Interp(m)[b1].frame.size
    requires b2 in Interp(m) && b2 <= va < b2 + Interp(m)[b2].frame.size
    ensures b1 == b2
  {
    hide EntrySize, Walk;
    MappedIsHit(m, b1, va);
    MappedIsHit(m, b2, va);
    var size := EntrySize(Walk(m, va).layer);
    SameBlock(b1, va, size);
    SameBlock(b2, va, size);
  }

  /** Two memories with the same walks have the same view. */
  lemma SameWalksSameInterp<W>(m: Memory<W>, m': Memory<W>)
    requires forall va: nat | va < MAX_BASE :: Walk(m', va) == Walk(m, va)
    ensures Interp(m') == Interp(m)
  {
  }

  // ----- overlap, decided by walking

  lemma HitOverlaps<W>(m: Memory<W>, base: nat, pte: PTE, va: nat)
    requires base <= va < base + pte.frame.size && va < MAX_BASE && Walk(m, va).Hit?
    ensures OverlapsExistingVmem(Interp(m), base, pte)
  {
    hide Walk;
    var b := HitIsMapped(m, va);
    assert Overlap(Range(base, pte), Range(b, Interp(m)[b]));
  }

  lemma FaultsDontOverlap<W>(m: Memory<W>, base: nat, pte: PTE)
    requires forall va: nat | base <= va < base + pte.frame.size :: Walk(m, va) == Fault
    requires 0 < pte.frame.size
    ensures !OverlapsExistingVmem(Interp(m), base, pte)
  {
    hide Walk;
    forall b | b in Interp(m) ensures !Overlap(Range(base, pte), Range(b, Interp(m)[b])) {
      assert MappingAt(Walk(m, b), b) == Some(Interp(m)[b]);
      if b <= base < b + Interp(m)[b].frame.size {
        MappedIsHit(m, b, base);
      }
    }
  }

  /** Every table in use maps some address of its range, if no table below it is empty. */
  lemma {:induction false} NonEmptyHits<W>(m: Memory<W>, places: map<nat, Place>, but: nat, p: nat, i: nat)
    returns (va: nat)
    requires Hangs(m, places) && NonEmpty(m, places, but)
    requires but in places && p in places && places[but].layer <= places[p].layer
    requires HasTable(m, p) && i < ENTRIES && EntryAt(m, places[p].layer, p, i) != Empty
    ensures InSlot(places[p], i, va) && va < MAX_BASE && Walk(m, va).Hit?
    decreases 4 - places[p].layer
  {
    hide EntrySize;
    var pl := places[p];
    assert Hung(m, places, p);
    var e := EntryAt(m, pl.layer, p, i);
    assert EntryOk(places, m.root, p, i, e);
    if e.Page? {
      va := SlotBase(pl, i);
      SlotAligned(pl, i);
      SlotUnique(pl, va, i);
      WalkClimb(m, places, p, va);
      assert WalkFrom(m, pl.layer, p, va).Hit?;
    } else {
      var q := e.addr;
      assert Hung(m, places, q);
      assert q != but;
      var j: nat :| j < ENTRIES && EntryAt(m, places[q].layer, q, j) != Empty;
      va := NonEmptyHits(m, places, but, q, j);
      SlotUnique(places[q], va, j);
      SlotIsTable(pl, i, p);
    }
  }

  // ----- memory safety of the walk

  /** The hardware, walking for `va`, only reads tables that are allocated. */
  predicate StaysInside<W>(m: Memory<W>, layer: nat, p: nat, va: nat)
    decreases 4 - layer
  {
    layer >= 4 ||
    (HasTable(m, p) &&
     var e := EntryAt(m, layer, p, SlotOf(layer, va));
     e.Directory? ==> StaysInside(m, layer + 1, e.addr, va))
  }

  ghost predicate NoDangling<W>(m: Memory<W>) {
    forall va: nat | va < MAX_BASE :: StaysInside(m, 0, m.root, va)
  }

  lemma {:induction false} HangsStaysInside<W>(m: Memory<W>, places: map<nat, Place>, p: nat, va: nat)
    requires Hangs(m, places) && p in places && InTable(places[p], va)
    ensures StaysInside(m, places[p].layer, p, va)
    decreases 4 - places[p].layer
  {
    hide EntrySize;
    WalkEnters(m, places, p, va);
    var e := EntryAt(m, places[p].layer, p, SlotOf(places[p].layer, va));
    if e.Directory? {
      HangsStaysInside(m, places, e.addr, va);
    }
  }

  lemma RootCovers(va: nat)
    requires va < MAX_BASE
    ensures va < TableSize(0)
  {
  }

  lemma HangsNoDangling<W>(m: Memory<W>, places: map<nat, Place>)
    requires Hangs(m, places)
    ensures NoDangling(m)
  {
    forall va: nat | va < MAX_BASE ensures StaysInside(m, 0, m.root, va) {
      RootCovers(va);
      assert Hung(m, places, m.root);
      HangsStaysInside(m, places, m.root, va);
    }
  }

  lemma {:induction false} ExtraPageStaysInside<W>(m: Memory<W>, m': Memory<W>, layer: nat, p: nat, va: nat)
    requires m'.view == m.view && (forall q: nat | q in m.pages :: q in m'.pages && m'.pages[q] == m.pages[q])
    requires StaysInside(m, layer, p, va)
    ensures StaysInside(m', layer, p, va)
    decreases 4 - layer
  {
  }
}
