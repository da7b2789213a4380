/** The page table as the kernel keeps it: pages of words, changed in place. */
module PageTableImpl {
  import opened Definitions
  import opened Indexing
  import opened Words
  import opened PageTables
  import opened PageTableWrites
  import opened PageEntries
  import FlatMap
  import PageTableUse

  type Pages = map<nat, seq<bv64>>

  /** Memory between two actions of the kernel: the pages in use, and the free ones. */
  datatype Snapshot = Snapshot(pages: Pages, free: set<nat>)

  function Viewer(width: nat): (nat, bv64) -> Entry {
    (layer: nat, v: bv64) => View(width, layer, v)
  }

  function MemoryOf(width: nat, root: nat, pages: Pages): Memory<bv64> {
    Memory(pages, root, Viewer(width))
  }

  const ZERO_PAGE: seq<bv64> := seq(ENTRIES, (_: nat) => 0 as bv64)

  /** Every word was built by the kernel for the layer of its table. */
  ghost predicate WordsOk(width: nat, pages: Pages, places: map<nat, Place>) {
    forall p: nat, i: nat | p in pages && p in places && i < |pages[p]| ::
      WellBuilt(width, places[p].layer, pages[p][i])
  }

  predicate PageAddressOk(width: nat, p: nat) {
    p % PAGE_SIZE == 0 && p < Pow2(width)
  }

  /** Pages are aligned, within the physical address width, and either in use or free. */
  ghost predicate AddressesOk(width: nat, used: set<nat>, free: set<nat>) {
    used !! free && forall p: nat | p in used || p in free :: PageAddressOk(width, p)
  }

  /** The memory states from `from` on all show `before`, except that the last shows `after`. */
  ghost predicate OneWriteShows(width: nat, root: nat, states: seq<Snapshot>,
      from: nat, before: map<nat, PTE>, after: map<nat, PTE>) {
    && from < |states|
    && (forall k: nat | from <= k < |states| - 1 :: Shows(width, root, states[k].pages, before))
    && Shows(width, root, states[|states| - 1].pages, after)
  }

  ghost predicate AllShow(width: nat, root: nat, states: seq<Snapshot>, from: nat, mappings: map<nat, PTE>) {
    forall k: nat | from <= k < |states| :: Shows(width, root, states[k].pages, mappings)
  }

  /** In this memory state the hardware sees exactly `mappings`, and no entry leads outside allocated pages. */
  ghost predicate Shows(width: nat, root: nat, pages: Pages, mappings: map<nat, PTE>) {
    Interp(MemoryOf(width, root, pages)) == mappings && NoDangling(MemoryOf(width, root, pages))
  }

  ghost predicate IsLast(states: seq<Snapshot>, s: Snapshot) {
    0 < |states| && states[|states| - 1] == s
  }

  /** From state number `from` on, every state has only such pages free as were free in the one before it. */
  ghost predicate FreeFalls(states: seq<Snapshot>, from: nat) {
    0 < from && forall k: nat | from <= k < |states| :: states[k].free <= states[k - 1].free
  }

  /** From state number `from` on, what was free stays free. */
  ghost predicate FreeGrows(states: seq<Snapshot>, from: nat) {
    0 < from && forall k: nat | from <= k < |states| :: states[k - 1].free <= states[k].free
  }

  predicate IsPrefix<T(==)>(s: seq<T>, t: seq<T>) {
    |s| <= |t| && t[..|s|] == s
  }

  /** Pages that form a page table built by the kernel. */
  ghost predicate Built(width: nat, root: nat, pages: Pages, places: map<nat, Place>) {
    && WidthOk(width)
    && Hangs(MemoryOf(width, root, pages), places)
    && WordsOk(width, pages, places)
  }

  // ----- what each write of the kernel does

  lemma BuiltShows(width: nat, root: nat, pages: Pages, places: map<nat, Place>)
    requires Built(width, root, pages, places)
    ensures Shows(width, root, pages, Interp(MemoryOf(width, root, pages)))
  {
    hide Hangs, NoDangling, Interp;
    HangsNoDangling(MemoryOf(width, root, pages), places);
  }

  lemma WordsOkAfterWrite(width: nat, pages: Pages, places: map<nat, Place>, p: nat, i: nat, v: bv64)
    requires WordsOk(width, pages, places) && p in pages && p in places && i < |pages[p]|
    requires WellBuilt(width, places[p].layer, v)
    ensures WordsOk(width, pages[p := pages[p][i := v]], places)
  {
  }

  /** Writing a page entry over an unused one. */
  lemma PageWritten(width: nat, root: nat, pages: Pages, places: map<nat, Place>, p: nat, i: nat, pte: PTE)
    requires Built(width, root, pages, places) && p in places && i < ENTRIES && 0 < places[p].layer
    requires HasTable(MemoryOf(width, root, pages), p) &&
      EntryAt(MemoryOf(width, root, pages), places[p].layer, p, i) == Empty
    requires places[p].layer < 4 && pte.frame.size == EntrySize(places[p].layer)
    requires pte.frame.base % pte.frame.size == 0 && pte.frame.base < Pow2(width)
    ensures
      var v := NewPageEntry(places[p].layer, pte);
      var pages' := pages[p := pages[p][i := v]];
      && Built(width, root, pages', places)
      && MemoryOf(width, root, pages') == Store(MemoryOf(width, root, pages), p, i, v)
      && View(width, places[p].layer, v) == Page(pte.frame.base, pte.flags)
      && Interp(MemoryOf(width, root, pages')) == Interp(MemoryOf(width, root, pages))[SlotBase(places[p], i) := pte]
  {
    var v := NewPageEntry(places[p].layer, pte);
    BuiltFacts(width, root, pages, places, p);
    hide *;
    PageEntryReadsBack(width, places[p].layer, pte);
    StoredIs(width, root, pages, places[p].layer, p, i, v);
    PageStored(MemoryOf(width, root, pages), places, p, i, v, pte);
    WordsOkAfterWrite(width, pages, places, p, i, v);
    BuiltFrom(width, root, pages[p := pages[p][i := v]], places);
  }

  lemma BuiltFacts(width: nat, root: nat, pages: Pages, places: map<nat, Place>, p: nat)
    requires Built(width, root, pages, places) && p in places
    ensures WidthOk(width) && Hangs(MemoryOf(width, root, pages), places) && WordsOk(width, pages, places)
    ensures MemoryOf(width, root, pages).root == root && HasTable(MemoryOf(width, root, pages), p)
    ensures p in pages && |pages[p]| == ENTRIES
  {
    hide WordsOk, WidthOk;
    HungFacts(MemoryOf(width, root, pages), places, p);
  }

  lemma BuiltFrom(width: nat, root: nat, pages: Pages, places: map<nat, Place>)
    requires WidthOk(width) && Hangs(MemoryOf(width, root, pages), places) && WordsOk(width, pages, places)
    ensures Built(width, root, pages, places)
  {
  }

  lemma StoredIs(width: nat, root: nat, pages: Pages, layer: nat, p: nat, i: nat, v: bv64)
    requires p in pages && i < |pages[p]| == ENTRIES
    ensures
      var m := MemoryOf(width, root, pages);
      && HasTable(m, p)
      && MemoryOf(width, root, pages[p := pages[p][i := v]]) == Store(m, p, i, v)
      && m.view(layer, v) == View(width, layer, v)
  {
    hide View;
  }

  lemma PageStored(m: Memory<bv64>, places: map<nat, Place>, p: nat, i: nat, v: bv64, pte: PTE)
    requires Hangs(m, places) && p in places && i < ENTRIES && 0 < places[p].layer < 4
    requires HasTable(m, p) && EntryAt(m, places[p].layer, p, i) == Empty
    requires pte.frame.size == EntrySize(places[p].layer) && pte.frame.base % pte.frame.size == 0
    requires m.view(places[p].layer, v) == Page(pte.frame.base, pte.flags)
    ensures Hangs(Store(m, p, i, v), places)
    ensures Interp(Store(m, p, i, v)) == Interp(m)[SlotBase(places[p], i) := pte]
  {
    assert EntryOk(places, m.root, p, i, Page(pte.frame.base, pte.flags));
    hide *;
    StorePageInserts(m, places, p, i, v);
  }

  /** Clearing a page entry. */
  lemma PageCleared(width: nat, root: nat, pages: Pages, places: map<nat, Place>, p: nat, i: nat)
    requires Built(width, root, pages, places) && p in places && i < ENTRIES
    requires HasTable(MemoryOf(width, root, pages), p) &&
      EntryAt(MemoryOf(width, root, pages), places[p].layer, p, i).Page?
    ensures
      var pages' := pages[p := pages[p][i := 0]];
      && Built(width, root, pages', places)
      && MemoryOf(width, root, pages') == Store(MemoryOf(width, root, pages), p, i, 0)
      && SlotBase(places[p], i) in Interp(MemoryOf(width, root, pages))
      && Interp(MemoryOf(width, root, pages')) == Interp(MemoryOf(width, root, pages)) - {SlotBase(places[p], i)}
  {
    var m := MemoryOf(width, root, pages);
    ZeroIsEmpty(width, places[p].layer);
    hide EntrySize, Hangs, Interp, EntryOk, WordsOk, WellBuilt, View, EntryAt;
    StoreEmptyRemoves(m, places, p, i, 0);
    WordsOkAfterWrite(width, pages, places, p, i, 0);
  }

  lemma ZeroPageEmpty(width: nat, layer: nat)
    ensures AllEmpty(Viewer(width), layer, ZERO_PAGE)
  {
  }

  /** A fresh page, and then the directory entry that refers to it. */
  lemma DirectoryInserted(width: nat, root: nat, pages: Pages, places: map<nat, Place>, p: nat, i: nat, x: nat,
                          d: bv64, pages1: Pages, pages2: Pages)
    requires p in places && p in pages && |pages[p]| == ENTRIES && i < ENTRIES && x !in pages
    requires d == NewDirEntry(places[p].layer, x)
    requires pages1 == pages[x := ZERO_PAGE] && pages2 == pages1[p := pages1[p][i := d]]
    requires Built(width, root, pages, places) && places[p].layer < 3 && PageAddressOk(width, x)
    requires EntryAt(MemoryOf(width, root, pages), places[p].layer, p, i) == Empty
    ensures Built(width, root, pages2, places[x := PlaceBelow(places, p, i)])
    ensures View(width, places[p].layer, d) == Directory(x, PERMISSIVE)
    ensures Shows(width, root, pages1, Interp(MemoryOf(width, root, pages)))
    ensures Shows(width, root, pages2, Interp(MemoryOf(width, root, pages)))
  {
    var m := MemoryOf(width, root, pages);
    var places2 := places[x := PlaceBelow(places, p, i)];
    hide AddPage, AllEmpty, EntryAt, Hangs, Interp, MappingAt, NewDirEntry, NoDangling, PlaceBelow, Pow2, Store,
         View, Walk, WellBuilt, WidthOk, WordsOk;
    DirEntryReadsBack(width, places[p].layer, x);
    ZeroPageEmpty(width, places[p].layer + 1);
    assert HasTable(m, p) && x !in m.pages;
    DirectoryWords(width, pages, places, p, i, x);
    InsertedMemory(width, root, pages, p, i, x, d);
    assert Insertable(m, places, p, i, x, ZERO_PAGE, d);
    FreshPageInvisible(m, places, x, ZERO_PAGE);
    FreshPageNoDangling(m, places, x, ZERO_PAGE);
    InsertHangs(m, places, p, i, x, ZERO_PAGE, d);
    EmptyTableInvisible(m, places, p, i, x, ZERO_PAGE, d);
    HangsNoDangling(MemoryOf(width, root, pages2), places2);
  }

  lemma InsertedMemory(width: nat, root: nat, pages: Pages, p: nat, i: nat, x: nat, d: bv64)
    requires p in pages && |pages[p]| == ENTRIES && i < ENTRIES && x !in pages
    ensures HasTable(AddPage(MemoryOf(width, root, pages), x, ZERO_PAGE), p)
    ensures
      var pages1 := pages[x := ZERO_PAGE];
      && MemoryOf(width, root, pages1) == AddPage(MemoryOf(width, root, pages), x, ZERO_PAGE)
      && MemoryOf(width, root, pages1[p := pages1[p][i := d]])
        == Store(AddPage(MemoryOf(width, root, pages), x, ZERO_PAGE), p, i, d)
  {
  }

  lemma DirectoryWords(width: nat, pages: Pages, places: map<nat, Place>, p: nat, i: nat, x: nat)
    requires WordsOk(width, pages, places) && p in pages && p in places && x !in pages && i < |pages[p]|
    requires WellBuilt(width, places[p].layer, NewDirEntry(places[p].layer, x))
    ensures
      var pages1 := pages[x := ZERO_PAGE];
      WordsOk(width, pages1[p := pages1[p][i := NewDirEntry(places[p].layer, x)]],
          places[x := PlaceBelow(places, p, i)])
  {
  }

  lemma FreshPageNoDangling<W>(m: Memory<W>, places: map<nat, Place>, x: nat, ws: seq<W>)
    requires Hangs(m, places) && x !in m.pages
    ensures NoDangling(AddPage(m, x, ws))
  {
    HangsNoDangling(m, places);
    hide Hangs, StaysInside;
    forall va: nat | va < MAX_BASE ensures StaysInside(AddPage(m, x, ws), 0, m.root, va) {
      ExtraPageStaysInside(m, AddPage(m, x, ws), 0, m.root, va);
    }
  }

  /** Clearing the entry of an empty directory, and then freeing its page. */
  lemma DirectoryRemoved(width: nat, root: nat, pages: Pages, places: map<nat, Place>, x: nat)
    requires Built(width, root, pages, places) && x in places && x != root
    requires HasTable(MemoryOf(width, root, pages), x) && IsEmptyTable(MemoryOf(width, root, pages), places[x].layer, x)
    ensures
      var p, i := places[x].up, places[x].idx;
      && p in places && p in pages && i < |pages[p]|
      && var pages1 := pages[p := pages[p][i := 0]];
      var before := Interp(MemoryOf(width, root, pages));
      && Shows(width, root, pages1, before)
      && Shows(width, root, pages1 - {x}, before)
      && Built(width, root, pages1 - {x}, places - {x})
  {
    var m := MemoryOf(width, root, pages);
    assert Hung(m, places, x);
    var p, i := places[x].up, places[x].idx;
    var pages1 := pages[p := pages[p][i := 0]];
    var m' := CutOff(m, places, x, 0);
    ZeroIsEmpty(width, places[x].layer - 1);
    ZeroIsEmpty(width, places[p].layer);
    assert Removable(m, places, x, 0);
    hide EntrySize, Hangs, Interp, EntryOk, WellBuilt, View, EntryAt, NoDangling, SlotBase, IsEmptyTable, Hung,
         PlaceOk;
    RemoveHangs(m, places, x, 0);
    RemoveInvisible(m, places, x, 0);
    CutOffUndone(m, places, x, 0);
    assert MemoryOf(width, root, pages1) == Store(m, p, i, 0);
    assert MemoryOf(width, root, pages1 - {x}) == m';
    FreshPageNoDangling(m', places - {x}, x, pages[x]);
    HangsNoDangling(m', places - {x});
    WordsOkAfterWrite(width, pages, places, p, i, 0);
    assert WordsOk(width, pages1 - {x}, places - {x});
  }

  // ----- which tables are empty

  lemma SameTable<W>(m: Memory<W>, m': Memory<W>, layer: nat, q: nat)
    requires HasTable(m, q) && HasTable(m', q) && m'.pages[q] == m.pages[q] && m'.view == m.view
    ensures IsEmptyTable(m', layer, q) == IsEmptyTable(m, layer, q)
  {
    assert forall i: nat | i < ENTRIES :: EntryAt(m', layer, q, i) == EntryAt(m, layer, q, i);
  }

  /** Table p changed and is the exception before, or gets an entry in use. */
  lemma NonEmptyAfter<W>(m: Memory<W>, places: map<nat, Place>, but: nat,
                         m': Memory<W>, places': map<nat, Place>, but': nat, p: nat)
    requires Hangs(m, places) && Hangs(m', places') && NonEmpty(m, places, but)
    requires m'.view == m.view && m'.root == m.root
    requires p == m.root || p == but' || (p in places' && !IsEmptyTable(m', places'[p].layer, p))
    requires forall q: nat | q in places' && q != p && q != but' && q != m.root ::
      q in places && q != but && places'[q] == places[q] && m'.pages[q] == m.pages[q]
    ensures NonEmpty(m', places', but')
  {
    forall q: nat | q in places' && q != m.root && q != but' ensures !IsEmptyTable(m', places'[q].layer, q) {
      if q != p {
        assert Hung(m, places, q) && Hung(m', places', q);
        SameTable(m, m', places[q].layer, q);
      }
    }
  }

  /** What a request to map at `vaddr` must satisfy below a table at `layer` whose first address is `base`. */
  ghost predicate Accepted(width: nat, layer: nat, base: nat, vaddr: nat, pte: PTE) {
    && layer < 4
    && (exists k: nat | layer <= k < 4 && 0 < k :: pte.frame.size == EntrySize(k))
    && vaddr % pte.frame.size == 0
    && pte.frame.base % pte.frame.size == 0
    && pte.frame.base < Pow2(width)
    && base <= vaddr < base + TableSize(layer)
  }

  // ----- reading an entry as the kernel does

  /** The entry for `va` in table p: what the kernel reads there is what the hardware sees. */
  lemma LookUp(width: nat, root: nat, pages: Pages, places: map<nat, Place>, p: nat, va: nat)
    requires Built(width, root, pages, places) && p in places && InTable(places[p], va)
    ensures HasTable(MemoryOf(width, root, pages), p) && PlaceOk(places[p])
    ensures
      var pl := places[p];
      var i := IndexOf(pl.base, va, EntrySize(pl.layer));
      && i < ENTRIES && i == SlotOf(pl.layer, va) && InSlot(pl, i, va)
      && var v, e := pages[p][i], EntryAt(MemoryOf(width, root, pages), pl.layer, p, i);
      && (IsMapping(v) <==> e != Empty)
      && (IsMapping(v) ==> (IsPage(v, pl.layer) <==> e.Page?) && Address(width, v) == e.addr && FlagsOf(v) == e.flags)
      && EntryOk(places, root, p, i, e)
      && (e.Directory? ==> InTable(places[e.addr], va))
  {
    var m := MemoryOf(width, root, pages);
    var pl := places[p];
    hide EntrySize;
    assert Hung(m, places, p);
    SlotBounds(pl, va);
    var i := SlotOf(pl.layer, va);
    var v := pages[p][i];
    assert WellBuilt(width, pl.layer, v);
    KernelReads(width, pl.layer, v);
    assert EntryAt(m, pl.layer, p, i) == View(width, pl.layer, v);
    WalkEnters(m, places, p, va);
    hide View, WellBuilt, IsMapping, IsPage, Address, FlagsOf;
  }

  // ----- does a request overlap existing mappings?

  lemma MapOverPage<W>(m: Memory<W>, places: map<nat, Place>, p: nat, i: nat, vaddr: nat, pte: PTE)
    requires Hangs(m, places) && p in places && i < ENTRIES && InSlot(places[p], i, vaddr) && 0 < pte.frame.size
    requires HasTable(m, p) && EntryAt(m, places[p].layer, p, i).Page?
    ensures OverlapsExistingVmem(Interp(m), vaddr, pte)
  {
    hide EntrySize, Walk;
    assert Hung(m, places, p);
    WalkLeaf(m, places, p, i, vaddr);
    SlotAligned(places[p], i);
    HitOverlaps(m, vaddr, pte, vaddr);
  }

  lemma MapOverDirectory<W>(m: Memory<W>, places: map<nat, Place>, p: nat, i: nat, vaddr: nat, pte: PTE)
    requires Hangs(m, places) && NonEmpty(m, places, p)
    requires p in places && i < ENTRIES && InSlot(places[p], i, vaddr)
    requires places[p].layer < 4 && pte.frame.size == EntrySize(places[p].layer) && vaddr % pte.frame.size == 0
    requires HasTable(m, p) && EntryAt(m, places[p].layer, p, i).Directory?
    ensures OverlapsExistingVmem(Interp(m), vaddr, pte)
  {
    hide EntrySize, Walk;
    assert Hung(m, places, p);
    SlotAligned(places[p], i);
    var va := NonEmptyHits(m, places, p, p, i);
    HitOverlaps(m, vaddr, pte, va);
  }

  lemma SizeDivides(layer: nat, k: nat)
    requires layer <= k < 4
    ensures EntrySize(layer) % EntrySize(k) == 0
  {
  }

  lemma RequestInSlot(width: nat, pl: Place, i: nat, vaddr: nat, pte: PTE)
    requires PlaceOk(pl) && i < ENTRIES && InSlot(pl, i, vaddr) && Accepted(width, pl.layer, pl.base, vaddr, pte)
    ensures SlotBase(pl, i) <= vaddr && vaddr + pte.frame.size <= SlotBase(pl, i) + EntrySize(pl.layer)
  {
    var k: nat :| pl.layer <= k < 4 && 0 < k && pte.frame.size == EntrySize(k);
    SlotAligned(pl, i);
    SizeDivides(pl.layer, k);
    hide EntrySize;
    var b, s := SlotBase(pl, i), EntrySize(pl.layer);
    MultipleOf(b, s, pte.frame.size);
    AlignedSum(b, s, pte.frame.size);
    BlockFits(vaddr, pte.frame.size, b + s);
  }

  lemma MapOverEmpty<W>(m: Memory<W>, places: map<nat, Place>, width: nat, p: nat, i: nat, vaddr: nat, pte: PTE)
    requires Hangs(m, places) && p in places && i < ENTRIES && InSlot(places[p], i, vaddr)
    requires Accepted(width, places[p].layer, places[p].base, vaddr, pte)
    requires HasTable(m, p) && EntryAt(m, places[p].layer, p, i) == Empty
    ensures !OverlapsExistingVmem(Interp(m), vaddr, pte)
  {
    hide EntrySize, Walk;
    assert Hung(m, places, p);
    RequestInSlot(width, places[p], i, vaddr, pte);
    forall va: nat | vaddr <= va < vaddr + pte.frame.size ensures Walk(m, va) == Fault {
      WalkLeaf(m, places, p, i, va);
    }
    FaultsDontOverlap(m, vaddr, pte);
  }

  lemma AcceptedBelow(width: nat, pl: Place, i: nat, vaddr: nat, pte: PTE, q: nat)
    requires PlaceOk(pl) && i < ENTRIES && InSlot(pl, i, vaddr) && Accepted(width, pl.layer, pl.base, vaddr, pte)
    requires pte.frame.size != EntrySize(pl.layer)
    ensures pl.layer < 3 && Accepted(width, pl.layer + 1, SlotBase(pl, i), vaddr, pte)
  {
  }

  lemma AppendTwo(width: nat, root: nat, states: seq<Snapshot>, s1: Snapshot, s2: Snapshot, mappings: map<nat, PTE>)
    requires Shows(width, root, s1.pages, mappings) && Shows(width, root, s2.pages, mappings)
    ensures AllShow(width, root, states + [s1, s2], |states|, mappings)
    ensures IsPrefix(states, states + [s1, s2])
  {
  }

  /** An accepted request whose size is that of the unused entry for its address fills that entry. */
  lemma MapHere(width: nat, root: nat, pages: Pages, places: map<nat, Place>, p: nat, i: nat, vaddr: nat, pte: PTE)
    requires Built(width, root, pages, places) && p in places && NonEmpty(MemoryOf(width, root, pages), places, p)
    requires PlaceOk(places[p]) && i < ENTRIES && InSlot(places[p], i, vaddr)
    requires Accepted(width, places[p].layer, places[p].base, vaddr, pte) &&
      pte.frame.size == EntrySize(places[p].layer)
    requires HasTable(MemoryOf(width, root, pages), p) &&
      EntryAt(MemoryOf(width, root, pages), places[p].layer, p, i) == Empty
    ensures
      var pages' := pages[p := pages[p][i := NewPageEntry(places[p].layer, pte)]];
      && Built(width, root, pages', places)
      && NonEmpty(MemoryOf(width, root, pages'), places, root)
      && Interp(MemoryOf(width, root, pages')) == Interp(MemoryOf(width, root, pages))[vaddr := pte]
  {
    hide Built, EntryAt, EntrySize, Hangs, InSlot, Interp, MappingAt, NewPageEntry, NonEmpty, Pow2, SlotBase,
         Store, TableSize, View, Viewer, Walk;
    SizeNotRoot(width, places[p].layer, places[p].base, vaddr, pte);
    SlotAligned(places[p], i);
    assert vaddr == SlotBase(places[p], i);
    PageWritten(width, root, pages, places, p, i, pte);
    CompactAfterWrite(width, root, pages, places, p, i, NewPageEntry(places[p].layer, pte));
  }

  lemma SizeNotRoot(width: nat, layer: nat, base: nat, vaddr: nat, pte: PTE)
    requires Accepted(width, layer, base, vaddr, pte) && pte.frame.size == EntrySize(layer)
    ensures 0 < layer
  {
  }

  lemma EntryReads(width: nat, root: nat, pages: Pages, places: map<nat, Place>, p: nat, i: nat)
    requires Built(width, root, pages, places) && p in places && i < ENTRIES
    ensures HasTable(MemoryOf(width, root, pages), p)
    ensures IsMapping(pages[p][i]) <==> EntryAt(MemoryOf(width, root, pages), places[p].layer, p, i) != Empty
  {
    assert Hung(MemoryOf(width, root, pages), places, p);
    assert WellBuilt(width, places[p].layer, pages[p][i]);
    KernelReads(width, places[p].layer, pages[p][i]);
    hide View, WellBuilt, IsMapping;
  }

  // ----- is there a mapping at an address?

  lemma NothingToUnmap<W>(m: Memory<W>, places: map<nat, Place>, p: nat, i: nat, vaddr: nat)
    requires Hangs(m, places) && p in places && i < ENTRIES && InSlot(places[p], i, vaddr)
    requires HasTable(m, p)
    requires
      var e := EntryAt(m, places[p].layer, p, i);
      e == Empty || (e.Page? && vaddr % EntrySize(places[p].layer) != 0)
    ensures vaddr !in Interp(m)
  {
    hide EntrySize, Walk;
    WalkLeaf(m, places, p, i, vaddr);
  }

  lemma PageToUnmap<W>(m: Memory<W>, places: map<nat, Place>, p: nat, i: nat, vaddr: nat)
    requires Hangs(m, places) && p in places && i < ENTRIES && InSlot(places[p], i, vaddr)
    requires PlaceOk(places[p]) && vaddr % EntrySize(places[p].layer) == 0
    ensures vaddr == SlotBase(places[p], i)
  {
    SlotAligned(places[p], i);
  }

  /** Tables disappear only from the layers below `layer`, and no table moves. */
  ghost predicate PlacesBelowRemoved(before: map<nat, Place>, after: map<nat, Place>, layer: nat) {
    && (forall q: nat | q in after :: q in before && after[q] == before[q])
    && (forall q: nat | q in before && before[q].layer <= layer :: q in after)
  }

  lemma TablesThere(width: nat, root: nat, pages: Pages, places: map<nat, Place>, x: nat)
    requires Built(width, root, pages, places) && x in places && x != root
    ensures x in pages && HasTable(MemoryOf(width, root, pages), x)
    ensures places[x].up in places && HasTable(MemoryOf(width, root, pages), places[x].up) && places[x].idx < ENTRIES
  {
    assert Hung(MemoryOf(width, root, pages), places, x);
    assert HasTable(MemoryOf(width, root, pages), x) && places[x].up in places
        && HasTable(MemoryOf(width, root, pages), places[x].up) && places[x].idx < ENTRIES;
  }

  lemma AddressFreed(width: nat, used: set<nat>, free: set<nat>, x: nat)
    requires AddressesOk(width, used, free) && x in used
    ensures AddressesOk(width, used - {x}, free + {x}) && (used - {x}) + (free + {x}) == used + free
  {
  }

  lemma PlaceRemoved(before: map<nat, Place>, after: map<nat, Place>, layer: nat, x: nat)
    requires PlacesBelowRemoved(before, after, layer + 1) && x in after && after[x].layer == layer + 1
    ensures PlacesBelowRemoved(before, after - {x}, layer)
  {
  }

  lemma ShowsMore(width: nat, root: nat, s0: seq<Snapshot>, s1: seq<Snapshot>, s2: seq<Snapshot>,
      mappings: map<nat, PTE>)
    requires IsPrefix(s0, s1) && AllShow(width, root, s1, |s0|, mappings)
    requires IsPrefix(s1, s2) && AllShow(width, root, s2, |s1|, mappings)
    ensures IsPrefix(s0, s2) && |s1| <= |s2| && AllShow(width, root, s2, |s0|, mappings)
  {
    hide Shows;
    assert s2[..|s0|] == s2[..|s1|][..|s0|];
    forall k: nat | |s0| <= k < |s2| ensures Shows(width, root, s2[k].pages, mappings) {
      if k < |s1| {
        assert s2[k] == s2[..|s1|][k] == s1[k];
      }
    }
  }

  /** Clearing the entry of an empty directory and freeing its page, with what stays true of the rest. */
  lemma DirectoryUnhooked(width: nat, root: nat, pages: Pages, places: map<nat, Place>, x: nat, mappings: map<nat, PTE>)
    requires Built(width, root, pages, places) && x in places && x != root
    requires HasTable(MemoryOf(width, root, pages), x) && IsEmptyTable(MemoryOf(width, root, pages), places[x].layer, x)
    requires NonEmpty(MemoryOf(width, root, pages), places, x)
    requires Interp(MemoryOf(width, root, pages)) == mappings
    ensures
      var p, i := places[x].up, places[x].idx;
      && p in places && p in pages && i < |pages[p]| && p != x
      && var pages1 := pages[p := pages[p][i := 0]];
      && Shows(width, root, pages1, mappings)
      && Shows(width, root, pages1 - {x}, mappings)
      && Interp(MemoryOf(width, root, pages1 - {x})) == mappings
      && Built(width, root, pages1 - {x}, places - {x})
      && NonEmpty(MemoryOf(width, root, pages1 - {x}), places - {x}, p)
  {
    DirectoryRemoved(width, root, pages, places, x);
    var p, i := places[x].up, places[x].idx;
    var m, m' := MemoryOf(width, root, pages), MemoryOf(width, root, pages[p := pages[p][i := 0]] - {x});
    assert p != x by { assert Hung(m, places, x); }
    hide Hangs, Interp, NoDangling, IsEmptyTable;
    NonEmptyAfter(m, places, x, m', places - {x}, p, p);
  }

  lemma NotEmptyAfterAll<W>(m: Memory<W>, places: map<nat, Place>, x: nat, but: nat)
    requires Hangs(m, places) && NonEmpty(m, places, x) && x in places
    requires HasTable(m, x) && !IsEmptyTable(m, places[x].layer, x)
    ensures NonEmpty(m, places, but)
  {
  }

  lemma NonEmptyAfterClear(width: nat, root: nat, pages: Pages, places: map<nat, Place>, p: nat, i: nat)
    requires Built(width, root, pages, places) && p in places && NonEmpty(MemoryOf(width, root, pages), places, root)
    requires p in pages && i < |pages[p]| && Built(width, root, pages[p := pages[p][i := 0]], places)
    ensures NonEmpty(MemoryOf(width, root, pages[p := pages[p][i := 0]]), places, p)
  {
    hide Hangs, WordsOk;
    NonEmptyAfter(MemoryOf(width, root, pages), places, root, MemoryOf(width, root, pages[p := pages[p][i := 0]]),
        places, p, p);
  }

  lemma FirstWrite(width: nat, root: nat, states: seq<Snapshot>, s: Snapshot, places: map<nat, Place>)
    requires Built(width, root, s.pages, places)
    ensures IsPrefix(states, states + [s])
    ensures AllShow(width, root, states + [s], |states|, Interp(MemoryOf(width, root, s.pages)))
  {
    BuiltShows(width, root, s.pages, places);
    hide Shows, Built;
  }

  lemma RootPlace(width: nat, root: nat, pages: Pages, places: map<nat, Place>)
    requires Built(width, root, pages, places)
    ensures root in places && places[root] == Place(0, 0, root, 0)
  {
    assert Hung(MemoryOf(width, root, pages), places, root);
  }

  lemma PageResolves<W>(m: Memory<W>, places: map<nat, Place>, p: nat, i: nat, va: nat)
    requires Hangs(m, places) && p in places && i < ENTRIES && InSlot(places[p], i, va) && PlaceOk(places[p])
    requires HasTable(m, p) && EntryAt(m, places[p].layer, p, i).Page?
    ensures
      var e, size := EntryAt(m, places[p].layer, p, i), EntrySize(places[p].layer);
      FlatMap.Resolves(Interp(m), va, Ok((SlotBase(places[p], i), PTE(MemRegion(e.addr, size), e.flags))))
  {
    hide EntrySize, Walk, PlaceOk, EntryAt, Hangs;
    var base := SlotBase(places[p], i);
    SlotAligned(places[p], i);
    WalkLeaf(m, places, p, i, base);
    assert MappingAt(Walk(m, base), base).Some?;
    forall b: nat | FlatMap.Covers(Interp(m), b, va) ensures b == base {
      MappingsDisjoint(m, b, base, va);
    }
  }

  lemma NothingResolves<W>(m: Memory<W>, places: map<nat, Place>, p: nat, i: nat, va: nat)
    requires Hangs(m, places) && p in places && i < ENTRIES && InSlot(places[p], i, va)
    requires HasTable(m, p) && EntryAt(m, places[p].layer, p, i) == Empty
    ensures FlatMap.Resolves(Interp(m), va, Err)
  {
    hide EntrySize, Walk, EntryAt, Hangs;
    WalkLeaf(m, places, p, i, va);
    forall b: nat ensures !FlatMap.Covers(Interp(m), b, va) {
      if FlatMap.Covers(Interp(m), b, va) {
        MappedIsHit(m, b, va);
      }
    }
  }

  lemma EmptyRoot(width: nat, root: nat)
    requires WidthOk(width)
    ensures
      var pages, places := map[root := ZERO_PAGE], map[root := Place(0, 0, root, 0)];
      && Built(width, root, pages, places)
      && NonEmpty(MemoryOf(width, root, pages), places, root)
      && Interp(MemoryOf(width, root, pages)) == map[]
  {
  }

  /** What the kernel's interface accepts; a frame to map must be aligned, of a page size, and addressable. */
  ghost predicate AcceptedCall(width: nat, c: FlatMap.Call) {
    match c
    case MapCall(base, pte) => Accepted(width, 0, 0, base, pte)
    case UnmapCall(base) => base < MAX_BASE
  }

  lemma CallOutcome(before: map<nat, PTE>, after: map<nat, PTE>, c: FlatMap.Call, ok: bool)
    requires
      match c
      case MapCall(base, pte) =>
        && (ok <==> FlatMap.MapFrame(before, base, pte).Ok?)
        && (ok ==> after == FlatMap.MapFrame(before, base, pte).value)
      case UnmapCall(base) =>
        && (ok <==> FlatMap.Unmap(before, base).Ok?)
        && (ok ==> after == FlatMap.Unmap(before, base).value)
    requires !ok ==> after == before
    ensures after == FlatMap.After(before, c) && ok == FlatMap.Succeeds(before, c)
  {
  }

  lemma NoFewer(used0: set<nat>, free0: set<nat>, used: set<nat>, free: set<nat>)
    requires used0 !! free0 && used + free == used0 + free0 && used <= used0
    ensures |free0| <= |free|
  {
    assert free0 <= free;
    assert free == free0 + (free - free0);
  }

  /** Pages go from one side to the other, and no page is lost or counted twice. */
  lemma PagesMove(used0: set<nat>, free0: set<nat>, used: set<nat>, free: set<nat>)
    requires used0 !! free0 && used !! free && used + free == used0 + free0
    ensures used <= used0 ==> free == free0 + (used0 - used)
    ensures used0 <= used ==> free == free0 - (used - used0)
  {
    forall p: nat ensures p in free <==> p in used0 + free0 && p !in used {
      assert p in used + free <==> p in used0 + free0;
    }
    assert used <= used0 ==> free == free0 + (used0 - used);
  }

  lemma PagesTaken(used0: set<nat>, free0: set<nat>, used: set<nat>, free: set<nat>)
    requires used0 !! free0 && used !! free && used + free == used0 + free0 && used0 <= used
    requires |free0| <= |free| + 3
    ensures free == free0 - (used - used0) && |used - used0| <= 3
  {
    PagesMove(used0, free0, used, free);
    var taken := used - used0;
    assert taken <= free0 by { assert taken <= used0 + free0; }
    assert |free0 - taken| == |free0| - |taken|;
  }

  /** When a call removed a mapping and left no empty table, the tables it freed are those it emptied. */
  lemma FreedAreEmptied(width: nat, root: nat, pages0: Pages, places0: map<nat, Place>,
      pages: Pages, places: map<nat, Place>, vaddr: nat)
    requires Built(width, root, pages0, places0) && Built(width, root, pages, places)
    requires NonEmpty(MemoryOf(width, root, pages), places, root)
    requires PlacesBelowRemoved(places0, places, 0)
    requires Interp(MemoryOf(width, root, pages)) == Interp(MemoryOf(width, root, pages0)) - {vaddr}
    ensures places0.Keys == pages0.Keys
    ensures forall p: nat | p in places0 ::
      p in pages <==> p == root || PageTableUse.HoldsMapping(Interp(MemoryOf(width, root, pages)), places0[p])
  {
    var m0, m := MemoryOf(width, root, pages0), MemoryOf(width, root, pages);
    assert places.Keys == m.pages.Keys && places0.Keys == m0.pages.Keys;
    hide Hangs, NonEmpty, WordsOk, Interp;
    forall p: nat | p in places0
      ensures p in pages <==> p == root || PageTableUse.HoldsMapping(Interp(m), places0[p])
    {
      PageTableUse.ExactlyEmptiedGo(m0, places0, m, places, p);
    }
  }

  // ----- putting the states of a call together

  lemma ShowsThenWrite(width: nat, root: nat, s0: seq<Snapshot>, s1: seq<Snapshot>, s2: seq<Snapshot>,
      before: map<nat, PTE>, after: map<nat, PTE>)
    requires IsPrefix(s0, s1) && AllShow(width, root, s1, |s0|, before)
    requires IsPrefix(s1, s2) && OneWriteShows(width, root, s2, |s1|, before, after)
    ensures IsPrefix(s0, s2) && |s0| < |s2| && OneWriteShows(width, root, s2, |s0|, before, after)
  {
    hide Shows;
    assert s2[..|s0|] == s2[..|s1|][..|s0|];
    forall k: nat | |s0| <= k < |s2| - 1 ensures Shows(width, root, s2[k].pages, before) {
      if k < |s1| {
        assert s2[k] == s2[..|s1|][k] == s1[k];
      }
    }
  }

  lemma FallsOn(s0: seq<Snapshot>, s1: seq<Snapshot>, s2: seq<Snapshot>)
    requires IsPrefix(s0, s1) && IsPrefix(s1, s2) && FreeFalls(s1, |s0|) && FreeFalls(s2, |s1|)
    ensures FreeFalls(s2, |s0|)
  {
    forall k: nat | |s0| <= k < |s1| ensures s2[k].free <= s2[k - 1].free {
      assert s2[..|s1|][k] == s2[k] && s2[..|s1|][k - 1] == s2[k - 1];
    }
  }

  lemma GrowsOn(s0: seq<Snapshot>, s1: seq<Snapshot>, s2: seq<Snapshot>)
    requires IsPrefix(s0, s1) && IsPrefix(s1, s2) && FreeGrows(s1, |s0|) && FreeGrows(s2, |s1|)
    ensures FreeGrows(s2, |s0|)
  {
    forall k: nat | |s0| <= k < |s1| ensures s2[k - 1].free <= s2[k].free {
      assert s2[..|s1|][k] == s2[k] && s2[..|s1|][k - 1] == s2[k - 1];
    }
  }

  lemma SameFree(states: seq<Snapshot>, s: Snapshot, last: Snapshot)
    requires IsLast(states, last) && s.free == last.free
    ensures FreeFalls(states + [s], |states|) && FreeGrows(states + [s], |states|)
  {
  }

  lemma FreeOfTwo(states: seq<Snapshot>, s1: Snapshot, s2: Snapshot, last: Snapshot)
    requires IsLast(states, last)
    ensures s2.free <= s1.free <= last.free ==> FreeFalls(states + [s1, s2], |states|)
    ensures last.free <= s1.free <= s2.free ==> FreeGrows(states + [s1, s2], |states|)
  {
  }

  lemma OneWrite(width: nat, root: nat, states: seq<Snapshot>, s: Snapshot, places: map<nat, Place>,
      before: map<nat, PTE>)
    requires Built(width, root, s.pages, places)
    ensures IsPrefix(states, states + [s])
    ensures OneWriteShows(width, root, states + [s], |states|, before, Interp(MemoryOf(width, root, s.pages)))
  {
    BuiltShows(width, root, s.pages, places);
    hide Shows, Built;
  }

  lemma InUse<W>(m: Memory<W>, places: map<nat, Place>, but: nat, p: nat, i: nat, but': nat)
    requires Hangs(m, places) && NonEmpty(m, places, but) && p in places && but == p && i < ENTRIES
    requires HasTable(m, p) && EntryAt(m, places[p].layer, p, i) != Empty
    ensures NonEmpty(m, places, but')
  {
    hide Hangs, EntryAt;
  }

  lemma CompactAfterWrite(width: nat, root: nat, pages: Pages, places: map<nat, Place>, p: nat, i: nat, v: bv64)
    requires Built(width, root, pages, places) && p in places && NonEmpty(MemoryOf(width, root, pages), places, p)
    requires p in pages && |pages[p]| == ENTRIES && i < ENTRIES && View(width, places[p].layer, v) != Empty
    requires Built(width, root, pages[p := pages[p][i := v]], places)
    ensures NonEmpty(MemoryOf(width, root, pages[p := pages[p][i := v]]), places, root)
  {
    hide Hangs, WordsOk, View;
    var m, m' := MemoryOf(width, root, pages), MemoryOf(width, root, pages[p := pages[p][i := v]]);
    assert EntryAt(m', places[p].layer, p, i) == View(width, places[p].layer, v);
    assert HasTable(m', p);
    NonEmptyAfter(m, places, p, m', places, root, p);
  }

  lemma NonEmptyAfterInsert(width: nat, root: nat, pages: Pages, places: map<nat, Place>, p: nat, i: nat, x: nat,
      v: bv64)
    requires Built(width, root, pages, places) && p in places && NonEmpty(MemoryOf(width, root, pages), places, p)
    requires p in pages && |pages[p]| == ENTRIES && i < ENTRIES && View(width, places[p].layer, v) != Empty &&
      x !in places
    requires Built(width, root, pages[x := ZERO_PAGE][p := pages[p][i := v]], places[x := PlaceBelow(places, p, i)])
    ensures NonEmpty(MemoryOf(width, root, pages[x := ZERO_PAGE][p := pages[p][i := v]]),
      places[x := PlaceBelow(places, p, i)], x)
  {
    hide Hangs, WordsOk, View, SlotBase;
    var m, m' := MemoryOf(width, root, pages), MemoryOf(width, root, pages[x := ZERO_PAGE][p := pages[p][i := v]]);
    assert HasTable(m', p);
    assert EntryAt(m', places[p].layer, p, i) == View(width, places[p].layer, v);
    NonEmptyAfter(m, places, p, m', places[x := PlaceBelow(places, p, i)], x, p);
  }

  class PageTableMemory {
    const width: nat
    const cr3: nat
    var pages: Pages
    var free: set<nat>
    ghost var places: map<nat, Place>
    // Every state that memory has been in, up to now.
    ghost var states: seq<Snapshot>

    ghost predicate Valid()
      reads this
    {
      && Built(width, cr3, pages, places)
      && AddressesOk(width, pages.Keys, free)
      && IsLast(states, Snapshot(pages, free))
    }

    function Mem(): Memory<bv64>
      reads this
    {
      MemoryOf(width, cr3, pages)
    }

    /** No table but the root is empty. */
    ghost predicate Compact()
      requires Valid()
      reads this
    {
      NonEmpty(Mem(), places, cr3)
    }

    ghost function Mappings(): map<nat, PTE>
      reads this
    {
      Interp(Mem())
    }

    /** A zeroed root, and nothing mapped. */
    constructor (width: nat, cr3: nat, free: set<nat>)
      requires WidthOk(width) && AddressesOk(width, {cr3}, free)
      ensures Valid() && Compact() && Mappings() == map[]
      ensures this.width == width && this.cr3 == cr3 && this.free == free
      ensures pages == map[cr3 := ZERO_PAGE] && states == [Snapshot(pages, free)]
    {
      this.width := width;
      this.cr3 := cr3;
      this.free := free;
      pages := map[cr3 := ZERO_PAGE];
      places := map[cr3 := Place(0, 0, cr3, 0)];
      states := [Snapshot(map[cr3 := ZERO_PAGE], free)];
      new;
      EmptyRoot(width, cr3);
      hide AddressesOk, Built, Hangs, Interp, MappingAt, MemoryOf, NonEmpty, Walk, WidthOk;
    }

    method Read(p: nat, i: nat) returns (v: bv64)
      requires HasTable(Mem(), p) && i < ENTRIES
      ensures v == pages[p][i]
    {
      v := pages[p][i];
    }

    method Write(p: nat, i: nat, v: bv64)
      requires HasTable(Mem(), p) && i < ENTRIES
      modifies `pages, `states
      ensures pages == old(pages)[p := old(pages)[p][i := v]] && pages.Keys == old(pages).Keys
      ensures states == old(states) + [Snapshot(pages, free)] && IsLast(states, Snapshot(pages, free))
    {
      pages := pages[p := pages[p][i := v]];
      states := states + [Snapshot(pages, free)];
    }

    method AllocPage() returns (p: nat)
      requires 0 < |free|
      modifies `pages, `free, `states
      ensures p in old(free) && free == old(free) - {p}
      ensures pages == old(pages)[p := ZERO_PAGE]
      ensures states == old(states) + [Snapshot(pages, free)] && IsLast(states, Snapshot(pages, free))
    {
      p :| p in free;
      free := free - {p};
      pages := pages[p := ZERO_PAGE];
      states := states + [Snapshot(pages, free)];
    }

    method DeallocPage(p: nat)
      requires p in pages
      modifies `pages, `free, `states
      ensures free == old(free) + {p}
      ensures pages == old(pages) - {p}
      ensures states == old(states) + [Snapshot(pages, free)] && IsLast(states, Snapshot(pages, free))
    {
      free := free + {p};
      pages := pages - {p};
      states := states + [Snapshot(pages, free)];
    }

    // ----- mapping a frame

    /** Allocates an empty directory and makes entry i of table p refer to it. */
    method InsertEmptyDirectory(layer: nat, p: nat, i: nat) returns (x: nat)
      requires Valid() && p in places && i < ENTRIES && places[p].layer == layer < 3
      requires HasTable(Mem(), p) && EntryAt(Mem(), layer, p, i) == Empty
      requires 0 < |free|
      modifies `pages, `free, `states, `places
      ensures Valid()
      ensures x in old(free) && free == old(free) - {x} && |free| == |old(free)| - 1
      ensures x !in old(pages) && pages.Keys + free == old(pages.Keys + free) && old(pages.Keys) <= pages.Keys
      ensures places == old(places)[x := PlaceBelow(old(places), p, i)]
      ensures pages == old(pages)[x := ZERO_PAGE][p := old(pages)[p][i := NewDirEntry(layer, x)]]
      ensures View(width, layer, NewDirEntry(layer, x)) == Directory(x, PERMISSIVE)
      ensures Mappings() == old(Mappings())
      ensures IsPrefix(old(states), states) && AllShow(width, cr3, states, |old(states)|, old(Mappings()))
      ensures FreeFalls(states, |old(states)|)
    {
      hide AllShow, Built, EntryAt, FreeFalls, FreeGrows, Interp, IsLast, IsPrefix, MappingAt, NewDirEntry,
           NoDangling, PageAddressOk, PlaceBelow, View, Viewer, Walk;
      ghost var before, free0, places0, states0 := pages, free, places, states;
      x := AllocPage();
      assert x !in before && PageAddressOk(width, x) && AddressesOk(width, before.Keys + {x}, free);
      assert pages.Keys == before.Keys + {x};
      ghost var pages1 := pages;
      var d := NewDirEntry(layer, x);
      Write(p, i, d);
      places := places[x := PlaceBelow(places, p, i)];
      ghost var pages2 := pages;
      DirectoryInserted(width, cr3, before, places0, p, i, x, d, pages1, pages2);
      assert states == states0 + [Snapshot(pages1, free), Snapshot(pages2, free)];
      AppendTwo(width, cr3, states0, Snapshot(pages1, free), Snapshot(pages2, free),
          Interp(MemoryOf(width, cr3, before)));
      FreeOfTwo(states0, Snapshot(pages1, free), Snapshot(pages2, free), Snapshot(before, free0));
      assert Shows(width, cr3, pages2, Interp(MemoryOf(width, cr3, before)));
    }

    method MapFrameAux(layer: nat, ptr: nat, base: nat, vaddr: nat, pte: PTE) returns (ok: bool)
      requires Valid() && ptr in places && places[ptr].layer == layer && places[ptr].base == base
      requires NonEmpty(Mem(), places, ptr)
      requires 3 <= |free| + layer
      requires Accepted(width, layer, base, vaddr, pte)
      modifies `pages, `free, `states, `places
      ensures Valid()
      ensures ok <==> !OverlapsExistingVmem(old(Mappings()), vaddr, pte)
      ensures ok ==> Compact() && Mappings() == old(Mappings())[vaddr := pte]
      ensures ok ==> IsPrefix(old(states), states) && |old(states)| < |states|
      ensures ok ==> OneWriteShows(width, cr3, states, |old(states)|, old(Mappings()), old(Mappings())[vaddr := pte])
      ensures ok ==> FreeFalls(states, |old(states)|)
      ensures !ok ==> pages == old(pages) && free == old(free) && states == old(states) && places == old(places)
      ensures !ok ==> Mappings() == old(Mappings())
      ensures pages.Keys + free == old(pages.Keys + free) && old(pages.Keys) <= pages.Keys
      ensures |old(free)| + layer <= |free| + 3
      decreases 4 - layer
    {
      hide Address, AddressesOk, AllShow, EntryAt, EntryBase, EntrySize, FlagsOf, FreeFalls, FreeGrows, Hung,
           InSlot, IndexOf, Interp, IsLast, IsMapping, IsPage, IsPrefix, MappingAt, NewDirEntry, NewPageEntry,
           NonEmpty, OneWriteShows,
           OverlapsExistingVmem, PlaceOk, Pow2, SlotOf, TableSize, View, Viewer, Walk, WidthOk, WordsOk;
      LookUp(width, cr3, pages, places, ptr, vaddr);
      ghost var pages0, places0, states0, before := pages, places, states, Mappings();
      var idx := IndexOf(base, vaddr, EntrySize(layer));
      var entry := Read(ptr, idx);
      var entryBase := EntryBase(base, idx, EntrySize(layer));
      assert SlotBase(places[ptr], idx) == entryBase;
      if IsMapping(entry) {
        if !IsPage(entry, layer) {
          if EntrySize(layer) == pte.frame.size {
            MapOverDirectory(Mem(), places, ptr, idx, vaddr, pte);
            ok := false;
          } else {
            var dirAddr := Address(width, entry);
            AcceptedBelow(width, places[ptr], idx, vaddr, pte, ptr);
            InUse(Mem(), places, ptr, ptr, idx, dirAddr);
            assert dirAddr in places && places[dirAddr] == Place(layer + 1, entryBase, ptr, idx);
            ok := MapFrameAux(layer + 1, dirAddr, entryBase, vaddr, pte);
          }
        } else {
          MapOverPage(Mem(), places, ptr, idx, vaddr, pte);
          ok := false;
        }
      } else {
        MapOverEmpty(Mem(), places, width, ptr, idx, vaddr, pte);
        if EntrySize(layer) == pte.frame.size {
          MapHere(width, cr3, pages, places, ptr, idx, vaddr, pte);
          Write(ptr, idx, NewPageEntry(layer, pte));
          OneWrite(width, cr3, states0, Snapshot(pages, free), places, before);
          SameFree(states0, Snapshot(pages, free), Snapshot(pages0, free));
          ok := true;
        } else {
          AcceptedBelow(width, places[ptr], idx, vaddr, pte, ptr);
          assert |pages0[ptr]| == ENTRIES;
          var dirAddr := InsertEmptyDirectory(layer, ptr, idx);
          assert dirAddr !in pages0;
          assert places0.Keys == pages0.Keys;
          NonEmptyAfterInsert(width, cr3, pages0, places0, ptr, idx, dirAddr, NewDirEntry(layer, dirAddr));
          assert places[dirAddr] == Place(layer + 1, entryBase, ptr, idx);
          ghost var states1 := states;
          ok := MapFrameAux(layer + 1, dirAddr, entryBase, vaddr, pte);
          FallsOn(states0, states1, states);
          ShowsThenWrite(width, cr3, states0, states1, states, before, before[vaddr := pte]);
        }
      }
    }

    // ----- removing a mapping

    method IsDirectoryEmpty(layer: nat, ptr: nat) returns (empty: bool)
      requires Valid() && ptr in places && places[ptr].layer == layer
      requires HasTable(Mem(), ptr)
      ensures empty <==> IsEmptyTable(Mem(), layer, ptr)
    {
      hide Hangs, EntryAt, HasTable, View, IsMapping;
      var i := 0;
      while i < ENTRIES
        invariant i <= ENTRIES
        invariant forall j: nat | j < i :: EntryAt(Mem(), layer, ptr, j) == Empty
      {
        var entry := Read(ptr, i);
        EntryReads(width, cr3, pages, places, ptr, i);
        if IsMapping(entry) {
          return false;
        }
        i := i + 1;
      }
      return true;
    }

    /** Clears entry i of table p, which refers to the empty directory x, and frees its page. */
    method RemoveEmptyDirectory(layer: nat, p: nat, i: nat, x: nat)
      requires Valid() && x in places && x != cr3 && places[x].layer == layer + 1 && places[x].up == p &&
        places[x].idx == i
      requires HasTable(Mem(), x) && IsEmptyTable(Mem(), layer + 1, x) && NonEmpty(Mem(), places, x)
      modifies `pages, `free, `states, `places
      ensures Valid()
      ensures free == old(free) + {x} && pages.Keys == old(pages.Keys) - {x} &&
        pages.Keys + free == old(pages.Keys + free)
      ensures places == old(places) - {x} && NonEmpty(Mem(), places, p)
      ensures Mappings() == old(Mappings())
      ensures IsPrefix(old(states), states) && AllShow(width, cr3, states, |old(states)|, old(Mappings()))
      ensures FreeGrows(states, |old(states)|)
    {
      hide AddressesOk, AllShow, FreeFalls, FreeGrows, Hangs, HasTable, Interp, IsEmptyTable, IsLast, IsPrefix,
           MappingAt, NonEmpty, Shows, Viewer, Walk, WidthOk, WordsOk;
      ghost var pages0, used, states0, free0, before := pages, pages.Keys, states, free, Mappings();
      TablesThere(width, cr3, pages, places, x);
      DirectoryUnhooked(width, cr3, pages, places, x, before);
      AddressFreed(width, used, free0, x);
      Write(p, i, 0);
      ghost var pages1 := pages;
      DeallocPage(x);
      places := places - {x};
      assert pages.Keys == used - {x};
      assert states == states0 + [Snapshot(pages1, free0), Snapshot(pages, free)];
      AppendTwo(width, cr3, states0, Snapshot(pages1, free0), Snapshot(pages, free), before);
      FreeOfTwo(states0, Snapshot(pages1, free0), Snapshot(pages, free), Snapshot(pages0, free0));
    }

    method UnmapAux(layer: nat, ptr: nat, base: nat, vaddr: nat) returns (ok: bool)
      requires Valid() && ptr in places && places[ptr].layer == layer && places[ptr].base == base
      requires Compact()
      requires base <= vaddr < base + TableSize(layer)
      modifies `pages, `free, `states, `places
      ensures Valid()
      ensures ok <==> vaddr in old(Mappings())
      ensures ok ==> Mappings() == old(Mappings()) - {vaddr}
      ensures ok ==> IsPrefix(old(states), states) && |old(states)| < |states|
      ensures ok ==> AllShow(width, cr3, states, |old(states)|, old(Mappings()) - {vaddr})
      ensures ok ==> FreeGrows(states, |old(states)|)
      ensures ok ==> NonEmpty(Mem(), places, ptr)
      ensures PlacesBelowRemoved(old(places), places, layer)
      ensures !ok ==> pages == old(pages) && free == old(free) && states == old(states) && places == old(places)
      ensures pages.Keys + free == old(pages.Keys + free) && pages.Keys <= old(pages.Keys)
      decreases 4 - layer
    {
      hide Address, AddressesOk, AllShow, EntryAt, EntryBase, EntrySize, FlagsOf, FreeFalls, FreeGrows, Hangs,
           InSlot, IndexOf, Interp, IsEmptyTable, IsLast, IsMapping, IsPage, IsPrefix, MappingAt, NonEmpty,
           SlotOf, Store, TableSize, Viewer, Walk, WidthOk, WordsOk;
      LookUp(width, cr3, pages, places, ptr, vaddr);
      ghost var pages0, places0, states0, before := pages, places, states, Mappings();
      var idx := IndexOf(base, vaddr, EntrySize(layer));
      var entry := Read(ptr, idx);
      var entryBase := EntryBase(base, idx, EntrySize(layer));
      assert SlotBase(places[ptr], idx) == entryBase;
      assert PlacesBelowRemoved(places0, places0, layer);
      assert layer < 4;
      if IsMapping(entry) {
        if !IsPage(entry, layer) {
          var dirAddr := Address(width, entry);
          assert dirAddr in places && places[dirAddr] == Place(layer + 1, entryBase, ptr, idx) && dirAddr != cr3;
          assert layer + 1 < 4;
          assert entryBase <= vaddr < entryBase + TableSize(layer + 1);
          ok := UnmapAux(layer + 1, dirAddr, entryBase, vaddr);
          if ok {
            ghost var places1, states1 := places, states;
            assert dirAddr in places && ptr in places;
            assert places[dirAddr] == places0[dirAddr] && places[ptr] == places0[ptr];
            assert PlacesBelowRemoved(places0, places, layer);
            TablesThere(width, cr3, pages, places, dirAddr);
            var empty := IsDirectoryEmpty(layer + 1, dirAddr);
            if empty {
              RemoveEmptyDirectory(layer, ptr, idx, dirAddr);
              PlaceRemoved(places0, places1, layer, dirAddr);
              ShowsMore(width, cr3, states0, states1, states, before - {vaddr});
              GrowsOn(states0, states1, states);
            } else {
              NotEmptyAfterAll(Mem(), places, dirAddr, ptr);
            }
          }
        } else {
          if vaddr % EntrySize(layer) == 0 {
            assert ptr in pages && |pages[ptr]| == ENTRIES;
            PageToUnmap(Mem(), places, ptr, idx, vaddr);
            PageCleared(width, cr3, pages, places, ptr, idx);
            NonEmptyAfterClear(width, cr3, pages, places, ptr, idx);
            Write(ptr, idx, 0);
            FirstWrite(width, cr3, states0, Snapshot(pages, free), places);
            SameFree(states0, Snapshot(pages, free), Snapshot(pages0, free));
            ok := true;
          } else {
            NothingToUnmap(Mem(), places, ptr, idx, vaddr);
            ok := false;
          }
        }
      } else {
        NothingToUnmap(Mem(), places, ptr, idx, vaddr);
        ok := false;
      }
    }

    // ----- looking up an address

    method ResolveAux(layer: nat, ptr: nat, base: nat, vaddr: nat) returns (r: Result<(nat, PTE)>)
      requires Valid() && ptr in places && places[ptr].layer == layer && places[ptr].base == base
      requires base <= vaddr < base + TableSize(layer)
      ensures FlatMap.Resolves(Mappings(), vaddr, r)
      decreases 4 - layer
    {
      hide Address, AddressesOk, EntryAt, EntryBase, EntrySize, FlagsOf, FlatMap.Resolves, Hangs, HasTable,
           InSlot, IndexOf, Interp, IsLast, IsMapping, IsPage, MappingAt, PlaceOk, SlotOf, TableSize, Viewer,
           Walk, WidthOk, WordsOk;
      LookUp(width, cr3, pages, places, ptr, vaddr);
      var idx := IndexOf(base, vaddr, EntrySize(layer));
      var entry := Read(ptr, idx);
      var entryBase := EntryBase(base, idx, EntrySize(layer));
      assert SlotBase(places[ptr], idx) == entryBase;
      if IsMapping(entry) {
        if !IsPage(entry, layer) {
          var dirAddr := Address(width, entry);
          assert dirAddr in places && places[dirAddr] == Place(layer + 1, entryBase, ptr, idx) && layer < 3;
          assert entryBase <= vaddr < entryBase + TableSize(layer + 1);
          r := ResolveAux(layer + 1, dirAddr, entryBase, vaddr);
        } else {
          r := Ok((entryBase, PTE(MemRegion(Address(width, entry), EntrySize(layer)), FlagsOf(entry))));
          PageResolves(Mem(), places, ptr, idx, vaddr);
        }
      } else {
        NothingResolves(Mem(), places, ptr, idx, vaddr);
        r := Err;
      }
    }

    method Resolve(vaddr: nat) returns (r: Result<(nat, PTE)>)
      requires Valid() && vaddr < MAX_BASE
      ensures FlatMap.Resolves(Mappings(), vaddr, r)
    {
      RootPlace(width, cr3, pages, places);
      RootCovers(vaddr);
      r := ResolveAux(0, cr3, 0, vaddr);
    }

    // ----- the kernel's interface

    lemma Apart()
      requires Valid()
      ensures pages.Keys !! free && places.Keys == pages.Keys
    {
    }

    /** Maps a frame: an overlap is refused without touching memory; otherwise a number of writes that the
        hardware cannot see is followed by one that makes exactly the new mapping visible. */
    method MapFrame(vaddr: nat, pte: PTE) returns (ok: bool)
      requires Valid() && Compact() && 3 <= |free|
      requires Accepted(width, 0, 0, vaddr, pte)
      modifies `pages, `free, `states, `places
      ensures Valid() && Compact()
      ensures ok <==> FlatMap.MapFrame(old(Mappings()), vaddr, pte).Ok?
      ensures ok ==> Mappings() == FlatMap.MapFrame(old(Mappings()), vaddr, pte).value
      ensures ok ==> IsPrefix(old(states), states) && |old(states)| < |states|
      ensures ok ==> OneWriteShows(width, cr3, states, |old(states)|, old(Mappings()), Mappings())
      ensures ok ==> FreeFalls(states, |old(states)|)
      ensures !ok ==> pages == old(pages) && free == old(free) && states == old(states) && places == old(places)
      ensures !ok ==> Mappings() == old(Mappings())
      ensures pages.Keys + free == old(pages.Keys + free) && old(pages.Keys) <= pages.Keys
      ensures free == old(free) - (pages.Keys - old(pages.Keys)) && |pages.Keys - old(pages.Keys)| <= 3
    {
      ghost var used0, free0 := pages.Keys, free;
      Apart();
      RootPlace(width, cr3, pages, places);
      FlatMap.MapFrameIs(Mappings(), vaddr, pte);
      hide Accepted, AddressesOk, Built, FlatMap.MapFrame, FreeFalls, Hangs, Interp, IsLast, IsPrefix, MemoryOf,
           NonEmpty, OneWriteShows, OverlapsExistingVmem;
      ok := MapFrameAux(0, cr3, 0, vaddr, pte);
      Apart();
      PagesTaken(used0, free0, pages.Keys, free);
    }

    /** Removes a mapping: the first write takes exactly that mapping from the hardware's view,
        and freeing the directories it leaves empty is invisible. */
    method Unmap(vaddr: nat) returns (ok: bool)
      requires Valid() && Compact() && vaddr < MAX_BASE
      modifies `pages, `free, `states, `places
      ensures Valid() && Compact()
      ensures ok <==> FlatMap.Unmap(old(Mappings()), vaddr).Ok?
      ensures ok ==> Mappings() == FlatMap.Unmap(old(Mappings()), vaddr).value
      ensures ok ==> IsPrefix(old(states), states) && |old(states)| < |states|
      ensures ok ==> AllShow(width, cr3, states, |old(states)|, Mappings()) && FreeGrows(states, |old(states)|)
      ensures !ok ==> pages == old(pages) && free == old(free) && states == old(states) && places == old(places)
      ensures !ok ==> Mappings() == old(Mappings())
      ensures pages.Keys + free == old(pages.Keys + free) && pages.Keys <= old(pages.Keys)
      ensures free == old(free) + (old(pages.Keys) - pages.Keys)
      ensures old(places.Keys) == old(pages.Keys)
      ensures ok ==> forall p: nat | p in old(places) ::
        p in pages <==> p == cr3 || PageTableUse.HoldsMapping(Mappings(), old(places)[p])
    {
      ghost var pages0, places0, used0, free0 := pages, places, pages.Keys, free;
      Apart();
      RootPlace(width, cr3, pages, places);
      RootCovers(vaddr);
      FlatMap.UnmapIs(Mappings(), vaddr);
      hide FlatMap.Unmap, AddressesOk, AllShow, Built, FreeGrows, Hangs, Interp, IsLast, IsPrefix, NonEmpty;
      ok := UnmapAux(0, cr3, 0, vaddr);
      Apart();
      PagesMove(used0, free0, pages.Keys, free);
      if ok {
        FreedAreEmptied(width, cr3, pages0, places0, pages, places, vaddr);
      }
    }

    /** One call; only a map asks for free pages. */
    method Perform(c: FlatMap.Call) returns (ok: bool)
      requires Valid() && Compact() && AcceptedCall(width, c)
      requires c.MapCall? ==> 3 <= |free|
      modifies `pages, `free, `states, `places
      ensures Valid() && Compact()
      ensures Mappings() == FlatMap.After(old(Mappings()), c)
      ensures ok == FlatMap.Succeeds(old(Mappings()), c)
      ensures pages.Keys + free == old(pages.Keys + free)
      ensures |old(free)| <= |free| + if c.MapCall? then 3 else 0
    {
      ghost var before := Mappings();
      Apart();
      assert c.MapCall? ==> Accepted(width, 0, 0, c.base, c.pte);
      assert c.UnmapCall? ==> c.base < MAX_BASE;
      hide *;
      match c
      case MapCall(base, pte) =>
        ok := MapFrame(base, pte);
        CallOutcome(before, Mappings(), c, ok);
      case UnmapCall(base) =>
        ghost var used0, free0 := pages.Keys, free;
        ok := Unmap(base);
        Apart();
        CallOutcome(before, Mappings(), c, ok);
        NoFewer(used0, free0, pages.Keys, free);
    }

    /** Any sequence of accepted calls answers, and leaves behind, what the flat map does, for as long as each
        map finds the three free pages it asks for; a map that does not is where the sequence ends. */
    method Replay(calls: seq<FlatMap.Call>) returns (oks: seq<bool>)
      requires Valid() && Compact()
      requires forall i: nat | i < |calls| :: AcceptedCall(width, calls[i])
      modifies `pages, `free, `states, `places
      ensures Valid() && Compact()
      ensures |oks| <= |calls|
      ensures Mappings() == FlatMap.AfterAll(old(Mappings()), calls[..|oks|])
      ensures oks == FlatMap.Answers(old(Mappings()), calls[..|oks|])
      ensures |oks| < |calls| ==> calls[|oks|].MapCall? && |free| < 3
      ensures pages.Keys + free == old(pages.Keys + free)
      ensures |old(free)| <= |free| + 3 * FlatMap.Maps(calls[..|oks|])
    {
      ghost var before := Mappings();
      hide *;
      FlatMap.NoCalls(before, calls);
      oks := [];
      while |oks| < |calls| && (calls[|oks|].MapCall? ==> 3 <= |free|)
        invariant Valid() && Compact() && |oks| <= |calls|
        invariant Mappings() == FlatMap.AfterAll(before, calls[..|oks|])
        invariant oks == FlatMap.Answers(before, calls[..|oks|])
        invariant pages.Keys + free == old(pages.Keys + free)
        invariant |old(free)| <= |free| + 3 * FlatMap.Maps(calls[..|oks|])
      {
        FlatMap.OneMoreCall(before, calls, |oks|);
        assert AcceptedCall(width, calls[|oks|]);
        var ok := Perform(calls[|oks|]);
        oks := oks + [ok];
      }
    }
  }
}
