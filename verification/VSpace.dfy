/** The address space of the node-replication benchmarks: maps ranges with the largest pages that fit. */
module VSpaceModule {
  import opened Definitions
  import opened Indexing
  import opened PageTables
  import opened PageTableWrites
  import opened RangeMapping
  import opened RangeObstacles

  const BASE_PAGE_SIZE: nat := L3_ENTRY_SIZE
  const LARGE_PAGE_SIZE: nat := L2_ENTRY_SIZE
  const HUGE_PAGE_SIZE: nat := L1_ENTRY_SIZE
  const PML4_SLOT_SIZE: nat := L0_ENTRY_SIZE

  /** Memory set aside for tables. */
  const REGION: nat := 3 * 0x4000_0000

  datatype MapAction =
    | NoAction
    | ReadUser | ReadKernel
    | ReadWriteUser | ReadWriteKernel
    | ReadExecuteUser | ReadExecuteKernel
    | ReadWriteExecuteUser | ReadWriteExecuteKernel

  /** The bits that an action sets, as the hardware reads them: the kernel actions set the user bit. */
  function Rights(a: MapAction): Flags {
    match a
    case NoAction => Flags(false, true, false)
    case ReadUser => Flags(false, true, true)
    case ReadKernel => Flags(false, false, true)
    case ReadWriteUser => Flags(true, true, true)
    case ReadWriteKernel => Flags(true, false, true)
    case ReadExecuteUser => Flags(false, true, false)
    case ReadExecuteKernel => Flags(false, false, false)
    case ReadWriteExecuteUser => Flags(true, true, false)
    case ReadWriteExecuteKernel => Flags(true, false, false)
  }

  /** What each action is for, whichever bits it takes: the kernel actions let user code in. */
  predicate Grants(t: Translation, a: MapAction) {
    && t.Hit?
    && (t.flags.isWritable <==>
          a.ReadWriteUser? || a.ReadWriteKernel? || a.ReadWriteExecuteUser? || a.ReadWriteExecuteKernel?)
    && (t.flags.disableExecute <==> a.ReadUser? || a.ReadKernel? || a.ReadWriteUser? || a.ReadWriteKernel?)
    && (t.flags.isSupervisor <==> a.ReadUser? || a.ReadWriteUser? || a.ReadExecuteUser? || a.ReadWriteExecuteUser?)
  }

  lemma RightsGranted(m: Memory<Entry>, vbase: nat, pbase: nat, len: nat, a: MapAction)
    requires a != NoAction && MapsRange(m, vbase, pbase, len, Rights(a))
    ensures forall va: nat | vbase <= va < vbase + len :: Grants(Walk(m, va), a)
  {
    hide Walk;
    forall va: nat | vbase <= va < vbase + len ensures Grants(Walk(m, va), a) {
      assert MapsOffset(m, vbase, pbase, va - vbase, Rights(a));
    }
  }

  /** How a call ends: done, refused at an address already covered by a larger page, or a failed assertion. */
  datatype Outcome = Done | Refused(at: nat) | Panicked

  type Pages = map<nat, seq<Entry>>

  // The boxed top table; all others are named by their offset in the region.
  const ROOT: nat := 0

  const NO_ENTRIES: seq<Entry> := seq(ENTRIES, (_: nat) => Empty)

  function Same(): (nat, Entry) -> Entry {
    (_: nat, e: Entry) => e
  }

  function MemoryOf(pages: Pages): Memory<Entry> {
    Memory(pages, ROOT, Same())
  }

  predicate WellAligned(vbase: nat, pbase: nat, psize: nat, rights: MapAction) {
    pbase % BASE_PAGE_SIZE == 0 && psize % BASE_PAGE_SIZE == 0 && vbase % BASE_PAGE_SIZE == 0 && rights != NoAction
  }

  // ----- adding a table

  lemma TableAdded(pages: Pages, places: map<nat, Place>, p: nat, i: nat, x: nat)
    requires Hangs(MemoryOf(pages), places) && p in places && i < ENTRIES && places[p].layer < 3
    requires HasTable(MemoryOf(pages), p) && pages[p][i] == Empty && x !in pages
    ensures
      var added := pages[x := NO_ENTRIES];
      var pages' := added[p := added[p][i := Directory(x, PERMISSIVE)]];
      && Hangs(MemoryOf(pages'), places[x := PlaceBelow(places, p, i)])
      && SameOutside(MemoryOf(pages), MemoryOf(pages'), 0, 0)
  {
    var m := MemoryOf(pages);
    var d := Directory(x, PERMISSIVE);
    var added := pages[x := NO_ENTRIES];
    var pages' := added[p := added[p][i := d]];
    assert AllEmpty(m.view, places[p].layer + 1, NO_ENTRIES);
    assert EntryAt(m, places[p].layer, p, i) == Empty && m.view(places[p].layer, d) == d;
    assert MemoryOf(pages') == Store(AddPage(m, x, NO_ENTRIES), p, i, d);
    hide Walk, Hangs, AllEmpty, EntryAt, Same;
    InsertHangs(m, places, p, i, x, NO_ENTRIES, d);
    forall va: nat | va < MAX_BASE ensures Walk(MemoryOf(pages'), va) == Walk(m, va) {
      EmptyTableWalk(m, places, p, i, x, NO_ENTRIES, d, va);
    }
  }

  // ----- filling an entry

  lemma EntryFilled(pages: Pages, places: map<nat, Place>, p: nat, i: nat, pa: nat, f: Flags)
    requires Hangs(MemoryOf(pages), places) && p in places && i < ENTRIES && 0 < places[p].layer
    requires HasTable(MemoryOf(pages), p) && !pages[p][i].Directory? && pa % EntrySize(places[p].layer) == 0
    ensures
      var pl := places[p];
      var pages' := pages[p := pages[p][i := Page(pa, f)]];
      && Hangs(MemoryOf(pages'), places)
      && SameOutside(MemoryOf(pages), MemoryOf(pages'), SlotBase(pl, i), SlotBase(pl, i) + EntrySize(pl.layer))
      && MapsRange(MemoryOf(pages'), SlotBase(pl, i), pa, EntrySize(pl.layer), f)
      && (forall va: nat | InSlot(pl, i, va) :: Walk(MemoryOf(pages'), va) == Hit(pl.layer, pa, f))
  {
    hide *;
    FilledIs(pages, places, p, i, pa, f);
    StorePageMaps(MemoryOf(pages), places, p, i, Page(pa, f));
  }

  lemma FilledIs(pages: Pages, places: map<nat, Place>, p: nat, i: nat, pa: nat, f: Flags)
    requires HasTable(MemoryOf(pages), p) && p in places && i < ENTRIES && 0 < places[p].layer
    requires pa % EntrySize(places[p].layer) == 0
    ensures
      var m, e := MemoryOf(pages), Page(pa, f);
      && MemoryOf(pages[p := pages[p][i := e]]) == Store(m, p, i, e)
      && EntryAt(m, places[p].layer, p, i) == pages[p][i]
      && m.view(places[p].layer, e) == e && EntryOk(places, m.root, p, i, e)
  {
    hide EntrySize;
  }

  lemma SlotInside<W>(m: Memory<W>, places: map<nat, Place>, p: nat, i: nat)
    requires Hangs(m, places) && p in places && i < ENTRIES
    ensures HasTable(m, p) && PlaceOk(places[p]) && SlotBase(places[p], i) + EntrySize(places[p].layer) <= MAX_BASE
  {
    assert Hung(m, places, p);
    SlotAligned(places[p], i);
  }

  lemma NoTableBelow(pages: Pages, places: map<nat, Place>, p: nat, i: nat)
    requires Hangs(MemoryOf(pages), places) && p in places && i < ENTRIES && places[p].layer == 3
    ensures HasTable(MemoryOf(pages), p) && !pages[p][i].Directory?
  {
    assert Hung(MemoryOf(pages), places, p);
    assert EntryOk(places, ROOT, p, i, EntryAt(MemoryOf(pages), 3, p, i));
  }

  // ----- the outcome for a single 4 KiB page

  /** One 4 KiB page is refused exactly if a larger page covers its address, and otherwise fails exactly
      if the region has no room for the tables that are missing; each missing table uses up two pages. */
  ghost predicate OnePage(m0: Memory<Entry>, layer: nat, p: nat, counter0: nat, vbase: nat, r: Outcome, counter: nat) {
    var n := MissingFrom(m0, layer, p, vbase);
    && (r.Refused? <==> BlockedFrom(m0, layer, p, vbase))
    && (r.Panicked? <==> 0 < n && REGION <= counter0 + 8192 * n - 4096)
    && (!r.Panicked? ==> counter == counter0 + 8192 * n)
  }

  /** Every address of [lo, hi) is translated by a 4 KiB page. */
  ghost predicate BaseMapped(m: Memory<Entry>, lo: nat, hi: nat) {
    PagedAt(m, 3, lo, hi)
  }

  // ----- which pages are used

  /** A page of this size can start the range. */
  predicate Fits(vbase: nat, pbase: nat, psize: nat, size: nat)
    requires 0 < size
  {
    vbase % size == 0 && pbase % size == 0 && size <= psize
  }

  /** Every address of [lo, hi) is translated by an entry of layer k. */
  ghost predicate PagedAt(m: Memory<Entry>, k: nat, lo: nat, hi: nat) {
    forall va: nat | lo <= va < hi :: Walk(m, va).Hit? && Walk(m, va).layer == k
  }

  /** What a loop filled stays as it is while the rest of the range is mapped. */
  lemma PagedStays(m1: Memory<Entry>, m: Memory<Entry>, k: nat, lo: nat, mid: nat, end: nat, hi: nat)
    requires PagedAt(m1, k, lo, end) && SameOutside(m1, m, end, hi) && mid <= end <= MAX_BASE
    ensures PagedAt(m, k, lo, mid)
  {
    hide Walk;
  }

  /** The largest page that fits is used at the start of the range, if its entry is unused; and if it is the whole
      range, all that is added are the tables above it. */
  ghost predicate LargestFirst(m0: Memory<Entry>, layer: nat, p: nat, m: Memory<Entry>, counter0: nat,
      vbase: nat, pbase: nat, psize: nat, r: Outcome, counter: nat) {
    var n := MissingFrom(m0, layer, p, vbase);
    var huge := 2 <= n && Fits(vbase, pbase, psize, 0x4000_0000);
    var large := 1 <= n && Fits(vbase, pbase, psize, 0x20_0000) && !huge;
    && (huge && r.Done? ==> PagedAt(m, 1, vbase, vbase + 0x4000_0000))
    && (huge && psize == 0x4000_0000 ==> AddsTables(n - 2, counter0, r, counter))
    && (large && r.Done? ==> PagedAt(m, 2, vbase, vbase + 0x20_0000))
    && (large && psize == 0x20_0000 ==> AddsTables(n - 1, counter0, r, counter))
  }

  /** The call adds n tables, or the region has no room for them. */
  predicate AddsTables(n: nat, counter0: nat, r: Outcome, counter: nat) {
    && (r.Panicked? <==> 0 < n && REGION <= counter0 + 8192 * n - 4096)
    && (!r.Panicked? ==> r.Done? && counter == counter0 + 8192 * n)
  }

  lemma LargestAfterTable(m0: Memory<Entry>, m1: Memory<Entry>, layer: nat, p: nat, x: nat, m: Memory<Entry>,
      counter0: nat, vbase: nat, pbase: nat, psize: nat, r: Outcome, counter: nat)
    requires layer < 3 && HasTable(m0, p) && EntryAt(m0, layer, p, SlotOf(layer, vbase)) == Empty
    requires layer == 1 ==> !Fits(vbase, pbase, psize, 0x4000_0000)
    requires layer == 2 ==> !Fits(vbase, pbase, psize, 0x20_0000)
    requires x in m1.pages && m1.pages[x] == NO_ENTRIES && m1.view == Same() && counter0 + 4096 < REGION
    requires LargestFirst(m1, layer + 1, x, m, counter0 + 8192, vbase, pbase, psize, r, counter)
    ensures LargestFirst(m0, layer, p, m, counter0, vbase, pbase, psize, r, counter)
  {
    hide PagedAt;
  }

  lemma LargestNoRoom(m0: Memory<Entry>, layer: nat, p: nat, m: Memory<Entry>, counter0: nat,
      vbase: nat, pbase: nat, psize: nat, counter: nat)
    requires layer < 3 && HasTable(m0, p) && EntryAt(m0, layer, p, SlotOf(layer, vbase)) == Empty
    requires layer == 1 ==> !Fits(vbase, pbase, psize, 0x4000_0000)
    requires layer == 2 ==> !Fits(vbase, pbase, psize, 0x20_0000)
    requires REGION <= counter0 + 4096
    ensures LargestFirst(m0, layer, p, m, counter0, vbase, pbase, psize, Panicked, counter)
  {
    hide PagedAt;
  }

  lemma LargestBelow(m0: Memory<Entry>, layer: nat, p: nat, m: Memory<Entry>, counter0: nat,
      vbase: nat, pbase: nat, psize: nat, r: Outcome, counter: nat)
    requires layer < 3 && HasTable(m0, p) && EntryAt(m0, layer, p, SlotOf(layer, vbase)).Directory?
    requires LargestFirst(m0, layer + 1, EntryAt(m0, layer, p, SlotOf(layer, vbase)).addr, m, counter0,
                          vbase, pbase, psize, r, counter)
    ensures LargestFirst(m0, layer, p, m, counter0, vbase, pbase, psize, r, counter)
  {
    hide PagedAt;
  }

  lemma LargestVoid(m0: Memory<Entry>, layer: nat, p: nat, m: Memory<Entry>, counter0: nat,
      vbase: nat, pbase: nat, psize: nat, r: Outcome, counter: nat)
    requires HasTable(m0, p) && (layer == 3 || (layer < 3 && EntryAt(m0, layer, p, SlotOf(layer, vbase)).Page?))
    ensures LargestFirst(m0, layer, p, m, counter0, vbase, pbase, psize, r, counter)
  {
  }

  /** The loop over large pages of layer k has filled the start of the range. */
  lemma LargestFilled(m0: Memory<Entry>, layer: nat, p: nat, m: Memory<Entry>, counter0: nat,
      vbase: nat, pbase: nat, psize: nat, r: Outcome, counter: nat)
    requires layer == 1 || layer == 2
    requires HasTable(m0, p) && EntryAt(m0, layer, p, SlotOf(layer, vbase)) == Empty
    requires Fits(vbase, pbase, psize, EntrySize(layer))
    requires r.Done? ==> PagedAt(m, layer, vbase, vbase + EntrySize(layer))
    requires psize == EntrySize(layer) ==> r.Done? && counter == counter0
    ensures LargestFirst(m0, layer, p, m, counter0, vbase, pbase, psize, r, counter)
  {
    hide PagedAt;
  }

  /** Filling one more entry extends the range translated at its layer. */
  lemma PagedStep(pages: Pages, places: map<nat, Place>, p: nat, i: nat, k: nat, vbase: nat, mapped: nat, pa: nat,
      f: Flags)
    requires Hangs(MemoryOf(pages), places) && p in places && i < ENTRIES && places[p].layer == k && 0 < k < 4
    requires HasTable(MemoryOf(pages), p) && !pages[p][i].Directory? && pa % EntrySize(k) == 0
    requires SlotBase(places[p], i) == vbase + mapped && PagedAt(MemoryOf(pages), k, vbase, vbase + mapped)
    ensures PagedAt(MemoryOf(pages[p := pages[p][i := Page(pa, f)]]), k, vbase, vbase + mapped + EntrySize(k))
  {
    hide EntrySize, Hangs, Walk, MapsRange, SlotBase;
    SlotInside(MemoryOf(pages), places, p, i);
    EntryFilled(pages, places, p, i, pa, f);
    var m, m' := MemoryOf(pages), MemoryOf(pages[p := pages[p][i := Page(pa, f)]]);
    forall va: nat | vbase <= va < vbase + mapped + EntrySize(k)
      ensures Walk(m', va).Hit? && Walk(m', va).layer == k
    {
      if va < vbase + mapped {
        assert Walk(m', va) == Walk(m, va);
      } else {
        assert InSlot(places[p], i, va);
      }
    }
  }

  // ----- the outcome for a range of 4 KiB pages

  /** Where the range of the next page table begins. */
  function NextTable(va: nat): nat {
    (va / LARGE_PAGE_SIZE + 1) * LARGE_PAGE_SIZE
  }

  /** How many of the tables for `va`, where a page table's range begins, the address before it does not have. */
  function Unshared(va: nat): nat {
    if va % L0_ENTRY_SIZE == 0 then 3 else if va % L1_ENTRY_SIZE == 0 then 2 else 1
  }

  /** How many tables `va` still misses once the address before it is mapped by a 4 KiB page. */
  function Extra(m: Memory<Entry>, va: nat): nat {
    if Missing(m, va) <= Unshared(va) then Missing(m, va) else Unshared(va)
  }

  /** The tables missing for the page table ranges that begin in [from, hi). */
  function Following(m: Memory<Entry>, from: nat, hi: nat): nat
    decreases if from < hi then hi - from else 0
  {
    if hi <= from then 0 else Extra(m, from) + Following(m, from + LARGE_PAGE_SIZE, hi)
  }

  /** How many tables a mapping of [lo, hi) by 4 KiB pages has to add. */
  function TablesNeeded(m: Memory<Entry>, lo: nat, hi: nat): nat {
    Missing(m, lo) + Following(m, NextTable(lo), hi)
  }

  /** A range that no larger page covers is mapped by 4 KiB pages exactly if the region has room for the tables that
      are missing; each of them uses up two pages. */
  ghost predicate ManyPages(m0: Memory<Entry>, layer: nat, p: nat, counter0: nat, lo: nat, hi: nat, r: Outcome,
      counter: nat) {
    var n := MissingFrom(m0, layer, p, lo) + Following(m0, NextTable(lo), hi);
    !BlockedFrom(m0, layer, p, lo) && Clear(m0, lo, hi) ==>
      && (r.Panicked? <==> 0 < n && REGION <= counter0 + 8192 * n - 4096)
      && (r.Done? <==> !r.Panicked?)
      && (r.Done? ==> counter == counter0 + 8192 * n)
  }

  lemma NextTableBehind(va: nat)
    ensures va < NextTable(va) && NextTable(va) % LARGE_PAGE_SIZE == 0
  {
    MulMod(va / LARGE_PAGE_SIZE + 1, LARGE_PAGE_SIZE);
  }

  lemma ExtraSame(m0: Memory<Entry>, m: Memory<Entry>, va: nat)
    requires SameObstacle(m0, m, va) && va % LARGE_PAGE_SIZE == 0
    ensures Extra(m, va) == Extra(m0, va)
  {
    MissingAtMost(m0, 0, m0.root, va);
    MissingAtMost(m, 0, m.root, va);
    SizesNested(va);
    hide MissingFrom;
    FirstThree(Missing(m0, va), Missing(m, va), Unshared(va));
  }

  lemma SizesNested(va: nat)
    ensures va % L0_ENTRY_SIZE == 0 ==> va % L1_ENTRY_SIZE == 0
  {
    if va % L0_ENTRY_SIZE == 0 { MultipleOf(va, L0_ENTRY_SIZE, L1_ENTRY_SIZE); }
  }

  lemma FirstThree(x: nat, y: nat, u: nat)
    requires x <= 3 && y <= 3 && 0 < u <= 3
    requires (x == 0 <==> y == 0) && (1 < u ==> (x <= 1 <==> y <= 1)) && (2 < u ==> (x <= 2 <==> y <= 2))
    ensures (if x <= u then x else u) == if y <= u then y else u
  {
  }

  lemma {:induction false} FollowingSame(m0: Memory<Entry>, m: Memory<Entry>, lo: nat, from: nat, hi: nat)
    requires SameObstaclesFrom(m0, m, lo) && lo <= from && from % LARGE_PAGE_SIZE == 0 && hi <= MAX_BASE
    ensures Following(m, from, hi) == Following(m0, from, hi)
    decreases if from < hi then hi - from else 0
  {
    if from < hi {
      assert SameObstacle(m0, m, from);
      hide Extra, SameObstacle;
      ExtraSame(m0, m, from);
      FollowingSame(m0, m, lo, from + LARGE_PAGE_SIZE, hi);
    }
  }

  lemma ClearSame(m0: Memory<Entry>, m: Memory<Entry>, lo: nat, mid: nat, hi: nat)
    requires SameOutside(m0, m, lo, mid) && hi <= MAX_BASE
    ensures Clear(m0, mid, hi) ==> Clear(m, mid, hi)
  {
    hide Walk, Blocked;
    if Clear(m0, mid, hi) {
      forall va: nat | mid <= va < hi ensures !Blocked(m, va) {
        BlockedSame(m0, m, va);
      }
    }
  }

  /** Before the missing table is added, and after. */
  lemma ManyAfterTable(m0: Memory<Entry>, m1: Memory<Entry>, layer: nat, p: nat, x: nat, pl: Place, i: nat,
      counter0: nat, lo: nat, hi: nat, r: Outcome, counter: nat)
    requires layer < 3 && HasTable(m0, p) && EntryAt(m0, layer, p, SlotOf(layer, lo)) == Empty
    requires x in m1.pages && m1.pages[x] == NO_ENTRIES && m1.view == Same() && counter0 + 4096 < REGION
    requires SameOutside(m0, m1, 0, 0) && SameObstaclesFrom(m0, m1, SlotBase(pl, i) + 1) && InSlot(pl, i, lo)
    requires hi <= MAX_BASE
    requires ManyPages(m1, layer + 1, x, counter0 + 8192, lo, hi, r, counter)
    ensures ManyPages(m0, layer, p, counter0, lo, hi, r, counter)
  {
    NextTableBehind(lo);
    FollowingSame(m0, m1, SlotBase(pl, i) + 1, NextTable(lo), hi);
    assert SameOutside(m0, m1, lo, lo);
    ClearSame(m0, m1, lo, lo, hi);
    hide Following, SameOutside, SameObstaclesFrom, Clear, NextTable;
  }

  lemma ManyNoRoom(m0: Memory<Entry>, layer: nat, p: nat, counter0: nat, lo: nat, hi: nat, counter: nat)
    requires layer < 3 && HasTable(m0, p) && EntryAt(m0, layer, p, SlotOf(layer, lo)) == Empty
    requires REGION <= counter0 + 4096
    ensures ManyPages(m0, layer, p, counter0, lo, hi, Panicked, counter)
  {
    hide Following;
  }

  lemma ManyBelow(m: Memory<Entry>, layer: nat, p: nat, counter0: nat, lo: nat, hi: nat, r: Outcome, counter: nat)
    requires layer < 3 && HasTable(m, p) && EntryAt(m, layer, p, SlotOf(layer, lo)).Directory?
    requires ManyPages(m, layer + 1, EntryAt(m, layer, p, SlotOf(layer, lo)).addr, counter0, lo, hi, r, counter)
    ensures ManyPages(m, layer, p, counter0, lo, hi, r, counter)
  {
    hide Following, Clear;
  }

  lemma ManyRefused(m: Memory<Entry>, layer: nat, p: nat, counter0: nat, lo: nat, hi: nat, r: Outcome, counter: nat)
    requires 0 < layer < 3 && HasTable(m, p) && EntryAt(m, layer, p, SlotOf(layer, lo)).Page?
    ensures ManyPages(m, layer, p, counter0, lo, hi, r, counter)
  {
    hide Following, Clear;
  }

  /** The range ends in the page table p. */
  lemma ManyFilled(m: Memory<Entry>, p: nat, counter0: nat, lo: nat, hi: nat)
    requires hi <= NextTable(lo)
    ensures ManyPages(m, 3, p, counter0, lo, hi, Done, counter0)
  {
    hide Clear;
  }

  /** Where a page table's range begins, behind an address with a 4 KiB page, only unshared tables are missing. */
  lemma ExtraIsMissing(m: Memory<Entry>, lo: nat, mid: nat)
    requires BaseMapped(m, lo, mid) && lo < mid && mid % LARGE_PAGE_SIZE == 0
    ensures Missing(m, mid) == Extra(m, mid)
  {
    var va: nat := mid - 1;
    assert Walk(m, va).Hit? && Walk(m, va).layer == 3;
    MissingAtMost(m, 0, m.root, mid);
    assert EntrySize(0) == L0_ENTRY_SIZE && EntrySize(1) == L1_ENTRY_SIZE;
    hide MissingFrom, WalkFrom, EntrySize;
    if mid % L1_ENTRY_SIZE != 0 {
      QuotientStep(mid, L1_ENTRY_SIZE);
      SharedTables(m, 0, m.root, va, mid, 1);
    } else if mid % L0_ENTRY_SIZE != 0 {
      QuotientStep(mid, L0_ENTRY_SIZE);
      SharedTables(m, 0, m.root, va, mid, 0);
    }
  }

  /** The rest of the range, from the next page table on. */
  lemma ManyRest(m0: Memory<Entry>, m1: Memory<Entry>, p: nat, counter0: nat, lo: nat, mid: nat, hi: nat, r: Outcome,
      counter: nat)
    requires mid == NextTable(lo) && mid < hi <= MAX_BASE && BaseMapped(m1, lo, mid)
    requires SameOutside(m0, m1, lo, mid) && SameObstaclesFrom(m0, m1, mid)
    requires ManyPages(m1, 0, m1.root, counter0, mid, hi, r, counter)
    ensures ManyPages(m0, 3, p, counter0, lo, hi, r, counter)
  {
    NextTableBehind(lo);
    NextTableBehind(mid);
    assert NextTable(mid) == mid + LARGE_PAGE_SIZE;
    assert SameObstacle(m0, m1, mid);
    ExtraSame(m0, m1, mid);
    ExtraIsMissing(m1, lo, mid);
    FollowingSame(m0, m1, mid, mid + LARGE_PAGE_SIZE, hi);
    ClearSame(m0, m1, lo, mid, hi);
    assert Clear(m1, mid, hi) ==> !Blocked(m1, mid);
    hide Extra, SameOutside, SameObstaclesFrom, SameObstacle, NextTable, BaseMapped;
  }

  // ----- why a call fails

  /** Pages larger than 4 KiB can only be used for a range as large as one, with both ends at the same offset. */
  predicate CanBeLarge(vbase: nat, pbase: nat, psize: nat) {
    LARGE_PAGE_SIZE <= psize && vbase % LARGE_PAGE_SIZE == pbase % LARGE_PAGE_SIZE
  }

  /** A call is refused because a larger page covers the address it reports, or because a 2 MiB page behind that
      address finds its entry in use; it panics because the region is used up, or because a 1 GiB page does. */
  ghost predicate Explained(m0: Memory<Entry>, lo: nat, hi: nat, large: bool, r: Outcome, counter: nat) {
    match r
    case Done => true
    case Refused(at) =>
      lo <= at < MAX_BASE && (at < hi || at == lo)
      && (Blocked(m0, at) || (large && exists va: nat :: at < va < hi && LargeObstacle(m0, va)))
    case Panicked => REGION <= counter || (large && exists va: nat :: lo < va < hi && HugeObstacle(m0, va))
  }

  /** What explains the rest of a call explains the call: the part before did not touch it. */
  lemma ExplainedLater(m0: Memory<Entry>, m1: Memory<Entry>, lo: nat, mid: nat, hi: nat, large: bool,
                      large': bool, r: Outcome, counter: nat)
    requires SameOutside(m0, m1, lo, mid) && SameObstaclesFrom(m0, m1, mid + 1) && lo <= mid <= hi <= MAX_BASE
    requires Explained(m1, mid, hi, large', r, counter) && (mid < hi || lo == mid) && (large' ==> large)
    ensures Explained(m0, lo, hi, large, r, counter)
  {
    hide Walk, Blocked, HugeObstacle, LargeObstacle;
    if r.Refused? {
      if Blocked(m1, r.at) {
        BlockedSame(m0, m1, r.at);
      } else {
        var va: nat :| r.at < va < hi && LargeObstacle(m1, va);
        assert SameObstacle(m0, m1, va);
      }
    } else if r.Panicked? && counter < REGION {
      var va: nat :| mid < va < hi && HugeObstacle(m1, va);
      assert SameObstacle(m0, m1, va);
    }
  }

  lemma ExplainedByPage(pages: Pages, places: map<nat, Place>, p: nat, lo: nat, hi: nat, large: bool, counter: nat)
    requires Hangs(MemoryOf(pages), places) && p in places && InTable(places[p], lo) && lo < MAX_BASE && lo <= hi
    requires 0 < places[p].layer < 3 && EntryAt(MemoryOf(pages), places[p].layer, p, SlotOf(places[p].layer, lo)).Page?
    ensures Explained(MemoryOf(pages), lo, hi, large, Refused(lo), counter)
  {
    WalkClimb(MemoryOf(pages), places, p, lo);
    assert Hung(MemoryOf(pages), places, p);
    hide Hangs, Hung, SlotOf;
  }

  /** A range without page directories, in a region that is not used up, is mapped. */
  lemma FreshRangeSucceeds(m0: Memory<Entry>, lo: nat, hi: nat, large: bool, r: Outcome, counter: nat)
    requires Explained(m0, lo, hi, large, r, counter) && counter < REGION && lo <= hi
    requires forall va: nat | lo <= va <= hi :: 1 < Missing(m0, va)
    ensures r == Done
  {
    forall va: nat | lo <= va <= hi
      ensures !HugeObstacle(m0, va) && !LargeObstacle(m0, va) && !Blocked(m0, va)
    {
      assert 1 < Missing(m0, va);
      NotBlocked(m0, va);
      hide MissingFrom, WalkFrom;
    }
    hide HugeObstacle, LargeObstacle, Blocked;
  }

  /** No larger page covers an address of [lo, hi). */
  ghost predicate Clear(m: Memory<Entry>, lo: nat, hi: nat) {
    forall va: nat | lo <= va < hi :: !Blocked(m, va)
  }

  lemma ClearTwice(m0: Memory<Entry>, m1: Memory<Entry>, lo: nat, mid: nat, hi: nat)
    requires SameOutside(m0, m1, lo, mid) && Clear(m0, lo, mid) && Clear(m1, mid, hi) && lo <= mid <= hi <= MAX_BASE
    ensures Clear(m0, lo, hi)
  {
    hide Walk, Blocked;
    forall va: nat | lo <= va < hi ensures !Blocked(m0, va) {
      if mid <= va {
        BlockedSame(m0, m1, va);
      }
    }
  }

  /** What a call that ends with r has done: nothing outside the range has changed; if it is done, the range
      is mapped, over no larger page, and otherwise something explains why not. */
  ghost predicate Achieved(m0: Memory<Entry>, m: Memory<Entry>, vbase: nat, pbase: nat, psize: nat,
      f: Flags, r: Outcome, counter: nat) {
    && (r.Done? ==> MapsRange(m, vbase, pbase, psize, f) && Clear(m0, vbase, vbase + psize))
    && SameOutside(m0, m, vbase, vbase + psize)
    && Explained(m0, vbase, vbase + psize, CanBeLarge(vbase, pbase, psize), r, counter)
  }

  /** The first `mapped` bytes are mapped, and nothing outside or behind them has changed. */
  ghost predicate Filled(m0: Memory<Entry>, m: Memory<Entry>, vbase: nat, pbase: nat, mapped: nat, f: Flags) {
    && SameOutside(m0, m, vbase, vbase + mapped)
    && MapsRange(m, vbase, pbase, mapped, f)
    && SameObstaclesFrom(m0, m, vbase + mapped)
    && Clear(m0, vbase, vbase + mapped)
  }

  lemma NothingFilled(m: Memory<Entry>, vbase: nat, pbase: nat, f: Flags)
    ensures Filled(m, m, vbase, pbase, 0, f)
  {
  }

  lemma AllFilled(m0: Memory<Entry>, m: Memory<Entry>, vbase: nat, pbase: nat, psize: nat, f: Flags, counter: nat)
    requires Filled(m0, m, vbase, pbase, psize, f)
    ensures Achieved(m0, m, vbase, pbase, psize, f, Done, counter)
  {
  }

  lemma FilledParts(m0: Memory<Entry>, m: Memory<Entry>, vbase: nat, pbase: nat, mapped: nat, f: Flags)
    requires Filled(m0, m, vbase, pbase, mapped, f)
    ensures SameOutside(m0, m, vbase, vbase + mapped) && SameObstaclesFrom(m0, m, vbase + mapped)
  {
  }

  lemma AchievedGrants(m0: Memory<Entry>, m: Memory<Entry>, vbase: nat, pbase: nat, psize: nat, r: Outcome,
      counter: nat, a: MapAction)
    requires Achieved(m0, m, vbase, pbase, psize, Rights(a), r, counter) && a != NoAction
    ensures r.Done? ==> forall va: nat | vbase <= va < vbase + psize :: Grants(Walk(m, va), a)
  {
    if r.Done? {
      RightsGranted(m, vbase, pbase, psize, a);
    }
  }

  lemma AchievedOutside(m0: Memory<Entry>, m: Memory<Entry>, vbase: nat, pbase: nat, psize: nat, f: Flags, r: Outcome,
      counter: nat)
    requires Achieved(m0, m, vbase, pbase, psize, f, r, counter)
    ensures SameOutside(m0, m, vbase, vbase + psize)
  {
  }

  lemma BaseMappedOn(m1: Memory<Entry>, m: Memory<Entry>, lo: nat, mid: nat, hi: nat)
    requires SameOutside(m1, m, mid, hi) && lo <= mid <= hi <= MAX_BASE
    ensures BaseMapped(m1, lo, mid) && BaseMapped(m, mid, hi) ==> BaseMapped(m, lo, hi)
  {
    hide Walk;
  }

  /** A range that larger pages do not fit is mapped exactly if no larger page covers one of its addresses, and the
      region has room for the missing tables; then each of those uses up two pages. */
  lemma SmallPagesExactly(m0: Memory<Entry>, m: Memory<Entry>, vbase: nat, pbase: nat, psize: nat, f: Flags,
      r: Outcome, counter0: nat, counter: nat)
    requires Achieved(m0, m, vbase, pbase, psize, f, r, counter) && !CanBeLarge(vbase, pbase, psize) && 0 < psize
    requires ManyPages(m0, 0, m0.root, counter0, vbase, vbase + psize, r, counter)
    ensures
      var n := TablesNeeded(m0, vbase, vbase + psize);
      && (r.Done? <==> Clear(m0, vbase, vbase + psize) && (n == 0 || counter0 + 8192 * n - 4096 < REGION))
      && (r.Done? ==> counter == counter0 + 8192 * n)
  {
    assert Clear(m0, vbase, vbase + psize) ==> !Blocked(m0, vbase);
    hide Clear, Following, MissingFrom, WalkFrom, MapsRange, SameOutside, Explained;
  }

  lemma LargeBefore(vbase: nat, pbase: nat, mapped: nat, psize: nat)
    requires mapped <= psize
    ensures CanBeLarge(vbase + mapped, pbase + mapped, psize - mapped) ==> CanBeLarge(vbase, pbase, psize)
  {
  }

  /** The rest of the range is left to another call. */
  lemma AfterFill(m0: Memory<Entry>, m1: Memory<Entry>, m: Memory<Entry>, vbase: nat, pbase: nat, mapped: nat,
                  psize: nat, f: Flags, r: Outcome, counter: nat)
    requires Filled(m0, m1, vbase, pbase, mapped, f) && mapped < psize && vbase + psize <= MAX_BASE
    requires Achieved(m1, m, vbase + mapped, pbase + mapped, psize - mapped, f, r, counter)
    ensures Achieved(m0, m, vbase, pbase, psize, f, r, counter)
  {
    assert vbase + mapped + (psize - mapped) == vbase + psize;
    var large, large' := CanBeLarge(vbase, pbase, psize), CanBeLarge(vbase + mapped, pbase + mapped, psize - mapped);
    LargeBefore(vbase, pbase, mapped, psize);
    hide SameOutside, Explained, SameObstacle, MapsRange, Clear, CanBeLarge;
    SameOutsideTwice(m0, m1, m, vbase, vbase + mapped, vbase + psize);
    ExplainedLater(m0, m1, vbase, vbase + mapped, vbase + psize, large, large', r, counter);
    if r.Done? {
      ClearTwice(m0, m1, vbase, vbase + mapped, vbase + psize);
      MapsRangeTwice(m1, m, vbase, pbase, mapped, psize - mapped, f);
    }
  }

  /** The range continues in a table that was added for it. */
  lemma AfterTable(m0: Memory<Entry>, m1: Memory<Entry>, m: Memory<Entry>, pl: Place, i: nat, vbase: nat, pbase: nat,
                   psize: nat, f: Flags, r: Outcome, counter: nat)
    requires SameOutside(m0, m1, 0, 0) && SameObstaclesFrom(m0, m1, SlotBase(pl, i) + 1) && InSlot(pl, i, vbase)
    requires Achieved(m1, m, vbase, pbase, psize, f, r, counter) && vbase + psize <= MAX_BASE
    ensures Achieved(m0, m, vbase, pbase, psize, f, r, counter)
  {
    var large := CanBeLarge(vbase, pbase, psize);
    hide Walk, Explained, SameObstacle, MapsRange, SlotBase, EntrySize, Clear, CanBeLarge;
    ExplainedLater(m0, m1, vbase, vbase, vbase + psize, large, large, r, counter);
    if r.Done? {
      assert Clear(m0, vbase, vbase) by { NothingFilled(m0, vbase, pbase, f); }
      ClearTwice(m0, m1, vbase, vbase, vbase + psize);
    }
  }

  lemma NoRoom(m0: Memory<Entry>, m: Memory<Entry>, vbase: nat, pbase: nat, psize: nat, f: Flags, counter: nat)
    requires SameOutside(m0, m, 0, 0) && REGION <= counter
    ensures Achieved(m0, m, vbase, pbase, psize, f, Panicked, counter)
  {
  }

  /** The next entry to fill was in use before the call. */
  lemma Collision(m0: Memory<Entry>, m: Memory<Entry>, vbase: nat, pbase: nat, mapped: nat, psize: nat, f: Flags,
      counter: nat)
    requires Filled(m0, m, vbase, pbase, mapped, f) && 0 < mapped < psize && vbase + psize <= MAX_BASE
    requires CanBeLarge(vbase, pbase, psize)
    ensures HugeObstacle(m0, vbase + mapped) ==> Achieved(m0, m, vbase, pbase, psize, f, Panicked, counter)
    ensures LargeObstacle(m0, vbase + mapped) ==> Achieved(m0, m, vbase, pbase, psize, f, Refused(vbase), counter)
  {
  }

  lemma CoveredByPage(pages: Pages, places: map<nat, Place>, p: nat, vbase: nat, pbase: nat, psize: nat, f: Flags,
      counter: nat)
    requires Hangs(MemoryOf(pages), places) && p in places && InTable(places[p], vbase) && vbase < MAX_BASE
    requires 0 < places[p].layer < 3 &&
      EntryAt(MemoryOf(pages), places[p].layer, p, SlotOf(places[p].layer, vbase)).Page?
    ensures Achieved(MemoryOf(pages), MemoryOf(pages), vbase, pbase, psize, f, Refused(vbase), counter)
  {
    ExplainedByPage(pages, places, p, vbase, vbase + psize, CanBeLarge(vbase, pbase, psize), counter);
    hide Walk, Explained, MapsRange, Hangs, Clear;
  }

  lemma RestAligned(vbase: nat, pbase: nat, psize: nat, rights: MapAction, mapped: nat)
    requires WellAligned(vbase, pbase, psize, rights) && mapped <= psize
    requires mapped % HUGE_PAGE_SIZE == 0 || mapped % LARGE_PAGE_SIZE == 0 || mapped % BASE_PAGE_SIZE == 0
    ensures WellAligned(vbase + mapped, pbase + mapped, psize - mapped, rights)
  {
    var size := BASE_PAGE_SIZE;
    if mapped % HUGE_PAGE_SIZE == 0 {
      MultipleOf(mapped, HUGE_PAGE_SIZE, size);
    } else if mapped % LARGE_PAGE_SIZE == 0 {
      MultipleOf(mapped, LARGE_PAGE_SIZE, size);
    }
    AlignedSum(vbase, mapped, size);
    AlignedSum(pbase, mapped, size);
    AlignedDifference(psize, mapped, size);
  }

  /** Filling an entry leaves the obstacles behind it as they were. */
  lemma FillObstacles(m0: Memory<Entry>, pages: Pages, places: map<nat, Place>, p: nat, i: nat, pa: nat, f: Flags,
      lo: nat)
    requires Hangs(MemoryOf(pages), places) && p in places && i < ENTRIES && HasTable(MemoryOf(pages), p)
    requires SlotBase(places[p], i) == lo && SameObstaclesFrom(m0, MemoryOf(pages), lo)
    ensures SameObstaclesFrom(m0, MemoryOf(pages[p := pages[p][i := Page(pa, f)]]), lo + EntrySize(places[p].layer))
  {
    var pages' := pages[p := pages[p][i := Page(pa, f)]];
    assert MemoryOf(pages') == Store(MemoryOf(pages), p, i, Page(pa, f));
    StoreAgrees(MemoryOf(pages), p, i, Page(pa, f));
    hide *;
    FillKeepsObstacles(MemoryOf(pages), places, MemoryOf(pages'), p, i);
    SameObstaclesTwice(m0, MemoryOf(pages), MemoryOf(pages'), lo, lo + EntrySize(places[p].layer));
  }

  /** No larger page covers the addresses of an entry that is unused or belongs to a page table. */
  lemma SlotClear(pages: Pages, places: map<nat, Place>, p: nat, i: nat)
    requires Hangs(MemoryOf(pages), places) && p in places && i < ENTRIES && places[p].layer < 4
    requires HasTable(MemoryOf(pages), p) && (places[p].layer == 3 || pages[p][i] == Empty)
    ensures Clear(MemoryOf(pages), SlotBase(places[p], i), SlotBase(places[p], i) + EntrySize(places[p].layer))
  {
    var m, pl := MemoryOf(pages), places[p];
    assert PlaceOk(pl) by { assert Hung(m, places, p); }
    assert EntryAt(m, pl.layer, p, i) == pages[p][i];
    assert pl.layer == 3 ==> EntryOk(places, ROOT, p, i, EntryAt(m, pl.layer, p, i));
    hide EntrySize, Hangs, Hung, Walk, SlotBase;
    forall va: nat | SlotBase(pl, i) <= va < SlotBase(pl, i) + EntrySize(pl.layer) ensures !Blocked(m, va) {
      SlotUnique(pl, va, i);
      WalkClimb(m, places, p, va);
    }
  }

  lemma FillStep(m0: Memory<Entry>, pages: Pages, places: map<nat, Place>, p: nat, i: nat,
                 vbase: nat, pbase: nat, mapped: nat, f: Flags, size: nat, pa: nat)
    requires Hangs(MemoryOf(pages), places) && p in places && i < ENTRIES && 0 < places[p].layer < 4
    requires HasTable(MemoryOf(pages), p) && !pages[p][i].Directory?
    requires size == EntrySize(places[p].layer) && pa == pbase + mapped && pa % size == 0
    requires SlotBase(places[p], i) == vbase + mapped && Filled(m0, MemoryOf(pages), vbase, pbase, mapped, f)
    requires places[p].layer == 3 || pages[p][i] == Empty
    ensures
      var pages' := pages[p := pages[p][i := Page(pa, f)]];
      Hangs(MemoryOf(pages'), places) && Filled(m0, MemoryOf(pages'), vbase, pbase, mapped + size, f)
  {
    hide Clear, EntrySize, Hangs, InSlot, MapsRange, PlaceOk, Same, SameObstaclesFrom, SameOutside, SlotBase, Walk;
    SlotInside(MemoryOf(pages), places, p, i);
    SlotClear(pages, places, p, i);
    ClearTwice(m0, MemoryOf(pages), vbase, vbase + mapped, vbase + mapped + size);
    EntryFilled(pages, places, p, i, pa, f);
    assert p in pages && i < |pages[p]|;
    RangeGrows(m0, MemoryOf(pages), MemoryOf(pages[p := pages[p][i := Page(pa, f)]]), vbase, pbase, mapped, size, f);
    FillObstacles(m0, pages, places, p, i, pa, f, vbase + mapped);
  }

  /** Entries first to idx of table p have been filled; the first starts at vbase and maps pbase. */
  ghost predicate FilledUpTo(m0: Memory<Entry>, pages: Pages, places: map<nat, Place>, p: nat, first: nat, idx: nat,
                             vbase: nat, pbase: nat, mapped: nat, f: Flags)
  {
    && Hangs(MemoryOf(pages), places)
    && p in places && 0 < places[p].layer < 4 && HasTable(MemoryOf(pages), p)
    && first <= idx <= ENTRIES && SlotBase(places[p], first) == vbase
    && mapped == (idx - first) * EntrySize(places[p].layer) && pbase % EntrySize(places[p].layer) == 0
    && Filled(m0, MemoryOf(pages), vbase, pbase, mapped, f)
  }

  lemma FillStart(pages: Pages, places: map<nat, Place>, p: nat, i: nat, vbase: nat, pbase: nat, f: Flags)
    requires Hangs(MemoryOf(pages), places) && p in places && 0 < places[p].layer < 4 && HasTable(MemoryOf(pages), p)
    requires i < ENTRIES && SlotBase(places[p], i) == vbase && pbase % EntrySize(places[p].layer) == 0
    ensures FilledUpTo(MemoryOf(pages), pages, places, p, i, i, vbase, pbase, 0, f)
  {
    hide EntrySize, Filled, Hangs, HasTable, MemoryOf, SlotBase;
    NothingFilled(MemoryOf(pages), vbase, pbase, f);
  }

  lemma NextSlot(pl: Place, first: nat, idx: nat, pbase: nat)
    requires first <= idx && pbase % EntrySize(pl.layer) == 0
    ensures SlotBase(pl, idx) == SlotBase(pl, first) + (idx - first) * EntrySize(pl.layer)
    ensures (pbase + (idx - first) * EntrySize(pl.layer)) % EntrySize(pl.layer) == 0
    ensures (idx + 1 - first) * EntrySize(pl.layer) == (idx - first) * EntrySize(pl.layer) + EntrySize(pl.layer)
    ensures 0 < EntrySize(pl.layer) && (idx == first <==> (idx - first) * EntrySize(pl.layer) == 0)
    ensures (idx - first) * EntrySize(pl.layer) % EntrySize(pl.layer) == 0
  {
    var size := EntrySize(pl.layer);
    hide EntrySize;
    MulMod(idx - first, size);
    AlignedSum(pbase, (idx - first) * size, size);
    if first < idx { MulMono(1, idx - first, size); }
  }

  lemma FillNext(m0: Memory<Entry>, pages: Pages, places: map<nat, Place>, p: nat, first: nat, idx: nat,
                 vbase: nat, pbase: nat, mapped: nat, f: Flags)
    requires FilledUpTo(m0, pages, places, p, first, idx, vbase, pbase, mapped, f) && idx < ENTRIES
    requires p in places && p in pages && |pages[p]| == ENTRIES && !pages[p][idx].Directory?
    requires places[p].layer == 3 || pages[p][idx] == Empty
    ensures
      var pages' := pages[p := pages[p][idx := Page(pbase + mapped, f)]];
      FilledUpTo(m0, pages', places, p, first, idx + 1, vbase, pbase, mapped + EntrySize(places[p].layer), f)
  {
    hide EntrySize, Filled, Hangs, Same, SlotBase;
    var size := EntrySize(places[p].layer);
    NextSlot(places[p], first, idx, pbase);
    FillStep(m0, pages, places, p, idx, vbase, pbase, mapped, f, size, pbase + mapped);
  }

  /** An entry in use on the way was in use, and so an obstacle, before the call. */
  lemma InUse(m0: Memory<Entry>, pages: Pages, places: map<nat, Place>, p: nat, first: nat, idx: nat,
              vbase: nat, pbase: nat, mapped: nat, f: Flags)
    requires FilledUpTo(m0, pages, places, p, first, idx, vbase, pbase, mapped, f) && idx < ENTRIES
    requires p in places && p in pages && |pages[p]| == ENTRIES && pages[p][idx] != Empty
    ensures places[p].layer == 1 ==> HugeObstacle(m0, vbase + mapped)
    ensures places[p].layer == 2 ==> LargeObstacle(m0, vbase + mapped)
  {
    hide EntrySize, Hangs, HasTable, HugeObstacle, LargeObstacle, MapsRange, PlaceOk, Same, SameOutside, SlotBase;
    NextSlot(places[p], first, idx, pbase);
    SlotInside(MemoryOf(pages), places, p, idx);
    assert SameObstacle(m0, MemoryOf(pages), vbase + mapped);
    if places[p].layer < 3 {
      InUseNow(pages, places, p, idx);
    }
  }

  lemma InUseNow(pages: Pages, places: map<nat, Place>, p: nat, i: nat)
    requires Hangs(MemoryOf(pages), places) && p in places && 0 < places[p].layer < 3 && i < ENTRIES
    requires p in pages && |pages[p]| == ENTRIES && pages[p][i] != Empty
    ensures places[p].layer == 1 ==> HugeObstacle(MemoryOf(pages), SlotBase(places[p], i))
    ensures places[p].layer == 2 ==> LargeObstacle(MemoryOf(pages), SlotBase(places[p], i))
  {
    assert HasTable(MemoryOf(pages), p) && EntryAt(MemoryOf(pages), places[p].layer, p, i) != Empty;
    hide *;
    EntryInUse(MemoryOf(pages), places, p, i);
  }

  lemma FilledFacts(m0: Memory<Entry>, pages: Pages, places: map<nat, Place>, p: nat, first: nat, idx: nat,
                    vbase: nat, pbase: nat, mapped: nat, f: Flags)
    requires FilledUpTo(m0, pages, places, p, first, idx, vbase, pbase, mapped, f)
    ensures Hangs(MemoryOf(pages), places) && Filled(m0, MemoryOf(pages), vbase, pbase, mapped, f)
    ensures p in places && p in pages && |pages[p]| == ENTRIES && idx <= ENTRIES
    ensures mapped % EntrySize(places[p].layer) == 0 && (mapped == 0 <==> idx == first)
    ensures idx < ENTRIES ==> SlotBase(places[p], idx) == vbase + mapped
  {
    hide EntrySize, Filled, Hangs, Same, SlotBase;
    NextSlot(places[p], first, idx, pbase);
  }

  /** Filling a page table stops at the latest where the range of the next one begins. */
  lemma TableEnds(m0: Memory<Entry>, pages: Pages, places: map<nat, Place>, p: nat, first: nat, idx: nat,
                  vbase: nat, pbase: nat, mapped: nat, f: Flags)
    requires FilledUpTo(m0, pages, places, p, first, idx, vbase, pbase, mapped, f) && places[p].layer == 3
    requires first < ENTRIES
    ensures vbase + mapped <= NextTable(vbase) && (idx == ENTRIES ==> vbase + mapped == NextTable(vbase))
  {
    var pl := places[p];
    assert HasTable(MemoryOf(pages), p) && PlaceOk(pl) by {
      hide Filled, EntrySize;
      SlotInside(MemoryOf(pages), places, p, first);
    }
    assert vbase == pl.base + first * 4096 && mapped == (idx - first) * 4096 by { hide Filled, Hangs; }
    assert pl.base % LARGE_PAGE_SIZE == 0 by { hide Filled, Hangs, FilledUpTo; }
    hide *;
    assert ENTRIES == 512 && first < 512 && idx <= 512;
    NextTableIs(pl.base, vbase);
  }

  lemma NextTableIs(base: nat, va: nat)
    requires base % LARGE_PAGE_SIZE == 0 && base <= va < base + LARGE_PAGE_SIZE
    ensures NextTable(va) == base + LARGE_PAGE_SIZE
  {
    assert base == base / LARGE_PAGE_SIZE * LARGE_PAGE_SIZE;
    IndexOfUnique(0, va, LARGE_PAGE_SIZE, base / LARGE_PAGE_SIZE);
  }

  lemma NothingPaged(m: Memory<Entry>, k: nat, lo: nat)
    ensures PagedAt(m, k, lo, lo)
  {
  }

  /** The next physical page is aligned like the first. */
  lemma NextPage(m0: Memory<Entry>, pages: Pages, places: map<nat, Place>, p: nat, first: nat, idx: nat,
                  vbase: nat, pbase: nat, mapped: nat, f: Flags)
    requires FilledUpTo(m0, pages, places, p, first, idx, vbase, pbase, mapped, f) && idx < ENTRIES
    ensures p in places && HasTable(MemoryOf(pages), p) && SlotBase(places[p], idx) == vbase + mapped
    ensures (pbase + mapped) % EntrySize(places[p].layer) == 0
  {
    hide EntrySize, Filled, Hangs, HasTable, SlotBase;
    NextSlot(places[p], first, idx, pbase);
  }

  lemma TableObstacles(pages: Pages, places: map<nat, Place>, p: nat, i: nat, x: nat)
    requires Hangs(MemoryOf(pages), places) && p in places && i < ENTRIES && places[p].layer < 3
    requires HasTable(MemoryOf(pages), p) && pages[p][i] == Empty && x !in pages
    requires
      var added := pages[x := NO_ENTRIES];
      Hangs(MemoryOf(added[p := added[p][i := Directory(x, PERMISSIVE)]]), places[x := PlaceBelow(places, p, i)])
    ensures
      var added := pages[x := NO_ENTRIES];
      SameObstaclesFrom(MemoryOf(pages), MemoryOf(added[p := added[p][i := Directory(x, PERMISSIVE)]]),
        SlotBase(places[p], i) + 1)
  {
    var added := pages[x := NO_ENTRIES];
    var pages' := added[p := added[p][i := Directory(x, PERMISSIVE)]];
    var m, m1, m' := MemoryOf(pages), MemoryOf(added), MemoryOf(pages');
    assert p in pages && x !in places;
    AddPageAgrees(m, x, NO_ENTRIES, p, i);
    assert m1 == AddPage(m, x, NO_ENTRIES) && m' == Store(m1, p, i, Directory(x, PERMISSIVE));
    StoreAgrees(m1, p, i, Directory(x, PERMISSIVE));
    hide SlotBase, Missing, AgreesOff;
    AgreesTwice(m, m1, m', p, i);
    TableKeepsObstacles(m, places, m', places[x := PlaceBelow(places, p, i)], p, i, x);
  }

  // ----- finding the entry for an address

  /** The entry for `va` in table p, and what hangs below it. */
  lemma EntryFor(pages: Pages, places: map<nat, Place>, p: nat, va: nat)
    requires Hangs(MemoryOf(pages), places) && p in places && InTable(places[p], va)
    ensures p in pages && |pages[p]| == ENTRIES && HasTable(MemoryOf(pages), p) && PlaceOk(places[p])
    ensures
      var pl := places[p];
      var i := SlotOf(pl.layer, va);
      && InSlot(pl, i, va)
      && EntryAt(MemoryOf(pages), pl.layer, p, i) == pages[p][i]
      && (pages[p][i].Page? ==> 0 < pl.layer)
      && (pages[p][i].Directory? ==> pl.layer < 3 && pages[p][i].addr in places)
      && (pages[p][i].Directory? ==> places[pages[p][i].addr].layer == pl.layer + 1)
      && (pages[p][i].Directory? ==> InTable(places[pages[p][i].addr], va))
  {
    WalkEnters(MemoryOf(pages), places, p, va);
    var i := SlotOf(places[p].layer, va);
    assert EntryOk(places, ROOT, p, i, EntryAt(MemoryOf(pages), places[p].layer, p, i));
    hide EntrySize, Hung;
  }

  lemma RootThere(pages: Pages, places: map<nat, Place>, va: nat)
    requires Hangs(MemoryOf(pages), places) && va < MAX_BASE
    ensures ROOT in places && places[ROOT] == Place(0, 0, ROOT, 0) && InTable(places[ROOT], va)
  {
    assert Hung(MemoryOf(pages), places, ROOT);
    RootCovers(va);
  }

  /** A table added for the address `va` is where the entry now leads, and covers it. */
  lemma NewTableCovers(before: Pages, pages: Pages, places0: map<nat, Place>, places: map<nat, Place>,
      p: nat, layer: nat, va: nat, ok: bool, x: nat)
    requires p in places0 && PlaceOk(places0[p]) && places0[p].layer == layer < 3 &&
      InSlot(places0[p], SlotOf(layer, va), va)
    requires p in before && |before[p]| == ENTRIES
    requires ok ==> x !in before && places == places0[x := PlaceBelow(places0, p, SlotOf(layer, va))]
    requires ok ==> pages == before[x := NO_ENTRIES][p := before[p][SlotOf(layer, va) := Directory(x, PERMISSIVE)]]
    ensures ok ==>
      p in pages && SlotOf(layer, va) < |pages[p]| && pages[p][SlotOf(layer, va)] == Directory(x, PERMISSIVE)
    ensures ok ==> x in pages && pages[x] == NO_ENTRIES
    ensures ok ==> x in places && InTable(places[x], va) && places[x].layer == layer + 1
  {
  }

  // ----- counting down the missing tables

  /** Before the missing table is added, and after. */
  lemma OnePageAfterTable(m0: Memory<Entry>, m1: Memory<Entry>, layer: nat, p: nat, x: nat,
      counter0: nat, va: nat, r: Outcome, counter: nat)
    requires layer < 3 && HasTable(m0, p) && EntryAt(m0, layer, p, SlotOf(layer, va)) == Empty
    requires x in m1.pages && m1.pages[x] == NO_ENTRIES && m1.view == Same() && counter0 + 4096 < REGION
    requires OnePage(m1, layer + 1, x, counter0 + 8192, va, r, counter)
    ensures OnePage(m0, layer, p, counter0, va, r, counter)
  {
  }

  lemma OnePageNoRoom(m0: Memory<Entry>, layer: nat, p: nat, counter0: nat, va: nat, counter: nat)
    requires layer < 3 && HasTable(m0, p) && EntryAt(m0, layer, p, SlotOf(layer, va)) == Empty
    requires REGION <= counter0 + 4096
    ensures OnePage(m0, layer, p, counter0, va, Panicked, counter)
  {
  }

  lemma OnePageBelow(m: Memory<Entry>, layer: nat, p: nat, counter0: nat, va: nat, r: Outcome, counter: nat)
    requires layer < 3 && HasTable(m, p) && EntryAt(m, layer, p, SlotOf(layer, va)).Directory?
    requires OnePage(m, layer + 1, EntryAt(m, layer, p, SlotOf(layer, va)).addr, counter0, va, r, counter)
    ensures OnePage(m, layer, p, counter0, va, r, counter)
  {
  }

  lemma OnePageRefused(m: Memory<Entry>, layer: nat, p: nat, counter0: nat, va: nat)
    requires 0 < layer < 3 && HasTable(m, p) && EntryAt(m, layer, p, SlotOf(layer, va)).Page?
    ensures OnePage(m, layer, p, counter0, va, Refused(va), counter0)
  {
  }

  // ----- where an entry starts

  lemma PageSizes()
    ensures 0 < BASE_PAGE_SIZE && 0 < LARGE_PAGE_SIZE && 0 < HUGE_PAGE_SIZE
    ensures EntrySize(1) == HUGE_PAGE_SIZE && EntrySize(2) == LARGE_PAGE_SIZE && EntrySize(3) == BASE_PAGE_SIZE
    ensures ENTRIES == 512
  {
  }

  lemma NextBasePage(pbase: nat, psize: nat, mapped: nat)
    requires pbase % BASE_PAGE_SIZE == 0 && psize % BASE_PAGE_SIZE == 0 && mapped % BASE_PAGE_SIZE == 0 &&
      mapped < psize
    ensures mapped + BASE_PAGE_SIZE <= psize && (pbase + mapped) % BASE_PAGE_SIZE == 0
  {
  }

  lemma NotOnePage(psize: nat)
    ensures HUGE_PAGE_SIZE <= psize ==> psize != BASE_PAGE_SIZE
    ensures LARGE_PAGE_SIZE <= psize ==> psize != BASE_PAGE_SIZE
  {
  }

  lemma OneIsSmall(vbase: nat, pbase: nat)
    ensures !CanBeLarge(vbase, pbase, BASE_PAGE_SIZE)
  {
  }

  lemma StartOfSlot(pl: Place, va: nat)
    requires PlaceOk(pl) && InSlot(pl, SlotOf(pl.layer, va), va) && va % EntrySize(pl.layer) == 0
    ensures SlotBase(pl, SlotOf(pl.layer, va)) == va
  {
    hide EntrySize;
    SlotAligned(pl, SlotOf(pl.layer, va));
  }

  /** The code's test for the start of an entry is a test for alignment. */
  lemma Starts1(va: nat)
    requires va < MAX_BASE
    ensures va == PML4_SLOT_SIZE * SlotOf(0, va) + HUGE_PAGE_SIZE * SlotOf(1, va) <==> va % 0x4000_0000 == 0
  {
    DivNests(va, L1_ENTRY_SIZE, 512);
  }

  lemma Starts2(va: nat)
    requires va < MAX_BASE
    ensures va == PML4_SLOT_SIZE * SlotOf(0, va) + HUGE_PAGE_SIZE * SlotOf(1, va) + LARGE_PAGE_SIZE * SlotOf(2, va)
      <==> va % 0x20_0000 == 0
  {
    DivNests(va, L1_ENTRY_SIZE, 512);
    DivNests(va, L2_ENTRY_SIZE, 512);
  }

  lemma AtStart1(pl: Place, va: nat)
    requires PlaceOk(pl) && pl.layer == 1 && InSlot(pl, SlotOf(1, va), va) && va < MAX_BASE
    requires va == PML4_SLOT_SIZE * SlotOf(0, va) + HUGE_PAGE_SIZE * SlotOf(1, va)
    ensures SlotBase(pl, SlotOf(1, va)) == va && va % HUGE_PAGE_SIZE == 0
  {
    var x, y := SlotOf(0, va), SlotOf(1, va);
    hide SlotOf;
    assert va == (512 * x + y) * HUGE_PAGE_SIZE;
    MulMod(512 * x + y, HUGE_PAGE_SIZE);
    assert EntrySize(1) == HUGE_PAGE_SIZE;
    hide *;
    StartOfSlot(pl, va);
  }

  lemma FitsLarge(vbase: nat, pbase: nat, psize: nat, size: nat)
    requires size == LARGE_PAGE_SIZE || size == HUGE_PAGE_SIZE
    requires vbase % size == 0 && pbase % size == 0 && size <= psize
    ensures CanBeLarge(vbase, pbase, psize)
  {
    if size == HUGE_PAGE_SIZE {
      MultipleOf(vbase, HUGE_PAGE_SIZE, LARGE_PAGE_SIZE);
      MultipleOf(pbase, HUGE_PAGE_SIZE, LARGE_PAGE_SIZE);
    }
  }

  lemma AtStart2(pl: Place, va: nat)
    requires PlaceOk(pl) && pl.layer == 2 && InSlot(pl, SlotOf(2, va), va) && va < MAX_BASE
    requires va == PML4_SLOT_SIZE * SlotOf(0, va) + HUGE_PAGE_SIZE * SlotOf(1, va) + LARGE_PAGE_SIZE * SlotOf(2, va)
    ensures SlotBase(pl, SlotOf(2, va)) == va && va % LARGE_PAGE_SIZE == 0
  {
    var x, y, z := SlotOf(0, va), SlotOf(1, va), SlotOf(2, va);
    hide SlotOf;
    assert va == (512 * 512 * x + 512 * y + z) * LARGE_PAGE_SIZE;
    MulMod(512 * 512 * x + 512 * y + z, LARGE_PAGE_SIZE);
    assert EntrySize(2) == LARGE_PAGE_SIZE;
    hide *;
    StartOfSlot(pl, va);
  }

  lemma AtStart3(pl: Place, va: nat)
    requires PlaceOk(pl) && pl.layer == 3 && InSlot(pl, SlotOf(3, va), va) && va % BASE_PAGE_SIZE == 0
    ensures SlotBase(pl, SlotOf(3, va)) == va
  {
    StartOfSlot(pl, va);
  }

  lemma OnePageFilled(m: Memory<Entry>, p: nat, counter0: nat, va: nat, psize: nat, mapped: nat)
    requires mapped <= psize && mapped % BASE_PAGE_SIZE == 0 && (0 < psize ==> 0 < mapped)
    ensures psize == BASE_PAGE_SIZE ==> mapped == psize && OnePage(m, 3, p, counter0, va, Done, counter0)
  {
  }

  // ----- resolving

  /** Where `va` goes, if it is mapped by a 4 KiB page; anything else is a case the code calls unreachable. */
  function ResolveAddr(pages: Pages, va: nat): Option<nat> {
    match EntryIn(pages, ROOT, SlotOf(0, va))
    case Directory(pdpt, _) => (
      match EntryIn(pages, pdpt, SlotOf(1, va))
      case Directory(pd, _) => (
        match EntryIn(pages, pd, SlotOf(2, va))
        case Directory(pt, _) => (
          match EntryIn(pages, pt, SlotOf(3, va))
          case Page(addr, _) => Some(addr + va % BASE_PAGE_SIZE)
          case Directory(_, _) => None
          case Empty => None)
        case Page(_, _) => None
        case Empty => None)
      case Page(_, _) => None
      case Empty => None)
    case Page(_, _) => None
    case Empty => None
  }

  function EntryIn(pages: Pages, p: nat, i: nat): Entry {
    if p in pages && |pages[p]| == ENTRIES && i < ENTRIES then pages[p][i] else Empty
  }

  /** Resolving finds what the hardware would, for addresses mapped by 4 KiB pages, and nothing else. */
  lemma ResolveIsWalk(pages: Pages, va: nat)
    ensures
      var t := Walk(MemoryOf(pages), va);
      ResolveAddr(pages, va) == if t.Hit? && t.layer == 3 then Some(t.addr + va % BASE_PAGE_SIZE) else None
  {
  }

  /** After a range was mapped by 4 KiB pages, resolving an address of it gives its counterpart. */
  lemma ResolvesMapped(pages: Pages, vbase: nat, pbase: nat, len: nat, f: Flags, o: nat)
    requires MapsRange(MemoryOf(pages), vbase, pbase, len, f) && BaseMapped(MemoryOf(pages), vbase, vbase + len) &&
      o < len
    ensures ResolveAddr(pages, vbase + o) == Some(pbase + o)
  {
    ResolveIsWalk(pages, vbase + o);
    assert MapsOffset(MemoryOf(pages), vbase, pbase, o, f);
    hide Walk, ResolveAddr;
  }

  // ----- filling the first 512 GiB page by page

  const VSPACE_RANGE: nat := PML4_SLOT_SIZE

  /** An address mapped by a 4 KiB page has all its tables; a neighbour in the same entry of layer k shares them down
      to there. */
  lemma {:induction false} SharedTables(m: Memory<Entry>, layer: nat, p: nat, va': nat, va: nat, k: nat)
    requires layer <= k < 3 && WalkFrom(m, layer, p, va').Hit? && WalkFrom(m, layer, p, va').layer == 3
    requires va / EntrySize(k) == va' / EntrySize(k)
    ensures MissingFrom(m, layer, p, va) <= 2 - k
    decreases k - layer
  {
    SameSlotAbove(layer, k, va, va');
    hide EntrySize;
    var q := EntryAt(m, layer, p, SlotOf(layer, va')).addr;
    assert SlotOf(layer, va) == SlotOf(layer, va');
    if layer < k {
      SharedTables(m, layer + 1, q, va', va, k);
    } else {
      MissingAtMost(m, layer + 1, q, va);
    }
  }

  /** The tables needed for the first `i` pages: one pointer table, and one table for each 1 GiB and 2 MiB begun. */
  function Tables(i: nat): nat {
    if i == 0 then 0 else 3 + (i - 1) / (512 * 512) + (i - 1) / 512
  }

  lemma TablesFit(i: nat)
    requires i <= 512 * 512 * 512
    ensures 4096 + 8192 * Tables(i) < REGION
  {
  }

  lemma SameEntry(i: nat, k: nat)
    requires 0 < i < 512 * 512 * 512 && k < 3
    requires k == 1 ==> i % (512 * 512) != 0
    requires k == 2 ==> i % 512 != 0
    ensures (i * 4096) / EntrySize(k) == ((i - 1) * 4096) / EntrySize(k)
  {
    if k == 2 {
      DivNests(i * 4096, 4096, 512);
      DivNests((i - 1) * 4096, 4096, 512);
    } else if k == 1 {
      DivNests(i * 4096, 4096, 512 * 512);
      DivNests((i - 1) * 4096, 4096, 512 * 512);
    }
  }

  lemma MissingForNext(m: Memory<Entry>, i: nat)
    requires i < 512 * 512 * 512 && BaseMapped(m, 0, i * 4096)
    ensures Missing(m, i * 4096) <= Tables(i + 1) - Tables(i)
  {
    MissingAtMost(m, 0, m.root, i * 4096);
    if i > 0 {
      var va: nat := (i - 1) * 4096;
      assert Walk(m, va).Hit? && Walk(m, va).layer == 3;
      hide MissingFrom, WalkFrom, EntrySize;
      var k := if i % 512 != 0 then 2 else if i % (512 * 512) != 0 then 1 else 0;
      SameEntry(i, k);
      SharedTables(m, 0, m.root, va, i * 4096, k);
      TablesStep(i, k);
    }
  }

  lemma QuotientStep(i: nat, n: nat)
    requires 0 < i && 0 < n
    ensures i / n == (i - 1) / n + if i % n == 0 then 1 else 0
  {
    var q := i / n;
    assert i == q * n + i % n;
    if i % n == 0 {
      assert i - 1 == (q - 1) * n + (n - 1);
      IndexOfUnique(0, i - 1, n, q - 1);
    } else {
      IndexOfUnique(0, i - 1, n, q);
    }
  }

  lemma TablesStep(i: nat, k: nat)
    requires 0 < i
    requires k == if i % 512 != 0 then 2 else if i % (512 * 512) != 0 then 1 else 0
    ensures Tables(i + 1) - Tables(i) == 2 - k
  {
    QuotientStep(i, 512);
    QuotientStep(i, 512 * 512);
    if i % (512 * 512) == 0 {
      MultipleOf(i, 512 * 512, 512);
    }
  }

  lemma EmptyStart()
    ensures Hangs(MemoryOf(map[ROOT := NO_ENTRIES]), map[ROOT := Place(0, 0, ROOT, 0)])
    ensures forall va: nat :: Walk(MemoryOf(map[ROOT := NO_ENTRIES]), va) == Fault
    ensures MapsRange(MemoryOf(map[ROOT := NO_ENTRIES]), 0, 0, 0, Rights(ReadWriteExecuteUser))
    ensures BaseMapped(MemoryOf(map[ROOT := NO_ENTRIES]), 0, 0)
    ensures SameOutside(MemoryOf(map[ROOT := NO_ENTRIES]), MemoryOf(map[ROOT := NO_ENTRIES]), 0, 0)
  {
  }

  lemma RangeIs()
    ensures VSPACE_RANGE == 512 * 512 * 512 * 4096 && VSPACE_RANGE / 4096 == 512 * 512 * 512 && VSPACE_RANGE < MAX_BASE
  {
  }

  lemma NextAligned(i: nat, at: nat)
    requires i < 512 * 512 * 512 && at == i * 4096
    ensures at + 4096 <= MAX_BASE && WellAligned(at, at, 4096, ReadWriteExecuteUser)
  {
  }

  lemma NextUnblocked(m0: Memory<Entry>, m: Memory<Entry>, at: nat)
    requires at < MAX_BASE && SameOutside(m0, m, 0, at) && Walk(m0, at) == Fault
    ensures !BlockedFrom(m, 0, m.root, at)
  {
  }

  lemma BeforeNext(m0: Memory<Entry>, m: Memory<Entry>, i: nat, at: nat)
    requires i < 512 * 512 * 512 && at == i * 4096 && SameOutside(m0, m, 0, at) && BaseMapped(m, 0, at)
    requires forall va: nat :: Walk(m0, va) == Fault
    ensures !BlockedFrom(m, 0, m.root, at)
    ensures Missing(m, at) <= Tables(i + 1) - Tables(i)
    ensures at + 4096 <= MAX_BASE && WellAligned(at, at, 4096, ReadWriteExecuteUser)
  {
    hide *;
    NextAligned(i, at);
    MissingForNext(m, i);
    NextUnblocked(m0, m, at);
  }

  lemma NextSucceeds(m: Memory<Entry>, counter0: nat, i: nat, at: nat, r: Outcome, counter: nat)
    requires m.root == ROOT && OnePage(m, 0, ROOT, counter0, at, r, counter) && !BlockedFrom(m, 0, ROOT, at)
    requires Missing(m, at) <= Tables(i + 1) - Tables(i)
    requires counter0 <= 4096 + 8192 * Tables(i) && 4096 + 8192 * Tables(i + 1) < REGION
    ensures r == Done && counter <= 4096 + 8192 * Tables(i + 1)
  {
  }

  lemma IdentityGrows(m0: Memory<Entry>, m: Memory<Entry>, m': Memory<Entry>, lo: nat, hi: nat, f: Flags)
    requires hi == lo + 4096 <= MAX_BASE && BaseMapped(m, 0, lo) && BaseMapped(m', lo, lo + 4096)
    requires SameOutside(m0, m, 0, lo) && SameOutside(m, m', lo, lo + 4096)
    requires MapsRange(m, 0, 0, lo, f) && MapsRange(m', lo, lo, 4096, f)
    ensures BaseMapped(m', 0, hi) && SameOutside(m0, m', 0, hi) && MapsRange(m', 0, 0, hi, f)
  {
    hide Walk, MapsRange;
    SameOutsideTwice(m0, m, m', 0, lo, hi);
    MapsRangeTwice(m, m', 0, 0, lo, 4096, f);
  }

  lemma WholeRangeOpen(m: Memory<Entry>)
    requires MapsRange(m, 0, 0, VSPACE_RANGE, Rights(ReadWriteExecuteUser))
    ensures forall va: nat | va < 0x80_0000_0000 :: Walk(m, va).Hit? && Walk(m, va).flags == Flags(true, true, false)
  {
    hide Walk;
    forall va: nat | va < 0x80_0000_0000 ensures Walk(m, va).Hit? && Walk(m, va).flags == Flags(true, true, false) {
      assert MapsOffset(m, 0, 0, va, Rights(ReadWriteExecuteUser));
    }
  }

  // ----- the address space

  class VSpace {
    var pages: Pages
    var memCounter: nat
    ghost var places: map<nat, Place>

    function Mem(): Memory<Entry>
      reads this
    {
      MemoryOf(pages)
    }

    /** The tables form one tree, and lie in the part of the region already handed out. */
    ghost predicate Valid()
      reads this
    {
      && Hangs(Mem(), places)
      && (forall p: nat | p in pages :: p < memCounter)
    }

    /** Maps the first 512 GiB to themselves, page by page: no step fails, and the region is large enough. */
    constructor Default()
      ensures Valid()
      ensures MapsRange(Mem(), 0, 0, VSPACE_RANGE, Rights(ReadWriteExecuteUser))
      ensures BaseMapped(Mem(), 0, VSPACE_RANGE)
      ensures forall va: nat | va < 0x80_0000_0000 ::
                Walk(Mem(), va).Hit? && Walk(Mem(), va).flags == Flags(true, true, false)
      ensures SameOutside(MemoryOf(map[ROOT := NO_ENTRIES]), Mem(), 0, VSPACE_RANGE)
      ensures memCounter < REGION
    {
      pages := map[ROOT := NO_ENTRIES];
      memCounter := 4096;
      places := map[ROOT := Place(0, 0, ROOT, 0)];
      new;
      ghost var m0 := Mem();
      EmptyStart();
      RangeIs();
      assert Valid();
      hide *;
      var i := 0;
      while i < VSPACE_RANGE / 4096
        invariant i <= 512 * 512 * 512 && Valid()
        invariant memCounter <= 4096 + 8192 * Tables(i)
        invariant MapsRange(Mem(), 0, 0, i * 4096, Rights(ReadWriteExecuteUser))
        invariant BaseMapped(Mem(), 0, i * 4096)
        invariant SameOutside(m0, Mem(), 0, i * 4096)
        decreases 512 * 512 * 512 - i
      {
        MapNextPage(m0, i);
        i := i + 1;
      }
      TablesFit(512 * 512 * 512);
      WholeRangeOpen(Mem());
    }

    /** One more page of the range that a new address space maps to itself. */
    method MapNextPage(ghost m0: Memory<Entry>, i: nat)
      requires Valid() && i < 512 * 512 * 512
      requires memCounter <= 4096 + 8192 * Tables(i)
      requires MapsRange(Mem(), 0, 0, i * 4096, Rights(ReadWriteExecuteUser)) && BaseMapped(Mem(), 0, i * 4096)
      requires SameOutside(m0, Mem(), 0, i * 4096)
      requires forall va: nat :: Walk(m0, va) == Fault
      modifies `pages, `memCounter, `places
      ensures Valid()
      ensures memCounter <= 4096 + 8192 * Tables(i + 1)
      ensures MapsRange(Mem(), 0, 0, (i + 1) * 4096, Rights(ReadWriteExecuteUser)) &&
        BaseMapped(Mem(), 0, (i + 1) * 4096)
      ensures SameOutside(m0, Mem(), 0, (i + 1) * 4096)
    {
      ghost var m1, counter1 := Mem(), memCounter;
      var at, next := i * 4096, (i + 1) * 4096;
      assert m1.root == ROOT && BASE_PAGE_SIZE == 4096 && next == at + 4096;
      BeforeNext(m0, m1, i, at);
      TablesFit(i + 1);
      hide *;
      var r := MapGeneric(at, at, 4096, ReadWriteExecuteUser);
      NextSucceeds(m1, counter1, i, at, r, memCounter);
      IdentityGrows(m0, m1, Mem(), at, next, Rights(ReadWriteExecuteUser));
    }

    /** Takes a zeroed page from the region; each one moves the counter by two pages. */
    method AllocateOnePage() returns (ok: bool, x: nat)
      modifies `pages, `memCounter
      ensures ok <==> old(memCounter) + 4096 < REGION
      ensures ok ==>
        x == old(memCounter) + 4096 && memCounter == old(memCounter) + 8192 && pages == old(pages)[x := NO_ENTRIES]
      ensures !ok ==> memCounter == old(memCounter) + 4096 && pages == old(pages)
    {
      memCounter := memCounter + 4096;
      if memCounter >= REGION {
        return false, 0;
      }
      x := memCounter;
      memCounter := memCounter + 4096;
      pages := pages[x := NO_ENTRIES];
      ok := true;
    }

    /** Allocates a table and makes the unused entry i of table p refer to it. */
    method NewTable(layer: nat, p: nat, i: nat) returns (ok: bool, x: nat)
      requires Valid() && p in places && i < ENTRIES && places[p].layer == layer < 3
      requires HasTable(Mem(), p) && pages[p][i] == Empty
      modifies `pages, `memCounter, `places
      ensures Valid()
      ensures SameOutside(old(Mem()), Mem(), 0, 0)
      ensures ok <==> old(memCounter) + 4096 < REGION
      ensures ok ==> memCounter == old(memCounter) + 8192
      ensures ok ==>
        x !in old(pages) && pages == old(pages)[x := NO_ENTRIES][p := old(pages)[p][i := Directory(x, PERMISSIVE)]]
      ensures ok ==> places == old(places)[x := PlaceBelow(old(places), p, i)]
      ensures ok ==> SameObstaclesFrom(old(Mem()), Mem(), SlotBase(old(places)[p], i) + 1)
      ensures !ok ==> pages == old(pages) && places == old(places) && REGION <= memCounter
    {
      hide Hangs, PlaceBelow, Same, SameObstaclesFrom, SlotBase, Walk;
      ghost var pages0, places0 := pages, places;
      ok, x := AllocateOnePage();
      if ok {
        assert p in pages0 && |pages0[p]| == ENTRIES;
        TableAdded(pages0, places0, p, i, x);
        TableObstacles(pages0, places0, p, i, x);
        pages := pages[p := pages[p][i := Directory(x, PERMISSIVE)]];
        places := places[x := PlaceBelow(places, p, i)];
      } else {
        assert SameOutside(MemoryOf(pages0), MemoryOf(pages), 0, 0);
      }
    }

    /** Fills entries of table p from i on with 1 GiB pages, while whole ones remain to be mapped; the code
        asserts that each of them is unused. */
    method MapHugePages(p: nat, i: nat, vbase: nat, pbase: nat, psize: nat, rights: MapAction)
      returns (ok: bool, mapped: nat)
      requires Valid() && p in places && places[p].layer == 1 && i < ENTRIES && SlotBase(places[p], i) == vbase
      requires HasTable(Mem(), p) && pages[p][i] == Empty
      requires pbase % HUGE_PAGE_SIZE == 0 && HUGE_PAGE_SIZE <= psize
      modifies `pages
      ensures Valid() && pages.Keys == old(pages.Keys)
      ensures mapped <= psize && mapped % HUGE_PAGE_SIZE == 0 && (ok ==> 0 < mapped)
      ensures Filled(old(Mem()), Mem(), vbase, pbase, mapped, Rights(rights))
      ensures PagedAt(Mem(), 1, vbase, vbase + mapped)
      ensures !ok ==> 0 < mapped < psize && HugeObstacle(old(Mem()), vbase + mapped)
    {
      hide EntrySize, Filled, FilledUpTo, Hangs, HasTable, HugeObstacle, LargeObstacle, MemoryOf, PagedAt, Rights,
           SlotBase;
      PageSizes();
      ghost var m0, f := Mem(), Rights(rights);
      mapped := 0;
      var idx := i;
      FillStart(pages, places, p, i, vbase, pbase, f);
      NothingPaged(m0, 1, vbase);
      FilledFacts(m0, pages, places, p, i, idx, vbase, pbase, mapped, f);
      while mapped < psize && psize - mapped >= HUGE_PAGE_SIZE && idx < 512
        invariant i <= idx <= ENTRIES && mapped <= psize && Valid()
        invariant FilledUpTo(m0, pages, places, p, i, idx, vbase, pbase, mapped, f)
        invariant p in pages && |pages[p]| == ENTRIES && pages.Keys == old(pages.Keys)
        invariant PagedAt(Mem(), 1, vbase, vbase + mapped)
        invariant if mapped == 0 then pages[p][i] == Empty && idx == i else i < idx
        decreases psize - mapped
      {
        if pages[p][idx] != Empty {
          InUse(m0, pages, places, p, i, idx, vbase, pbase, mapped, f);
          FilledFacts(m0, pages, places, p, i, idx, vbase, pbase, mapped, f);
          return false, mapped;
        }
        NextPage(m0, pages, places, p, i, idx, vbase, pbase, mapped, f);
        PagedStep(pages, places, p, idx, 1, vbase, mapped, pbase + mapped, f);
        FillNext(m0, pages, places, p, i, idx, vbase, pbase, mapped, f);
        pages := pages[p := pages[p][idx := Page(pbase + mapped, Rights(rights))]];
        idx := idx + 1;
        mapped := mapped + HUGE_PAGE_SIZE;
        FilledFacts(m0, pages, places, p, i, idx, vbase, pbase, mapped, f);
      }
      FilledFacts(m0, pages, places, p, i, idx, vbase, pbase, mapped, f);
      ok := true;
    }

    /** Fills entries of table p from i on with 2 MiB pages; an entry in use on the way ends the call. */
    method MapLargePages(p: nat, i: nat, vbase: nat, pbase: nat, psize: nat, rights: MapAction)
      returns (ok: bool, mapped: nat)
      requires Valid() && p in places && places[p].layer == 2 && i < ENTRIES && SlotBase(places[p], i) == vbase
      requires HasTable(Mem(), p) && pages[p][i] == Empty
      requires pbase % LARGE_PAGE_SIZE == 0 && LARGE_PAGE_SIZE <= psize
      modifies `pages
      ensures Valid() && pages.Keys == old(pages.Keys)
      ensures mapped <= psize && mapped % LARGE_PAGE_SIZE == 0 && (ok ==> 0 < mapped)
      ensures Filled(old(Mem()), Mem(), vbase, pbase, mapped, Rights(rights))
      ensures PagedAt(Mem(), 2, vbase, vbase + mapped)
      ensures !ok ==> 0 < mapped < psize && LargeObstacle(old(Mem()), vbase + mapped)
    {
      hide EntrySize, Filled, FilledUpTo, Hangs, HasTable, HugeObstacle, LargeObstacle, MemoryOf, PagedAt, Rights,
           SlotBase;
      PageSizes();
      ghost var m0, f := Mem(), Rights(rights);
      mapped := 0;
      var idx := i;
      FillStart(pages, places, p, i, vbase, pbase, f);
      NothingPaged(m0, 2, vbase);
      FilledFacts(m0, pages, places, p, i, idx, vbase, pbase, mapped, f);
      while mapped < psize && psize - mapped >= LARGE_PAGE_SIZE && idx < 512
        invariant i <= idx <= ENTRIES && mapped <= psize && Valid()
        invariant FilledUpTo(m0, pages, places, p, i, idx, vbase, pbase, mapped, f)
        invariant p in pages && |pages[p]| == ENTRIES && pages.Keys == old(pages.Keys)
        invariant PagedAt(Mem(), 2, vbase, vbase + mapped)
        invariant if mapped == 0 then pages[p][i] == Empty && idx == i else i < idx
        decreases psize - mapped
      {
        if pages[p][idx] != Empty {
          InUse(m0, pages, places, p, i, idx, vbase, pbase, mapped, f);
          FilledFacts(m0, pages, places, p, i, idx, vbase, pbase, mapped, f);
          return false, mapped;
        }
        NextPage(m0, pages, places, p, i, idx, vbase, pbase, mapped, f);
        PagedStep(pages, places, p, idx, 2, vbase, mapped, pbase + mapped, f);
        FillNext(m0, pages, places, p, i, idx, vbase, pbase, mapped, f);
        pages := pages[p := pages[p][idx := Page(pbase + mapped, Rights(rights))]];
        idx := idx + 1;
        mapped := mapped + LARGE_PAGE_SIZE;
        FilledFacts(m0, pages, places, p, i, idx, vbase, pbase, mapped, f);
      }
      FilledFacts(m0, pages, places, p, i, idx, vbase, pbase, mapped, f);
      ok := true;
    }

    /** Fills entries of table p from i on with 4 KiB pages, over whatever they held. */
    method MapBasePages(p: nat, i: nat, vbase: nat, pbase: nat, psize: nat, rights: MapAction) returns (mapped: nat)
      requires Valid() && p in places && places[p].layer == 3 && i < ENTRIES && SlotBase(places[p], i) == vbase
      requires HasTable(Mem(), p)
      requires pbase % BASE_PAGE_SIZE == 0 && psize % BASE_PAGE_SIZE == 0
      modifies `pages
      ensures Valid() && pages.Keys == old(pages.Keys)
      ensures mapped <= psize && mapped % BASE_PAGE_SIZE == 0 && (0 < psize ==> 0 < mapped)
      ensures vbase + mapped <= NextTable(vbase) && (mapped < psize ==> vbase + mapped == NextTable(vbase))
      ensures Filled(old(Mem()), Mem(), vbase, pbase, mapped, Rights(rights))
      ensures BaseMapped(Mem(), vbase, vbase + mapped)
    {
      hide EntrySize, Filled, FilledUpTo, Hangs, HasTable, MemoryOf, Rights, SlotBase, Walk;
      PageSizes();
      ghost var m0, f := Mem(), Rights(rights);
      mapped := 0;
      var idx := i;
      FillStart(pages, places, p, i, vbase, pbase, f);
      FilledFacts(m0, pages, places, p, i, idx, vbase, pbase, mapped, f);
      assert BaseMapped(Mem(), vbase, vbase);
      while mapped < psize && idx < 512
        invariant i <= idx <= ENTRIES && mapped <= psize && Valid()
        invariant FilledUpTo(m0, pages, places, p, i, idx, vbase, pbase, mapped, f)
        invariant p in pages && |pages[p]| == ENTRIES && pages.Keys == old(pages.Keys)
        invariant BaseMapped(Mem(), vbase, vbase + mapped) && mapped % BASE_PAGE_SIZE == 0 && (mapped == 0 ==> idx == i)
        decreases psize - mapped
      {
        FilledFacts(m0, pages, places, p, i, idx, vbase, pbase, mapped, f);
        NoTableBelow(pages, places, p, idx);
        NextBasePage(pbase, psize, mapped);
        PagedStep(pages, places, p, idx, 3, vbase, mapped, pbase + mapped, f);
        FillNext(m0, pages, places, p, i, idx, vbase, pbase, mapped, f);
        pages := pages[p := pages[p][idx := Page(pbase + mapped, Rights(rights))]];
        mapped := mapped + BASE_PAGE_SIZE;
        idx := idx + 1;
        FilledFacts(m0, pages, places, p, i, idx, vbase, pbase, mapped, f);
      }
      FilledFacts(m0, pages, places, p, i, idx, vbase, pbase, mapped, f);
      TableEnds(m0, pages, places, p, i, idx, vbase, pbase, mapped, f);
    }

    /** Maps [vbase, vbase + psize) to [pbase, pbase + psize), with the largest pages that fit. */
    method MapGeneric(vbase: nat, pbase: nat, psize: nat, rights: MapAction) returns (r: Outcome)
      requires Valid() && vbase < MAX_BASE && vbase + psize <= MAX_BASE
      modifies `pages, `memCounter, `places
      ensures Valid()
      ensures WellAligned(vbase, pbase, psize, rights) <==>
        pbase % 4096 == 0 && psize % 4096 == 0 && vbase % 4096 == 0 && rights != NoAction
      ensures !WellAligned(vbase, pbase, psize, rights) ==>
        r == Panicked && pages == old(pages) && memCounter == old(memCounter)
      ensures WellAligned(vbase, pbase, psize, rights) ==>
        Achieved(old(Mem()), Mem(), vbase, pbase, psize, Rights(rights), r, memCounter)
      ensures WellAligned(vbase, pbase, psize, rights) && psize == BASE_PAGE_SIZE ==>
        && OnePage(old(Mem()), 0, ROOT, old(memCounter), vbase, r, memCounter)
        && (r.Done? ==> BaseMapped(Mem(), vbase, vbase + psize))
      ensures WellAligned(vbase, pbase, psize, rights) && !CanBeLarge(vbase, pbase, psize) && 0 < psize ==>
        && ManyPages(old(Mem()), 0, ROOT, old(memCounter), vbase, vbase + psize, r, memCounter)
        && (r.Done? ==> BaseMapped(Mem(), vbase, vbase + psize))
      ensures r.Done? ==> forall va: nat | vbase <= va < vbase + psize :: Grants(Walk(Mem(), va), rights)
      ensures WellAligned(vbase, pbase, psize, rights) ==>
        LargestFirst(old(Mem()), 0, ROOT, Mem(), old(memCounter), vbase, pbase, psize, r, memCounter)
      decreases psize, 3
    {
      hide Achieved, BaseMapped, CanBeLarge, EntryAt, EntrySize, Hangs, HasTable, Grants, InSlot, InTable, LargestFirst,
           ManyPages, OnePage, PlaceBelow,
           PlaceOk, Rights, Same, SameObstaclesFrom, SameOutside, SlotBase, SlotOf;
      PageSizes();
      ghost var m0, counter0, pages0, places0, f := Mem(), memCounter, pages, places, Rights(rights);
      if pbase % BASE_PAGE_SIZE != 0 || psize % BASE_PAGE_SIZE != 0 || vbase % BASE_PAGE_SIZE != 0
         || rights == NoAction
      {
        assert !WellAligned(vbase, pbase, psize, rights);
        return Panicked;
      }
      assert WellAligned(vbase, pbase, psize, rights);
      OneIsSmall(vbase, pbase);
      RootThere(pages, places, vbase);
      EntryFor(pages, places, ROOT, vbase);
      var pml4Idx := SlotOf(0, vbase);
      if pages[ROOT][pml4Idx] == Empty {
        var ok, x := NewTable(0, ROOT, pml4Idx);
        NewTableCovers(pages0, pages, places0, places, ROOT, 0, vbase, ok, x);
        if !ok {
          OnePageNoRoom(m0, 0, ROOT, counter0, vbase, memCounter);
          ManyNoRoom(m0, 0, ROOT, counter0, vbase, vbase + psize, memCounter);
          LargestNoRoom(m0, 0, ROOT, Mem(), counter0, vbase, pbase, psize, memCounter);
          NoRoom(m0, Mem(), vbase, pbase, psize, f, memCounter);
          return Panicked;
        }
        ghost var m1 := Mem();
        r := MapInPdpt(pages[ROOT][pml4Idx].addr, vbase, pbase, psize, rights);
        AfterTable(m0, m1, Mem(), places0[ROOT], pml4Idx, vbase, pbase, psize, f, r, memCounter);
        LargestAfterTable(m0, m1, 0, ROOT, x, Mem(), counter0, vbase, pbase, psize, r, memCounter);
        if psize == BASE_PAGE_SIZE {
          OnePageAfterTable(m0, m1, 0, ROOT, x, counter0, vbase, r, memCounter);
        }
        if !CanBeLarge(vbase, pbase, psize) && 0 < psize {
          var pl := places0[ROOT];
          ManyAfterTable(m0, m1, 0, ROOT, x, pl, pml4Idx, counter0, vbase, vbase + psize, r, memCounter);
        }
      } else {
        r := MapInPdpt(pages[ROOT][pml4Idx].addr, vbase, pbase, psize, rights);
        LargestBelow(m0, 0, ROOT, Mem(), counter0, vbase, pbase, psize, r, memCounter);
        if psize == BASE_PAGE_SIZE {
          OnePageBelow(m0, 0, ROOT, counter0, vbase, r, memCounter);
        }
        if !CanBeLarge(vbase, pbase, psize) && 0 < psize {
          ManyBelow(m0, 0, ROOT, counter0, vbase, vbase + psize, r, memCounter);
        }
      }
      AchievedGrants(m0, Mem(), vbase, pbase, psize, r, memCounter, rights);
    }

    /** The part of the mapping that starts in the page directory pointer table p. */
    method MapInPdpt(p: nat, vbase: nat, pbase: nat, psize: nat, rights: MapAction) returns (r: Outcome)
      requires Valid() && vbase < MAX_BASE && vbase + psize <= MAX_BASE && WellAligned(vbase, pbase, psize, rights)
      requires p in places && places[p].layer == 1 && InTable(places[p], vbase)
      modifies `pages, `memCounter, `places
      ensures Valid()
      ensures Achieved(old(Mem()), Mem(), vbase, pbase, psize, Rights(rights), r, memCounter)
      ensures psize == BASE_PAGE_SIZE ==> OnePage(old(Mem()), 1, p, old(memCounter), vbase, r, memCounter)
      ensures !CanBeLarge(vbase, pbase, psize) && r.Done? ==> BaseMapped(Mem(), vbase, vbase + psize)
      ensures !CanBeLarge(vbase, pbase, psize) && 0 < psize ==>
        ManyPages(old(Mem()), 1, p, old(memCounter), vbase, vbase + psize, r, memCounter)
      ensures LargestFirst(old(Mem()), 1, p, Mem(), old(memCounter), vbase, pbase, psize, r, memCounter)
      decreases psize, 2
    {
      hide Achieved, BaseMapped, CanBeLarge, EntryAt, EntrySize, Filled, Hangs, HasTable, HugeObstacle, InSlot, InTable,
           LargeObstacle, LargestFirst, ManyPages, OnePage, PagedAt,
           PlaceBelow, PlaceOk, Rights, Same, SameObstaclesFrom, SameOutside,
           SlotBase, SlotOf, WellAligned;
      PageSizes();
      ghost var m0, counter0, pages0, places0, f := Mem(), memCounter, pages, places, Rights(rights);
      EntryFor(pages, places, p, vbase);
      var i := SlotOf(1, vbase);
      Starts1(vbase);
      if pages[p][i] == Empty {
        if vbase == PML4_SLOT_SIZE * SlotOf(0, vbase) + HUGE_PAGE_SIZE * i &&
           pbase % HUGE_PAGE_SIZE == 0 && psize >= HUGE_PAGE_SIZE {
          AtStart1(places[p], vbase);
          FitsLarge(vbase, pbase, psize, HUGE_PAGE_SIZE);
          var ok, mapped := MapHugePages(p, i, vbase, pbase, psize, rights);
          NotOnePage(psize);
          if ok {
            RestAligned(vbase, pbase, psize, rights, mapped);
            ghost var m1 := Mem();
            r := MapRest(m0, vbase, pbase, mapped, psize, rights);
            PagedStays(m1, Mem(), 1, vbase, vbase + HUGE_PAGE_SIZE, vbase + mapped, vbase + psize);
          } else {
            Collision(m0, Mem(), vbase, pbase, mapped, psize, f, memCounter);
            r := Panicked;
          }
          LargestFilled(m0, 1, p, Mem(), counter0, vbase, pbase, psize, r, memCounter);
        } else {
          var ok, x := NewTable(1, p, i);
          NewTableCovers(pages0, pages, places0, places, p, 1, vbase, ok, x);
          if !ok {
            OnePageNoRoom(m0, 1, p, counter0, vbase, memCounter);
            ManyNoRoom(m0, 1, p, counter0, vbase, vbase + psize, memCounter);
            LargestNoRoom(m0, 1, p, Mem(), counter0, vbase, pbase, psize, memCounter);
            NoRoom(m0, Mem(), vbase, pbase, psize, f, memCounter);
            return Panicked;
          }
          ghost var m1 := Mem();
          r := MapInPd(pages[p][i].addr, vbase, pbase, psize, rights);
          AfterTable(m0, m1, Mem(), places0[p], i, vbase, pbase, psize, f, r, memCounter);
          LargestAfterTable(m0, m1, 1, p, x, Mem(), counter0, vbase, pbase, psize, r, memCounter);
          if psize == BASE_PAGE_SIZE {
            OnePageAfterTable(m0, m1, 1, p, x, counter0, vbase, r, memCounter);
          }
          if !CanBeLarge(vbase, pbase, psize) && 0 < psize {
            var pl := places0[p];
            ManyAfterTable(m0, m1, 1, p, x, pl, i, counter0, vbase, vbase + psize, r, memCounter);
          }
        }
      } else if pages[p][i].Page? {
        OnePageRefused(m0, 1, p, counter0, vbase);
        LargestVoid(m0, 1, p, m0, counter0, vbase, pbase, psize, Refused(vbase), memCounter);
        ManyRefused(m0, 1, p, counter0, vbase, vbase + psize, Refused(vbase), memCounter);
        CoveredByPage(pages, places, p, vbase, pbase, psize, f, memCounter);
        r := Refused(vbase);
      } else {
        r := MapInPd(pages[p][i].addr, vbase, pbase, psize, rights);
        LargestBelow(m0, 1, p, Mem(), counter0, vbase, pbase, psize, r, memCounter);
        if psize == BASE_PAGE_SIZE {
          OnePageBelow(m0, 1, p, counter0, vbase, r, memCounter);
        }
        if !CanBeLarge(vbase, pbase, psize) && 0 < psize {
          ManyBelow(m0, 1, p, counter0, vbase, vbase + psize, r, memCounter);
        }
      }
    }

    /** The part of the mapping that starts in the page directory p. */
    method MapInPd(p: nat, vbase: nat, pbase: nat, psize: nat, rights: MapAction) returns (r: Outcome)
      requires Valid() && vbase < MAX_BASE && vbase + psize <= MAX_BASE && WellAligned(vbase, pbase, psize, rights)
      requires p in places && places[p].layer == 2 && InTable(places[p], vbase)
      modifies `pages, `memCounter, `places
      ensures Valid()
      ensures Achieved(old(Mem()), Mem(), vbase, pbase, psize, Rights(rights), r, memCounter)
      ensures psize == BASE_PAGE_SIZE ==> OnePage(old(Mem()), 2, p, old(memCounter), vbase, r, memCounter)
      ensures !CanBeLarge(vbase, pbase, psize) && r.Done? ==> BaseMapped(Mem(), vbase, vbase + psize)
      ensures !CanBeLarge(vbase, pbase, psize) && 0 < psize ==>
        ManyPages(old(Mem()), 2, p, old(memCounter), vbase, vbase + psize, r, memCounter)
      ensures LargestFirst(old(Mem()), 2, p, Mem(), old(memCounter), vbase, pbase, psize, r, memCounter)
      decreases psize, 1
    {
      hide Achieved, BaseMapped, CanBeLarge, EntryAt, EntrySize, Filled, Hangs, HasTable, HugeObstacle, InSlot, InTable,
           LargeObstacle, LargestFirst, ManyPages, OnePage, PagedAt,
           PlaceBelow, PlaceOk, Rights, Same, SameObstaclesFrom, SameOutside,
           SlotBase, SlotOf, WellAligned;
      PageSizes();
      ghost var m0, counter0, pages0, places0, f := Mem(), memCounter, pages, places, Rights(rights);
      EntryFor(pages, places, p, vbase);
      var i := SlotOf(2, vbase);
      Starts2(vbase);
      if pages[p][i] == Empty {
        if vbase == PML4_SLOT_SIZE * SlotOf(0, vbase) + HUGE_PAGE_SIZE * SlotOf(1, vbase) + LARGE_PAGE_SIZE * i
           && pbase % LARGE_PAGE_SIZE == 0 && psize >= LARGE_PAGE_SIZE
        {
          AtStart2(places[p], vbase);
          FitsLarge(vbase, pbase, psize, LARGE_PAGE_SIZE);
          var ok, mapped := MapLargePages(p, i, vbase, pbase, psize, rights);
          NotOnePage(psize);
          if ok {
            RestAligned(vbase, pbase, psize, rights, mapped);
            ghost var m1 := Mem();
            r := MapRest(m0, vbase, pbase, mapped, psize, rights);
            PagedStays(m1, Mem(), 2, vbase, vbase + LARGE_PAGE_SIZE, vbase + mapped, vbase + psize);
          } else {
            Collision(m0, Mem(), vbase, pbase, mapped, psize, f, memCounter);
            r := Refused(vbase);
          }
          LargestFilled(m0, 2, p, Mem(), counter0, vbase, pbase, psize, r, memCounter);
        } else {
          var ok, x := NewTable(2, p, i);
          NewTableCovers(pages0, pages, places0, places, p, 2, vbase, ok, x);
          if !ok {
            OnePageNoRoom(m0, 2, p, counter0, vbase, memCounter);
            ManyNoRoom(m0, 2, p, counter0, vbase, vbase + psize, memCounter);
            LargestNoRoom(m0, 2, p, Mem(), counter0, vbase, pbase, psize, memCounter);
            NoRoom(m0, Mem(), vbase, pbase, psize, f, memCounter);
            return Panicked;
          }
          ghost var m1 := Mem();
          r := MapInPt(pages[p][i].addr, vbase, pbase, psize, rights);
          AfterTable(m0, m1, Mem(), places0[p], i, vbase, pbase, psize, f, r, memCounter);
          LargestAfterTable(m0, m1, 2, p, x, Mem(), counter0, vbase, pbase, psize, r, memCounter);
          if psize == BASE_PAGE_SIZE {
            OnePageAfterTable(m0, m1, 2, p, x, counter0, vbase, r, memCounter);
          }
          if !CanBeLarge(vbase, pbase, psize) && 0 < psize {
            var pl := places0[p];
            ManyAfterTable(m0, m1, 2, p, x, pl, i, counter0, vbase, vbase + psize, r, memCounter);
          }
        }
      } else if pages[p][i].Page? {
        OnePageRefused(m0, 2, p, counter0, vbase);
        LargestVoid(m0, 2, p, m0, counter0, vbase, pbase, psize, Refused(vbase), memCounter);
        ManyRefused(m0, 2, p, counter0, vbase, vbase + psize, Refused(vbase), memCounter);
        CoveredByPage(pages, places, p, vbase, pbase, psize, f, memCounter);
        r := Refused(vbase);
      } else {
        r := MapInPt(pages[p][i].addr, vbase, pbase, psize, rights);
        LargestBelow(m0, 2, p, Mem(), counter0, vbase, pbase, psize, r, memCounter);
        if psize == BASE_PAGE_SIZE {
          OnePageBelow(m0, 2, p, counter0, vbase, r, memCounter);
        }
        if !CanBeLarge(vbase, pbase, psize) && 0 < psize {
          ManyBelow(m0, 2, p, counter0, vbase, vbase + psize, r, memCounter);
        }
      }
    }

    /** The part of the mapping that starts in the page table p. */
    method MapInPt(p: nat, vbase: nat, pbase: nat, psize: nat, rights: MapAction) returns (r: Outcome)
      requires Valid() && vbase < MAX_BASE && vbase + psize <= MAX_BASE && WellAligned(vbase, pbase, psize, rights)
      requires p in places && places[p].layer == 3 && InTable(places[p], vbase)
      modifies `pages, `memCounter, `places
      ensures Valid()
      ensures Achieved(old(Mem()), Mem(), vbase, pbase, psize, Rights(rights), r, memCounter)
      ensures psize == BASE_PAGE_SIZE ==> OnePage(old(Mem()), 3, p, old(memCounter), vbase, r, memCounter)
      ensures !CanBeLarge(vbase, pbase, psize) && r.Done? ==> BaseMapped(Mem(), vbase, vbase + psize)
      ensures !CanBeLarge(vbase, pbase, psize) && 0 < psize ==>
        ManyPages(old(Mem()), 3, p, old(memCounter), vbase, vbase + psize, r, memCounter)
      ensures LargestFirst(old(Mem()), 3, p, Mem(), old(memCounter), vbase, pbase, psize, r, memCounter)
      decreases psize, 0
    {
      hide Achieved, BaseMapped, CanBeLarge, EntryAt, Filled, Hangs, HasTable, InSlot, InTable, LargestFirst,
           ManyPages, NextTable, OnePage, PlaceOk, Rights, Same, SlotBase, SlotOf;
      ghost var m0, counter0 := Mem(), memCounter;
      EntryFor(pages, places, p, vbase);
      AtStart3(places[p], vbase);
      var mapped := MapBasePages(p, SlotOf(3, vbase), vbase, pbase, psize, rights);
      OnePageFilled(m0, p, counter0, vbase, psize, mapped);
      if mapped == 0 {
        AllFilled(m0, Mem(), vbase, pbase, psize, Rights(rights), memCounter);
        r := Done;
      } else {
        RestAligned(vbase, pbase, psize, rights, mapped);
        ghost var m1 := Mem();
        r := MapRest(m0, vbase, pbase, mapped, psize, rights);
        if mapped == psize {
          ManyFilled(m0, p, counter0, vbase, vbase + psize);
        } else if !CanBeLarge(vbase, pbase, psize) {
          FilledParts(m0, m1, vbase, pbase, mapped, Rights(rights));
          ManyRest(m0, m1, p, counter0, vbase, vbase + mapped, vbase + psize, r, memCounter);
        }
      }
      LargestVoid(m0, 3, p, Mem(), counter0, vbase, pbase, psize, r, memCounter);
    }

    /** After `mapped` bytes, the same again for what is left, unless that is nothing. */
    method MapRest(ghost m0: Memory<Entry>, vbase: nat, pbase: nat, mapped: nat, psize: nat, rights: MapAction)
      returns (r: Outcome)
      requires Valid() && vbase + psize <= MAX_BASE && 0 < mapped <= psize
      requires WellAligned(vbase + mapped, pbase + mapped, psize - mapped, rights)
      requires Filled(m0, Mem(), vbase, pbase, mapped, Rights(rights))
      modifies `pages, `memCounter, `places
      ensures Valid()
      ensures Achieved(m0, Mem(), vbase, pbase, psize, Rights(rights), r, memCounter)
      ensures mapped == psize ==> r == Done && pages == old(pages) && memCounter == old(memCounter)
      ensures SameOutside(old(Mem()), Mem(), vbase + mapped, vbase + psize)
      ensures mapped < psize && !CanBeLarge(vbase, pbase, psize) ==>
        ManyPages(old(Mem()), 0, ROOT, old(memCounter), vbase + mapped, vbase + psize, r, memCounter)
      ensures r.Done? && !CanBeLarge(vbase, pbase, psize) && BaseMapped(old(Mem()), vbase, vbase + mapped) ==>
        BaseMapped(Mem(), vbase, vbase + psize)
      decreases psize - mapped, 4
    {
      hide Achieved, BaseMapped, CanBeLarge, Filled, LargestFirst, ManyPages, MemoryOf, OnePage,
           Rights, Valid, WellAligned;
      ghost var m1 := Mem();
      if mapped < psize {
        r := MapGeneric(vbase + mapped, pbase + mapped, psize - mapped, rights);
        AfterFill(m0, m1, Mem(), vbase, pbase, mapped, psize, Rights(rights), r, memCounter);
        LargeBefore(vbase, pbase, mapped, psize);
        AchievedOutside(m1, Mem(), vbase + mapped, pbase + mapped, psize - mapped, Rights(rights), r, memCounter);
        BaseMappedOn(m1, Mem(), vbase, vbase + mapped, vbase + psize);
      } else {
        AllFilled(m0, m1, vbase, pbase, psize, Rights(rights), memCounter);
        r := Done;
      }
    }
  }
}
