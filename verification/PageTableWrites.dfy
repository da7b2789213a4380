/** What each single write to a page table does to the hardware's view of it. */
module PageTableWrites {
  import opened Definitions
  import opened Indexing
  import opened PageTables

  function Store<W>(m: Memory<W>, p: nat, i: nat, w: W): Memory<W>
    requires HasTable(m, p) && i < ENTRIES
  {
    m.(pages := m.pages[p := m.pages[p][i := w]])
  }

  /** One aligned block of addresses starts being translated. */
  lemma InterpGains<W>(m: Memory<W>, m': Memory<W>, base: nat, layer: nat, addr: nat, f: Flags)
    requires base % EntrySize(layer) == 0 && base < MAX_BASE
    requires forall va: nat | va < MAX_BASE && !(base <= va < base + EntrySize(layer)) :: Walk(m', va) == Walk(m, va)
    requires forall va: nat | base <= va < base + EntrySize(layer) ::
      Walk(m, va) == Fault && Walk(m', va) == Hit(layer, addr, f)
    ensures base !in Interp(m)
    ensures Interp(m') == Interp(m)[base := PTE(MemRegion(addr, EntrySize(layer)), f)]
  {
    hide Walk, EntrySize;
    var after := Interp(m)[base := PTE(MemRegion(addr, EntrySize(layer)), f)];
    forall va: nat
      ensures va in Interp(m') <==> va in after
      ensures va in Interp(m') ==> Interp(m')[va] == after[va]
    {
      if base <= va < base + EntrySize(layer) && va % EntrySize(layer) == 0 {
        AlignedIsBase(base, va, EntrySize(layer));
      }
    }
  }

  // ----- writing a page over an empty entry

  lemma StoreAt<W>(m: Memory<W>, p: nat, i: nat, w: W, layer: nat, q: nat, j: nat)
    requires HasTable(m, p) && i < ENTRIES && HasTable(m, q) && j < ENTRIES
    ensures HasTable(Store(m, p, i, w), q)
    ensures EntryAt(Store(m, p, i, w), layer, q, j)
         == if q == p && j == i then m.view(layer, w) else EntryAt(m, layer, q, j)
  {
  }

  lemma StoreKeepsHung<W>(m: Memory<W>, places: map<nat, Place>, p: nat, i: nat, w: W, q: nat)
    requires p in places && i < ENTRIES && HasTable(m, p) && !EntryAt(m, places[p].layer, p, i).Directory?
    requires q in places && Hung(m, places, q)
    requires q != m.root ==> HasTable(m, places[q].up)
    ensures Hung(Store(m, p, i, w), places, q)
  {
  }

  lemma StoreLeaf<W>(m: Memory<W>, places: map<nat, Place>, p: nat, i: nat, w: W)
    requires Hangs(m, places) && p in places && i < ENTRIES
    requires HasTable(m, p) && !EntryAt(m, places[p].layer, p, i).Directory?
    requires var e := m.view(places[p].layer, w); !e.Directory? && EntryOk(places, m.root, p, i, e)
    ensures Hangs(Store(m, p, i, w), places)
  {
    hide PlaceOk, EntryOk, EntryAt, SlotBase;
    var m' := Store(m, p, i, w);
    forall q: nat | q in places ensures Hung(m', places, q) {
      assert Hung(m, places, q);
      StoreKeepsHung(m, places, p, i, w, q);
    }
    forall q: nat, j: nat | q in places && j < ENTRIES
      ensures EntryOk(places, m.root, q, j, EntryAt(m', places[q].layer, q, j))
    {
      assert Hung(m, places, q);
      StoreAt(m, p, i, w, places[q].layer, q, j);
    }
  }

  /** Inside entry i of table p, the walk sees just that entry, unless it is a directory. */
  lemma WalkLeaf<W>(m: Memory<W>, places: map<nat, Place>, p: nat, i: nat, va: nat)
    requires Hangs(m, places) && p in places && i < ENTRIES && InSlot(places[p], i, va)
    requires HasTable(m, p) && !EntryAt(m, places[p].layer, p, i).Directory?
    ensures Walk(m, va) == match EntryAt(m, places[p].layer, p, i)
                           case Empty => Fault
                           case Page(addr, f) => Hit(places[p].layer, addr, f)
                           case Directory(_, _) => Fault
  {
    hide *;
    TableFacts(m, places, p, i);
    SlotUnique(places[p], va, i);
    WalkClimb(m, places, p, va);
    LeafWalk(m, places[p].layer, p, i, va);
  }

  /** What being hung somewhere comes to, for one table. */
  lemma HungFacts<W>(m: Memory<W>, places: map<nat, Place>, q: nat)
    requires Hangs(m, places) && q in places
    ensures q in m.pages && m.root in places && HasTable(m, q) && Hung(m, places, q) && places.Keys == m.pages.Keys
    ensures q != m.root ==> places[q].up in places && places[places[q].up].layer == places[q].layer - 1
    ensures q != m.root ==>
      var pl := places[q];
      && pl.up in places && pl.up in m.pages && HasTable(m, pl.up) && pl.idx < ENTRIES && 0 < pl.layer
      && EntryAt(m, pl.layer - 1, pl.up, pl.idx) == Directory(q, PERMISSIVE)
  {
    assert Hung(m, places, q);
    if q != m.root {
      assert Hung(m, places, places[q].up);
    }
    hide PlaceOk, SlotBase;
  }

  lemma EntryFacts<W>(m: Memory<W>, places: map<nat, Place>, q: nat, j: nat)
    requires Hangs(m, places) && q in places && j < ENTRIES
    ensures HasTable(m, q) && EntryOk(places, m.root, q, j, EntryAt(m, places[q].layer, q, j))
  {
    assert Hung(m, places, q);
    assert EntryOk(places, m.root, q, j, EntryAt(m, places[q].layer, q, j));
  }

  lemma TableFacts<W>(m: Memory<W>, places: map<nat, Place>, p: nat, i: nat)
    requires Hangs(m, places) && p in places && i < ENTRIES
    ensures HasTable(m, p) && PlaceOk(places[p]) && places[p].layer < 4
    ensures EntryAt(m, places[p].layer, p, i).Page? ==> 0 < places[p].layer
  {
    assert Hung(m, places, p);
    assert EntryOk(places, m.root, p, i, EntryAt(m, places[p].layer, p, i));
  }

  lemma LeafWalk<W>(m: Memory<W>, layer: nat, p: nat, i: nat, va: nat)
    requires layer < 4 && HasTable(m, p) && i == SlotOf(layer, va)
    requires !EntryAt(m, layer, p, i).Directory? && (EntryAt(m, layer, p, i).Page? ==> 0 < layer)
    ensures WalkFrom(m, layer, p, va) == match EntryAt(m, layer, p, i)
                                         case Empty => Fault
                                         case Page(addr, f) => Hit(layer, addr, f)
                                         case Directory(_, _) => Fault
  {
  }

  lemma StoreAgrees<W>(m: Memory<W>, p: nat, i: nat, w: W)
    requires HasTable(m, p) && i < ENTRIES
    ensures AgreesOff(m, Store(m, p, i, w), p, i)
  {
  }

  lemma WalkOutside<W>(m: Memory<W>, places: map<nat, Place>, m': Memory<W>, p: nat, i: nat, va: nat)
    requires Hangs(m, places) && AgreesOff(m, m', p, i)
    requires p in places && i < ENTRIES && va < MAX_BASE && !InSlot(places[p], i, va)
    ensures Walk(m', va) == Walk(m, va)
  {
    hide WalkFrom, EntrySize, PlaceOk;
    assert Hung(m, places, m.root);
    assert InTable(places[m.root], va) by { RootCovers(va); }
    WalkAgrees(m, places, m', p, i, m.root, va);
  }

  /** What replacing one entry that is no directory by another does to all walks. */
  lemma StoreLeafWalks<W>(m: Memory<W>, places: map<nat, Place>, p: nat, i: nat, w: W)
    requires Hangs(m, places) && p in places && i < ENTRIES
    requires HasTable(m, p) && !EntryAt(m, places[p].layer, p, i).Directory?
    requires var e := m.view(places[p].layer, w); !e.Directory? && EntryOk(places, m.root, p, i, e)
    ensures Hangs(Store(m, p, i, w), places) && PlaceOk(places[p])
    ensures forall va: nat | va < MAX_BASE && !InSlot(places[p], i, va) :: Walk(Store(m, p, i, w), va) == Walk(m, va)
    ensures forall va: nat | InSlot(places[p], i, va) ::
      Walk(m, va) == LeafHit(places[p].layer, EntryAt(m, places[p].layer, p, i))
    ensures forall va: nat | InSlot(places[p], i, va) ::
      Walk(Store(m, p, i, w), va) == LeafHit(places[p].layer, m.view(places[p].layer, w))
  {
    hide AgreesOff, EntryAt, EntryOk, Hangs, HasTable, InSlot, PlaceOk, Store, Walk;
    var pl := places[p];
    var m' := Store(m, p, i, w);
    StoreLeaf(m, places, p, i, w);
    StoreAgrees(m, p, i, w);
    StoreAt(m, p, i, w, pl.layer, p, i);
    TableFacts(m, places, p, i);
    forall va: nat | va < MAX_BASE && !InSlot(pl, i, va) ensures Walk(m', va) == Walk(m, va) {
      WalkOutside(m, places, m', p, i, va);
    }
    forall va: nat | InSlot(pl, i, va)
      ensures Walk(m, va) == LeafHit(pl.layer, EntryAt(m, pl.layer, p, i))
      ensures Walk(m', va) == LeafHit(pl.layer, m.view(pl.layer, w))
    {
      WalkLeaf(m, places, p, i, va);
      WalkLeaf(m', places, p, i, va);
    }
  }

  function LeafHit(layer: nat, e: Entry): Translation {
    match e
    case Empty => Fault
    case Page(addr, f) => Hit(layer, addr, f)
    case Directory(_, _) => Fault
  }

  /** Writing a page over an empty entry inserts exactly its mapping into the view. */
  lemma StorePageInserts<W>(m: Memory<W>, places: map<nat, Place>, p: nat, i: nat, w: W)
    requires Hangs(m, places) && p in places && i < ENTRIES
    requires HasTable(m, p) && EntryAt(m, places[p].layer, p, i) == Empty
    requires var e := m.view(places[p].layer, w); e.Page? && EntryOk(places, m.root, p, i, e)
    ensures Hangs(Store(m, p, i, w), places)
    ensures
      var pl := places[p];
      var e := m.view(pl.layer, w);
      && SlotBase(pl, i) !in Interp(m)
      && Interp(Store(m, p, i, w)) == Interp(m)[SlotBase(pl, i) := PTE(MemRegion(e.addr, EntrySize(pl.layer)), e.flags)]
  {
    hide EntryAt, EntryOk, EntrySize, Hangs, HasTable, Interp, MappingAt, PlaceOk, SlotBase, Store, Walk;
    var pl := places[p];
    var e := m.view(pl.layer, w);
    StoreLeafWalks(m, places, p, i, w);
    SlotAligned(pl, i);
    InterpGains(m, Store(m, p, i, w), SlotBase(pl, i), pl.layer, e.addr, e.flags);
  }

  /** Writing zero over a page removes exactly its mapping from the view. */
  lemma StoreEmptyRemoves<W>(m: Memory<W>, places: map<nat, Place>, p: nat, i: nat, w: W)
    requires Hangs(m, places) && p in places && i < ENTRIES
    requires HasTable(m, p) && EntryAt(m, places[p].layer, p, i).Page?
    requires m.view(places[p].layer, w) == Empty
    ensures Hangs(Store(m, p, i, w), places)
    ensures SlotBase(places[p], i) in Interp(m)
    ensures Interp(Store(m, p, i, w)) == Interp(m) - {SlotBase(places[p], i)}
  {
    assert EntryOk(places, m.root, p, i, Empty);
    hide EntryAt, EntryOk, EntrySize, Hangs, HasTable, Interp, MappingAt, PlaceOk, SlotBase, Store, Walk;
    var pl := places[p];
    var e := EntryAt(m, pl.layer, p, i);
    StoreLeafWalks(m, places, p, i, w);
    SlotAligned(pl, i);
    InterpGains(Store(m, p, i, w), m, SlotBase(pl, i), pl.layer, e.addr, e.flags);
    Undo(Interp(Store(m, p, i, w)), SlotBase(pl, i), PTE(MemRegion(e.addr, EntrySize(pl.layer)), e.flags));
  }

  lemma Undo<K, V>(m: map<K, V>, k: K, v: V)
    requires k !in m
    ensures m[k := v] - {k} == m
  {
  }

  // ----- hanging an empty table below an empty entry, and taking it away again

  function AddPage<W>(m: Memory<W>, x: nat, ws: seq<W>): Memory<W> {
    m.(pages := m.pages[x := ws])
  }

  function RemovePage<W>(m: Memory<W>, x: nat): Memory<W> {
    m.(pages := m.pages - {x})
  }

  ghost predicate AllEmpty<W>(view: (nat, W) -> Entry, layer: nat, ws: seq<W>) {
    |ws| == ENTRIES && forall i: nat | i < ENTRIES :: view(layer, ws[i]) == Empty
  }

  function PlaceBelow(places: map<nat, Place>, p: nat, i: nat): Place
    requires p in places
  {
    Place(places[p].layer + 1, SlotBase(places[p], i), p, i)
  }

  /** Where an empty table x can be hung, below entry i of table p. */
  ghost predicate Insertable<W>(m: Memory<W>, places: map<nat, Place>, p: nat, i: nat, x: nat, ws: seq<W>, d: W) {
    && Hangs(m, places) && p in places && i < ENTRIES && places[p].layer < 3
    && HasTable(m, p) && EntryAt(m, places[p].layer, p, i) == Empty
    && x !in m.pages && AllEmpty(m.view, places[p].layer + 1, ws)
    && m.view(places[p].layer, d) == Directory(x, PERMISSIVE)
  }

  lemma InsertAt<W>(m: Memory<W>, p: nat, i: nat, x: nat, ws: seq<W>, d: W, layer: nat, q: nat, j: nat)
    requires HasTable(m, p) && i < ENTRIES && HasTable(m, q) && j < ENTRIES && x !in m.pages
    ensures HasTable(Store(AddPage(m, x, ws), p, i, d), q)
    ensures EntryAt(Store(AddPage(m, x, ws), p, i, d), layer, q, j)
         == if q == p && j == i then m.view(layer, d) else EntryAt(m, layer, q, j)
  {
  }

  lemma InsertHangsNew<W>(m: Memory<W>, places: map<nat, Place>, p: nat, i: nat, x: nat, ws: seq<W>, d: W)
    requires Insertable(m, places, p, i, x, ws, d)
    ensures Hung(Store(AddPage(m, x, ws), p, i, d), places[x := PlaceBelow(places, p, i)], x)
  {
    var m' := Store(AddPage(m, x, ws), p, i, d);
    var places' := places[x := PlaceBelow(places, p, i)];
    hide EntryAt, Hangs, Hung, InSlot, InTable, PlaceOk, SlotBase;
    HungFacts(m, places, p);
    TableFacts(m, places, p, i);
    SlotIsTable(places[p], i, p);
    InsertAt(m, p, i, x, ws, d, places[p].layer, p, i);
    assert HasTable(m', x) && m'.root == m.root;
    assert places'[x] == Place(places[p].layer + 1, SlotBase(places[p], i), p, i);
    assert x != p && x != m.root;
    HungIntro(m', places', x, p, i);
  }

  /** A table stays hung where it is, if its place, its parent and the entry that refers to it stay. */
  lemma HungStays<W>(m: Memory<W>, places: map<nat, Place>, m': Memory<W>, places': map<nat, Place>, q: nat)
    requires q in places && Hung(m, places, q) && q in places' && places'[q] == places[q]
    requires m'.root == m.root && HasTable(m', q)
    requires q != m.root ==>
      var up := places[q].up;
      && up in places' && places'[up] == places[up] && HasTable(m', up)
      && EntryAt(m', places[q].layer - 1, up, places[q].idx) == EntryAt(m, places[q].layer - 1, up, places[q].idx)
    ensures Hung(m', places', q)
  {
  }

  lemma HungIntro<W>(m: Memory<W>, places: map<nat, Place>, x: nat, p: nat, i: nat)
    requires x in places && p in places && i < ENTRIES && x != m.root && HasTable(m, x) && HasTable(m, p)
    requires places[x] == Place(places[p].layer + 1, SlotBase(places[p], i), p, i) && PlaceOk(places[x])
    requires EntryAt(m, places[p].layer, p, i) == Directory(x, PERMISSIVE)
    ensures Hung(m, places, x)
  {
  }

  lemma InsertKeepsHung<W>(m: Memory<W>, places: map<nat, Place>, p: nat, i: nat, x: nat, ws: seq<W>, d: W, q: nat)
    requires Insertable(m, places, p, i, x, ws, d) && q in places
    ensures Hung(Store(AddPage(m, x, ws), p, i, d), places[x := PlaceBelow(places, p, i)], q)
  {
    var m' := Store(AddPage(m, x, ws), p, i, d);
    hide AllEmpty, EntryAt, Hangs, HasTable, Hung, PlaceBelow;
    HungFacts(m, places, q);
    InsertAt(m, p, i, x, ws, d, 0, q, 0);
    assert m'.root == m.root;
    if q != m.root {
      InsertAt(m, p, i, x, ws, d, places[q].layer - 1, places[q].up, places[q].idx);
    }
    HungStays(m, places, m', places[x := PlaceBelow(places, p, i)], q);
  }

  lemma InsertEntriesNew<W>(m: Memory<W>, places: map<nat, Place>, p: nat, i: nat, x: nat, ws: seq<W>, d: W, j: nat)
    requires Insertable(m, places, p, i, x, ws, d) && j < ENTRIES
    ensures HasTable(Store(AddPage(m, x, ws), p, i, d), x)
    ensures EntryAt(Store(AddPage(m, x, ws), p, i, d), places[p].layer + 1, x, j) == Empty
  {
    hide Hangs;
  }

  lemma InsertKeepsEntries<W>(m: Memory<W>, places: map<nat, Place>, p: nat, i: nat, x: nat, ws: seq<W>, d: W, q: nat,
      j: nat)
    requires Insertable(m, places, p, i, x, ws, d) && q in places && j < ENTRIES
    ensures
      var m' := Store(AddPage(m, x, ws), p, i, d);
      HasTable(m', q) && EntryOk(places[x := PlaceBelow(places, p, i)], m.root, q, j,
          EntryAt(m', places[q].layer, q, j))
  {
    hide AddPage, AllEmpty, EntryAt, EntrySize, Hangs, HasTable, Hung, SlotBase, Store;
    HungFacts(m, places, q);
    HungFacts(m, places, m.root);
    EntryFacts(m, places, q, j);
    InsertAt(m, p, i, x, ws, d, places[q].layer, q, j);
  }

  lemma InsertHangs<W>(m: Memory<W>, places: map<nat, Place>, p: nat, i: nat, x: nat, ws: seq<W>, d: W)
    requires Insertable(m, places, p, i, x, ws, d)
    ensures Hangs(Store(AddPage(m, x, ws), p, i, d), places[x := PlaceBelow(places, p, i)])
  {
    var m' := Store(AddPage(m, x, ws), p, i, d);
    var places' := places[x := PlaceBelow(places, p, i)];
    assert places'.Keys == m'.pages.Keys && m'.root in places' by { hide Hung; }
    hide Insertable, Hung, EntryAt, SlotBase, AllEmpty;
    forall q: nat | q in places' ensures Hung(m', places', q) {
      if q == x {
        InsertHangsNew(m, places, p, i, x, ws, d);
      } else {
        InsertKeepsHung(m, places, p, i, x, ws, d, q);
      }
    }
    forall q: nat, j: nat | q in places' && j < ENTRIES
      ensures HasTable(m', q) && EntryOk(places', m.root, q, j, EntryAt(m', places'[q].layer, q, j))
    {
      if q == x {
        InsertEntriesNew(m, places, p, i, x, ws, d, j);
      } else {
        InsertKeepsEntries(m, places, p, i, x, ws, d, q, j);
      }
    }
    assert m'.root == m.root;
  }

  lemma AddPageAgrees<W>(m: Memory<W>, x: nat, ws: seq<W>, p: nat, i: nat)
    requires x !in m.pages
    ensures AgreesOff(m, AddPage(m, x, ws), p, i)
  {
  }

  lemma WalkEmptyTable<W>(m: Memory<W>, places: map<nat, Place>, x: nat, va: nat)
    requires Hangs(m, places) && x in places && InTable(places[x], va)
    requires HasTable(m, x) && IsEmptyTable(m, places[x].layer, x)
    ensures Walk(m, va) == Fault
  {
    hide EntrySize, PlaceOk;
    WalkClimb(m, places, x, va);
  }

  /** Adding a page that nothing refers to changes no walk. */
  lemma AddPageInvisible<W>(m: Memory<W>, places: map<nat, Place>, x: nat, ws: seq<W>, va: nat)
    requires Hangs(m, places) && x !in m.pages && va < MAX_BASE
    ensures Walk(AddPage(m, x, ws), va) == Walk(m, va)
  {
    hide EntrySize, WalkFrom, AgreesOff;
    assert Hung(m, places, m.root);
    var j := 0;
    if InSlot(places[m.root], 0, va) {
      SlotUnique(places[m.root], va, 0);
      j := 1;
      assert !InSlot(places[m.root], 1, va) by {
        if InSlot(places[m.root], 1, va) {
          SlotUnique(places[m.root], va, 1);
        }
      }
    }
    AddPageAgrees(m, x, ws, m.root, j);
    WalkOutside(m, places, AddPage(m, x, ws), m.root, j, va);
  }

  /** A fresh page changes nothing in the view. */
  lemma FreshPageInvisible<W>(m: Memory<W>, places: map<nat, Place>, x: nat, ws: seq<W>)
    requires Hangs(m, places) && x !in m.pages
    ensures Interp(AddPage(m, x, ws)) == Interp(m)
  {
    hide Hangs, Walk;
    forall va: nat | va < MAX_BASE ensures Walk(AddPage(m, x, ws), va) == Walk(m, va) {
      AddPageInvisible(m, places, x, ws, va);
    }
    SameWalksSameInterp(m, AddPage(m, x, ws));
  }

  lemma EmptyTableWalk<W>(m: Memory<W>, places: map<nat, Place>, p: nat, i: nat, x: nat, ws: seq<W>, d: W, va: nat)
    requires Insertable(m, places, p, i, x, ws, d)
    requires va < MAX_BASE
    ensures Walk(Store(AddPage(m, x, ws), p, i, d), va) == Walk(m, va)
  {
    var m1 := AddPage(m, x, ws);
    var m2 := Store(m1, p, i, d);
    var places2 := places[x := PlaceBelow(places, p, i)];
    if InSlot(places[p], i, va) {
      hide EntrySize, Walk, PlaceOk, SlotBase;
      InsertHangs(m, places, p, i, x, ws, d);
      WalkLeaf(m, places, p, i, va);
      assert InTable(places2[x], va) by { assert Hung(m, places, p); SlotIsTable(places[p], i, p); }
      WalkEmptyTable(m2, places2, x, va);
    } else {
      hide EntrySize, Walk, PlaceOk, SlotBase, Hangs;
      assert AgreesOff(m, m2, p, i) by {
        AddPageAgrees(m, x, ws, p, i);
        StoreAgrees(m1, p, i, d);
        AgreesTwice(m, m1, m2, p, i);
      }
      hide AgreesOff, AllEmpty;
      WalkOutside(m, places, m2, p, i, va);
    }
  }

  lemma AgreesTwice<W>(m: Memory<W>, m1: Memory<W>, m2: Memory<W>, p: nat, i: nat)
    requires AgreesOff(m, m1, p, i) && AgreesOff(m1, m2, p, i)
    ensures AgreesOff(m, m2, p, i)
  {
    forall q: nat, j: nat | HasTable(m, q) && j < ENTRIES ensures WordAgrees(m, m2, p, i, q, j) {
      assert WordAgrees(m, m1, p, i, q, j);
      assert WordAgrees(m1, m2, p, i, q, j);
    }
  }

  /** An empty table hung below an empty entry changes nothing in the view. */
  lemma EmptyTableInvisible<W>(m: Memory<W>, places: map<nat, Place>, p: nat, i: nat, x: nat, ws: seq<W>, d: W)
    requires Insertable(m, places, p, i, x, ws, d)
    ensures Interp(Store(AddPage(m, x, ws), p, i, d)) == Interp(m)
  {
    var m2 := Store(AddPage(m, x, ws), p, i, d);
    forall va: nat | va < MAX_BASE ensures Walk(m2, va) == Walk(m, va) {
      hide *;
      EmptyTableWalk(m, places, p, i, x, ws, d, va);
    }
    hide *;
    SameWalksSameInterp(m, m2);
  }

  /** Memory without table x, whose referring entry now holds z. */
  function CutOff<W>(m: Memory<W>, places: map<nat, Place>, x: nat, z: W): Memory<W>
    requires x in places && HasTable(m, places[x].up) && places[x].idx < ENTRIES
  {
    RemovePage(Store(m, places[x].up, places[x].idx, z), x)
  }

  ghost predicate Removable<W>(m: Memory<W>, places: map<nat, Place>, x: nat, z: W) {
    && Hangs(m, places)
    && x in places
    && x != m.root
    && Hung(m, places, x)
    && IsEmptyTable(m, places[x].layer, x)
    && m.view(places[x].layer - 1, z) == Empty
  }

  lemma CutOffAt<W>(m: Memory<W>, places: map<nat, Place>, x: nat, z: W, layer: nat, q: nat, j: nat)
    requires Removable(m, places, x, z) && HasTable(m, q) && q != x && j < ENTRIES
    ensures CutOff(m, places, x, z).root == m.root && HasTable(CutOff(m, places, x, z), q)
    ensures EntryAt(CutOff(m, places, x, z), layer, q, j)
         == if q == places[x].up && j == places[x].idx then m.view(layer, z) else EntryAt(m, layer, q, j)
  {
    hide Hangs, IsEmptyTable, PlaceOk, SlotBase;
  }

  lemma ParentKept<W>(m: Memory<W>, places: map<nat, Place>, x: nat, z: W, q: nat)
    requires Removable(m, places, x, z) && q in places && q != m.root
    ensures places[q].up != x
  {
    hide EntryAt, Hangs, HasTable, Hung;
    HungFacts(m, places, q);
  }

  lemma RemoveKeepsHung<W>(m: Memory<W>, places: map<nat, Place>, x: nat, z: W, q: nat)
    requires Removable(m, places, x, z) && q in places && q != x
    ensures Hung(CutOff(m, places, x, z), places - {x}, q)
  {
    assert Hangs(m, places);
    hide *;
    HungFacts(m, places, q);
    HungFacts(m, places, x);
    CutOffAt(m, places, x, z, 0, q, 0);
    if q != m.root {
      UpKept(m, places, x, z, q);
    }
    HungStays(m, places, CutOff(m, places, x, z), places - {x}, q);
  }

  lemma UpKept<W>(m: Memory<W>, places: map<nat, Place>, x: nat, z: W, q: nat)
    requires Removable(m, places, x, z) && q in places && q != x && q != m.root
    ensures HasTable(m, places[x].up) && places[x].idx < ENTRIES
    ensures
      var m', up, i := CutOff(m, places, x, z), places[q].up, places[q].idx;
      && up in places && up != x && i < ENTRIES && 0 < places[q].layer && HasTable(m', up) && HasTable(m, up)
      && EntryAt(m', places[q].layer - 1, up, i) == EntryAt(m, places[q].layer - 1, up, i)
  {
    assert Hangs(m, places) && x != m.root;
    hide *;
    HungFacts(m, places, q);
    HungFacts(m, places, x);
    ParentKept(m, places, x, z, q);
    CutOffAt(m, places, x, z, places[q].layer - 1, places[q].up, places[q].idx);
  }

  lemma RemoveKeepsEntries<W>(m: Memory<W>, places: map<nat, Place>, x: nat, z: W, q: nat, j: nat)
    requires Removable(m, places, x, z) && q in places && q != x && j < ENTRIES
    ensures HasTable(CutOff(m, places, x, z), q)
    ensures EntryOk(places - {x}, m.root, q, j, EntryAt(CutOff(m, places, x, z), places[q].layer, q, j))
  {
    hide CutOff, EntryAt, EntrySize, Hangs, HasTable, Hung, IsEmptyTable, SlotBase;
    HungFacts(m, places, q);
    HungFacts(m, places, x);
    EntryFacts(m, places, q, j);
    CutOffAt(m, places, x, z, places[q].layer, q, j);
  }

  /** Cutting off an empty table leaves one tree. */
  lemma RemoveHangs<W>(m: Memory<W>, places: map<nat, Place>, x: nat, z: W)
    requires Removable(m, places, x, z)
    ensures Hangs(CutOff(m, places, x, z), places - {x})
  {
    var m' := CutOff(m, places, x, z);
    var places' := places - {x};
    forall q: nat | q in places' ensures Hung(m', places', q) {
      RemoveKeepsHung(m, places, x, z, q);
    }
    forall q: nat, j: nat | q in places' && j < ENTRIES
      ensures HasTable(m', q) && EntryOk(places', m.root, q, j, EntryAt(m', places'[q].layer, q, j))
    {
      RemoveKeepsEntries(m, places, x, z, q, j);
    }
    assert places'.Keys == m'.pages.Keys && m'.root in places' by {
      assert Hung(m, places, places[x].up);
      hide Hung, EntryOk;
    }
    hide Hung, EntryOk, EntryAt, SlotBase, Store, RemovePage, CutOff;
  }

  /** Cutting off a table is undone by adding it back and writing its entry again. */
  lemma CutOffUndone<W>(m: Memory<W>, places: map<nat, Place>, x: nat, z: W)
    requires Removable(m, places, x, z)
    ensures
      var p, i := places[x].up, places[x].idx;
      var m' := CutOff(m, places, x, z);
      && p != x && p in places && i < ENTRIES && places[p].layer < 3
      && HasTable(m, x) && HasTable(m, p) && HasTable(m', p)
      && x !in m'.pages && AllEmpty(m'.view, places[p].layer + 1, m.pages[x])
      && m'.view(places[p].layer, m.pages[p][i]) == Directory(x, PERMISSIVE)
      && EntryAt(m', places[p].layer, p, i) == Empty
      && AddPage(m', x, m.pages[x]) == Store(m, p, i, z)
      && Store(AddPage(m', x, m.pages[x]), p, i, m.pages[p][i]) == m
  {
    hide Hangs, SlotBase;
    var p, i := places[x].up, places[x].idx;
    var m' := CutOff(m, places, x, z);
    assert p != x by { assert places[x].layer != places[p].layer; }
    assert places[p].layer < 3;
    assert HasTable(m, x) && HasTable(m, p);
    assert HasTable(m', p);
    assert x !in m'.pages;
    assert AllEmpty(m'.view, places[p].layer + 1, m.pages[x]) by {
      forall j: nat | j < ENTRIES ensures m.view(places[x].layer, m.pages[x][j]) == Empty {
        assert EntryAt(m, places[x].layer, x, j) == Empty;
      }
    }
    assert EntryAt(m, places[p].layer, p, i) == Directory(x, PERMISSIVE);
    assert Store(m, p, i, z).pages == AddPage(m', x, m.pages[x]).pages;
    var ws := m.pages[p];
    assert ws[i := z][i := ws[i]] == ws;
    assert Store(AddPage(m', x, m.pages[x]), p, i, ws[i]).pages == m.pages;
  }

  /** Clearing the entry of an empty table, and then freeing the table, changes nothing in the view. */
  lemma RemoveInvisible<W>(m: Memory<W>, places: map<nat, Place>, x: nat, z: W)
    requires Removable(m, places, x, z)
    ensures Interp(Store(m, places[x].up, places[x].idx, z)) == Interp(m)
    ensures Interp(CutOff(m, places, x, z)) == Interp(m)
  {
    var p, i := places[x].up, places[x].idx;
    var m' := CutOff(m, places, x, z);
    var places' := places - {x};
    hide AddPage, AllEmpty, CutOff, EntryAt, Hangs, HasTable, Hung, Insertable, Interp, IsEmptyTable, MappingAt,
         Store, Walk;
    RemoveHangs(m, places, x, z);
    CutOffUndone(m, places, x, z);
    FreshPageInvisible(m', places', x, m.pages[x]);
    EmptyTableInvisible(m', places', p, i, x, m.pages[x], m.pages[p][i]);
  }
}
