/** The hardware's walk as the manual describes it: four index fields cut out of the address. */
module MmuWalk {
  import opened Definitions
  import opened Words
  import opened PageTables

  // Bits 47:39, 38:30, 29:21 and 20:12 of an address.
  function L0Bits(va: bv64): bv64 { (va & 0xff80_0000_0000) >> 39 }
  function L1Bits(va: bv64): bv64 { (va & 0x7f_c000_0000) >> 30 }
  function L2Bits(va: bv64): bv64 { (va & 0x3fe0_0000) >> 21 }
  function L3Bits(va: bv64): bv64 { (va & 0x1f_f000) >> 12 }

  function ReadEntry<W>(m: Memory<W>, layer: nat, p: nat, i: bv64): Entry {
    if HasTable(m, p) && Val(i) < ENTRIES then EntryAt(m, layer, p, Val(i)) else Empty
  }

  function PageOf(va: bv64, size: nat, addr: nat, w: bool, s: bool, x: bool): Option<PTE>
    requires size > 0
  {
    if Aligned(Val(va), size) then Some(PTE(MemRegion(addr, size), Flags(w, s, x))) else None
  }

  /** The mapping whose first address is `va`: writable if every entry on the path is, supervisor-only or
      not executable if any entry on the path is. */
  function MmuMapping<W>(m: Memory<W>, va: bv64): Option<PTE> {
    match ReadEntry(m, 0, m.root, L0Bits(va))
    case Directory(d1, f0) => BelowLayer0(m, d1, va, f0)
    case Page(_, _) => None
    case Empty => None
  }

  function BelowLayer0<W>(m: Memory<W>, d1: nat, va: bv64, f0: Flags): Option<PTE> {
    match ReadEntry(m, 1, d1, L1Bits(va))
    case Page(a, f1) =>
      PageOf(va, L1_ENTRY_SIZE, a, f0.isWritable && f1.isWritable, f0.isSupervisor || f1.isSupervisor,
             f0.disableExecute || f1.disableExecute)
    case Directory(d2, f1) => BelowLayer1(m, d2, va, f0, f1)
    case Empty => None
  }

  function BelowLayer1<W>(m: Memory<W>, d2: nat, va: bv64, f0: Flags, f1: Flags): Option<PTE> {
    match ReadEntry(m, 2, d2, L2Bits(va))
    case Page(a, f2) =>
      PageOf(va, L2_ENTRY_SIZE, a, f0.isWritable && f1.isWritable && f2.isWritable,
             f0.isSupervisor || f1.isSupervisor || f2.isSupervisor,
             f0.disableExecute || f1.disableExecute || f2.disableExecute)
    case Directory(d3, f2) => BelowLayer2(m, d3, va, f0, f1, f2)
    case Empty => None
  }

  function BelowLayer2<W>(m: Memory<W>, d3: nat, va: bv64, f0: Flags, f1: Flags, f2: Flags): Option<PTE> {
    match ReadEntry(m, 3, d3, L3Bits(va))
    case Page(a, f3) =>
      PageOf(va, L3_ENTRY_SIZE, a, f0.isWritable && f1.isWritable && f2.isWritable && f3.isWritable,
             f0.isSupervisor || f1.isSupervisor || f2.isSupervisor || f3.isSupervisor,
             f0.disableExecute || f1.disableExecute || f2.disableExecute || f3.disableExecute)
    case Directory(_, _) => None
    case Empty => None
  }

  // ----- the index fields are the entries that division selects

  function Nine(b: bv64): bv64 {
    b & 0x1ff
  }

  // Cutting out a field and shifting it down is shifting down and keeping nine bits.

  lemma Field0(va: bv64, shifted: bv64)
    requires shifted == va >> 39
    ensures L0Bits(va) == Nine(shifted)
  {
  }

  lemma Field1(va: bv64, shifted: bv64)
    requires shifted == va >> 30
    ensures L1Bits(va) == Nine(shifted)
  {
  }

  lemma Field2(va: bv64, shifted: bv64)
    requires shifted == va >> 21
    ensures L2Bits(va) == Nine(shifted)
  {
  }

  lemma Field3(va: bv64, shifted: bv64)
    requires shifted == va >> 12
    ensures L3Bits(va) == Nine(shifted)
  {
  }

  lemma LowNine(b: bv64)
    ensures Low(b, 9) == Nine(b)
  {
  }

  lemma IndexField(va: bv64, k: nat)
    ensures Val(Nine(Shr(va, k))) == Val(va) / Pow2(k) % 512
  {
    Pow2Are();
    Field(va, k);
    Field(Shr(va, k), 9);
    LowNine(Shr(va, k));
    hide *;
  }

  lemma SlotIs(va: nat)
    ensures SlotOf(0, va) == va / Pow2(39) % 512
    ensures SlotOf(1, va) == va / Pow2(30) % 512
    ensures SlotOf(2, va) == va / Pow2(21) % 512
    ensures SlotOf(3, va) == va / Pow2(12) % 512
  {
    Pow2Are();
    hide Pow2;
  }

  lemma Index0(va: bv64)
    ensures Val(L0Bits(va)) == SlotOf(0, Val(va))
  {
    hide *;
    Shr39(va);
    Field0(va, Shr(va, 39));
    IndexField(va, 39);
    SlotIs(Val(va));
  }

  lemma Index1(va: bv64)
    ensures Val(L1Bits(va)) == SlotOf(1, Val(va))
  {
    hide *;
    Shr30(va);
    Field1(va, Shr(va, 30));
    IndexField(va, 30);
    SlotIs(Val(va));
  }

  lemma Index2(va: bv64)
    ensures Val(L2Bits(va)) == SlotOf(2, Val(va))
  {
    hide *;
    Shr21(va);
    Field2(va, Shr(va, 21));
    IndexField(va, 21);
    SlotIs(Val(va));
  }

  lemma Index3(va: bv64)
    ensures Val(L3Bits(va)) == SlotOf(3, Val(va))
  {
    hide *;
    Shr12(va);
    Field3(va, Shr(va, 12));
    IndexField(va, 12);
    SlotIs(Val(va));
  }

  lemma ReadAgrees<W>(m: Memory<W>, layer: nat, p: nat, i: bv64, va: nat)
    requires Val(i) == SlotOf(layer, va) && layer < 4
    ensures
      match ReadEntry(m, layer, p, i)
      case Empty => WalkFrom(m, layer, p, va) == Fault
      case Page(a, f) => WalkFrom(m, layer, p, va) == if layer == 0 then Fault else Hit(layer, a, f)
      case Directory(d, f) => WalkFrom(m, layer, p, va) == Through(f, WalkFrom(m, layer + 1, d, va))
  {
  }

  function Through(f: Flags, t: Translation): Translation {
    match t
    case Fault => Fault
    case Hit(l, a, g) => Hit(l, a, Meet(f, g))
  }

  lemma Layer2Agrees<W>(m: Memory<W>, d3: nat, va: bv64, f0: Flags, f1: Flags, f2: Flags)
    ensures BelowLayer2(m, d3, va, f0, f1, f2)
         == MappingAt(Through(f0, Through(f1, Through(f2, WalkFrom(m, 3, d3, Val(va))))), Val(va))
  {
    Index3(va);
    ReadAgrees(m, 3, d3, L3Bits(va), Val(va));
    forall d: nat ensures WalkFrom(m, 4, d, Val(va)) == Fault {
    }
    hide L3Bits, Val, SlotOf, WalkFrom, ReadEntry;
  }

  lemma Layer1Agrees<W>(m: Memory<W>, d2: nat, va: bv64, f0: Flags, f1: Flags)
    ensures BelowLayer1(m, d2, va, f0, f1) == MappingAt(Through(f0, Through(f1, WalkFrom(m, 2, d2, Val(va)))), Val(va))
  {
    Index2(va);
    ReadAgrees(m, 2, d2, L2Bits(va), Val(va));
    hide L2Bits, Val, SlotOf, WalkFrom, ReadEntry, BelowLayer2;
    var e := ReadEntry(m, 2, d2, L2Bits(va));
    if e.Directory? {
      Layer2Agrees(m, e.addr, va, f0, f1, e.flags);
    }
  }

  lemma Layer0Agrees<W>(m: Memory<W>, d1: nat, va: bv64, f0: Flags)
    ensures BelowLayer0(m, d1, va, f0) == MappingAt(Through(f0, WalkFrom(m, 1, d1, Val(va))), Val(va))
  {
    Index1(va);
    ReadAgrees(m, 1, d1, L1Bits(va), Val(va));
    hide L1Bits, Val, SlotOf, WalkFrom, ReadEntry, BelowLayer1;
    var e := ReadEntry(m, 1, d1, L1Bits(va));
    if e.Directory? {
      Layer1Agrees(m, e.addr, va, f0, e.flags);
    }
  }

  /** Walking by index fields finds what walking by division does. */
  lemma MmuAgrees<W>(m: Memory<W>, va: bv64)
    ensures MmuMapping(m, va) == MappingAt(Walk(m, Val(va)), Val(va))
  {
    Index0(va);
    ReadAgrees(m, 0, m.root, L0Bits(va), Val(va));
    hide L0Bits, Val, SlotOf, WalkFrom, ReadEntry, BelowLayer0;
    var e := ReadEntry(m, 0, m.root, L0Bits(va));
    if e.Directory? {
      Layer0Agrees(m, e.addr, va, e.flags);
    }
  }

  /** The map of everything the hardware's walk finds below the end of the translated address space. */
  ghost function InterpMemory<W>(m: Memory<W>): map<nat, PTE> {
    map va: nat | 0 <= va < MAX_BASE && MmuMapping(m, FromNat(va)).Some? :: MmuMapping(m, FromNat(va)).value
  }

  lemma InterpMemoryAgrees<W>(m: Memory<W>)
    ensures InterpMemory(m) == Interp(m)
  {
    hide MmuMapping, Walk;
    Pow2Are();
    Pow2Monotone(48, 64);
    hide Pow2;
    forall va: nat | va < MAX_BASE ensures MmuMapping(m, FromNat(va)) == MappingAt(Walk(m, va), va) {
      ValFromNat(va);
      MmuAgrees(m, FromNat(va));
    }
  }
}
