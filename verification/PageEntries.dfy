/** Page table entries as the hardware reads them and as the kernel builds them
    (section 4.5 of the Intel SDM, volume 3A). The physical address width is a parameter. */
module PageEntries {
  import opened Definitions
  import opened Words
  import opened PageTables

  const FLAG_P: bv64 := 0x1
  const FLAG_RW: bv64 := 0x2
  const FLAG_US: bv64 := 0x4
  const FLAG_PWT: bv64 := 0x8
  const FLAG_PCD: bv64 := 0x10
  const FLAG_PS: bv64 := 0x80
  const FLAG_PAT: bv64 := 0x1000
  const FLAG_XD: bv64 := 0x8000_0000_0000_0000

  predicate WidthOk(width: nat) {
    32 <= width <= 52
  }

  /** Bits below the address field of a page entry at `layer`. */
  function PageOffsetBits(layer: nat): bv64 {
    if layer == 1 then 0x3fff_ffff else if layer == 2 then 0x1f_ffff else 0xfff
  }

  function Above(ones: bv64, offset: bv64): bv64 {
    ones & !offset
  }

  function Outside(ones: bv64, top: bv64): bv64 {
    !ones & top
  }

  function AddrMask(width: nat, offset: bv64): bv64 {
    Above(Ones(width), offset)
  }

  /** Bits from the physical address width up to bit 51, or up to bit 62. */
  function Reserved51(width: nat): bv64 {
    Outside(Ones(width), 0xf_ffff_ffff_ffff)
  }

  function Reserved62(width: nat): bv64 {
    Outside(Ones(width), 0x7fff_ffff_ffff_ffff)
  }

  function Bits(v: bv64, mask: bv64): bv64 {
    v & mask
  }

  function WithFlags(address: bv64, flags: bv64): bv64 {
    address | flags
  }

  /** All bits that the hardware reserves in an entry in use are zero. */
  predicate ReservedBitsZero(width: nat, layer: nat, v: bv64) {
    if Bits(v, FLAG_P) != FLAG_P then true
    else if layer == 0 then Bits(v, Reserved51(width)) == 0 && Bits(v, 0x80) == 0
    else if layer == 1 then
      if Bits(v, FLAG_PS) == FLAG_PS then Bits(v, Reserved51(width)) == 0 && Bits(v, 0x3fff_e000) == 0
      else Bits(v, Reserved51(width)) == 0 && Bits(v, 0x80) == 0
    else if layer == 2 then
      if Bits(v, FLAG_PS) == FLAG_PS then Bits(v, Reserved62(width)) == 0 && Bits(v, 0x1f_e000) == 0
      else Bits(v, Reserved62(width)) == 0 && Bits(v, 0x80) == 0
    else Bits(v, Reserved62(width)) == 0
  }

  function FlagsOf(v: bv64): Flags {
    Flags(Bits(v, FLAG_RW) == FLAG_RW, Bits(v, FLAG_US) != FLAG_US, Bits(v, FLAG_XD) == FLAG_XD)
  }

  /** What the hardware reads in word v of a table at `layer`. */
  function View(width: nat, layer: nat, v: bv64): Entry {
    if layer > 3 || Bits(v, FLAG_P) != FLAG_P || !ReservedBitsZero(width, layer, v) then Empty
    else if layer == 3 || (0 < layer && Bits(v, FLAG_PS) == FLAG_PS) then
      Page(Val(Bits(v, AddrMask(width, PageOffsetBits(layer)))), FlagsOf(v))
    else Directory(Val(Bits(v, AddrMask(width, 0xfff))), FlagsOf(v))
  }

  // ----- how the kernel builds and reads entries

  function FlagBits(layer: nat, isPage: bool, isWritable: bool, isSupervisor: bool,
                    isWritethrough: bool, disableCache: bool, disableExecute: bool): bv64 {
    FLAG_P
    | (if isPage && layer != 3 then FLAG_PS else 0)
    | (if isWritable then FLAG_RW else 0)
    | (if isSupervisor then 0 else FLAG_US)
    | (if isWritethrough then FLAG_PWT else 0)
    | (if disableCache then FLAG_PCD else 0)
    | (if disableExecute then FLAG_XD else 0)
  }

  function NewEntry(layer: nat, address: bv64, isPage: bool, isWritable: bool, isSupervisor: bool,
                    isWritethrough: bool, disableCache: bool, disableExecute: bool): bv64 {
    WithFlags(address, FlagBits(layer, isPage, isWritable, isSupervisor, isWritethrough, disableCache, disableExecute))
  }

  function NewPageEntry(layer: nat, pte: PTE): bv64 {
    NewEntry(layer, FromNat(pte.frame.base), true, pte.flags.isWritable, pte.flags.isSupervisor,
             false, false, pte.flags.disableExecute)
  }

  function NewDirEntry(layer: nat, address: nat): bv64 {
    NewEntry(layer, FromNat(address), false, true, false, false, false, false)
  }

  predicate IsMapping(v: bv64) {
    Bits(v, FLAG_P) == FLAG_P
  }

  predicate IsPage(v: bv64, layer: nat) {
    if layer == 3 then true else if layer == 0 then false else Bits(v, FLAG_PS) == FLAG_PS
  }

  function Address(width: nat, v: bv64): nat {
    Val(Bits(v, AddrMask(width, 0xfff)))
  }

  /** The bit that large pages use for PAT is part of the mask that `Address` applies to every entry. */
  predicate LargePagePatZero(layer: nat, v: bv64) {
    layer == 1 || layer == 2 ==> Bits(v, FLAG_P) == FLAG_P && Bits(v, FLAG_PS) == FLAG_PS ==> Bits(v, FLAG_PAT) == 0
  }

  predicate WellBuilt(width: nat, layer: nat, v: bv64) {
    ReservedBitsZero(width, layer, v) && LargePagePatZero(layer, v)
  }

  // ----- building an entry and reading it back

  lemma FlagBitsFields(layer: nat, isPage: bool, w: bool, s: bool, wt: bool, dc: bool, dx: bool)
    ensures
      var f := FlagBits(layer, isPage, w, s, wt, dc, dx);
      && Bits(f, FLAG_P) == FLAG_P
      && Bits(f, FLAG_PS) == (if isPage && layer != 3 then FLAG_PS else 0)
      && Bits(f, FLAG_RW) == (if w then FLAG_RW else 0)
      && Bits(f, FLAG_US) == (if s then 0 else FLAG_US)
      && Bits(f, FLAG_PWT) == (if wt then FLAG_PWT else 0)
      && Bits(f, FLAG_PCD) == (if dc then FLAG_PCD else 0)
      && Bits(f, FLAG_XD) == (if dx then FLAG_XD else 0)
      && Bits(f, !FLAG_MASK) == 0
  {
  }

  lemma WidthBits(width: nat)
    requires WidthOk(width)
    ensures Ones(width) & 0xfff0_0000_0000_0000 == 0 && Ones(width) & 0xffff_ffff == 0xffff_ffff
  {
    OnesContained(width, 52);
    OnesContained(32, width);
    OnesAre();
    hide *;
    assert Ones(width) & !0xf_ffff_ffff_ffff == 0;
  }

  const FLAG_MASK: bv64 := 0x8000_0000_0000_009f

  /** The word `a` fits the address field above `offset`. */
  predicate InField(ones: bv64, offset: bv64, a: bv64) {
    && ones & 0xfff0_0000_0000_0000 == 0
    && ones & 0xffff_ffff == 0xffff_ffff
    && (offset == 0xfff || offset == 0x1f_ffff || offset == 0x3fff_ffff)
    && a & offset == 0
    && a & !ones == 0
  }

  lemma OffsetField(ones: bv64, offset: bv64, a: bv64)
    requires InField(ones, offset, a)
    ensures InField(ones, 0xfff, a) && Bits(a, FLAG_XD) == 0
  {
  }

  lemma AddressField(width: nat, offset: bv64, a: bv64, f: bv64)
    requires WidthOk(width) && InField(Ones(width), offset, a) && Bits(f, !FLAG_MASK) == 0
    ensures Bits(WithFlags(a, f), AddrMask(width, offset)) == a
  {
  }

  lemma ReservedFields(width: nat, a: bv64, f: bv64)
    requires WidthOk(width) && InField(Ones(width), 0xfff, a) && Bits(f, !FLAG_MASK) == 0
    ensures Bits(WithFlags(a, f), Reserved62(width)) == 0
    ensures Bits(WithFlags(a, f), Reserved51(width)) == 0
  {
  }

  /** The fields of an entry built from address `a`, for entries of size `offset` + 1. */
  ghost predicate Fields(width: nat, offset: bv64, a: bv64, f: bv64, e: bv64) {
    && Bits(e, AddrMask(width, offset)) == a
    && Bits(e, AddrMask(width, 0xfff)) == a
    && Bits(e, Reserved62(width)) == 0
    && Bits(e, Reserved51(width)) == 0
    && Bits(e, FLAG_P) == Bits(f, FLAG_P)
    && Bits(e, FLAG_PS) == Bits(f, FLAG_PS)
    && Bits(e, FLAG_RW) == Bits(f, FLAG_RW)
    && Bits(e, FLAG_US) == Bits(f, FLAG_US)
    && Bits(e, FLAG_PWT) == Bits(f, FLAG_PWT)
    && Bits(e, FLAG_PCD) == Bits(f, FLAG_PCD)
    && Bits(e, FLAG_XD) == Bits(f, FLAG_XD)
    && (offset == 0x1f_ffff ==> Bits(e, 0x1f_e000) == 0 && Bits(e, FLAG_PAT) == 0)
    && (offset == 0x3fff_ffff ==> Bits(e, 0x3fff_e000) == 0 && Bits(e, FLAG_PAT) == 0)
  }

  lemma FlagFields(a: bv64, f: bv64)
    requires a & 0xfff == 0 && Bits(a, FLAG_XD) == 0
    ensures
      var e := WithFlags(a, f);
      && Bits(e, FLAG_P) == Bits(f, FLAG_P)
      && Bits(e, FLAG_PS) == Bits(f, FLAG_PS)
      && Bits(e, FLAG_RW) == Bits(f, FLAG_RW)
      && Bits(e, FLAG_US) == Bits(f, FLAG_US)
      && Bits(e, FLAG_PWT) == Bits(f, FLAG_PWT)
      && Bits(e, FLAG_PCD) == Bits(f, FLAG_PCD)
      && Bits(e, FLAG_XD) == Bits(f, FLAG_XD)
  {
  }

  lemma LargeFields(offset: bv64, a: bv64, f: bv64)
    requires a & offset == 0 && Bits(f, !FLAG_MASK) == 0
    ensures offset == 0x1f_ffff ==> Bits(WithFlags(a, f), 0x1f_e000) == 0 && Bits(WithFlags(a, f), FLAG_PAT) == 0
    ensures offset == 0x3fff_ffff ==> Bits(WithFlags(a, f), 0x3fff_e000) == 0 && Bits(WithFlags(a, f), FLAG_PAT) == 0
  {
  }

  lemma EntryFields(width: nat, offset: bv64, a: bv64, f: bv64)
    requires WidthOk(width) && InField(Ones(width), offset, a) && Bits(f, !FLAG_MASK) == 0
    ensures Fields(width, offset, a, f, WithFlags(a, f))
  {
    hide AddrMask, Bits, InField, Ones, Reserved51, Reserved62, WidthOk, WithFlags;
    OffsetField(Ones(width), offset, a);
    AddressField(width, offset, a, f);
    AddressField(width, 0xfff, a, f);
    ReservedFields(width, a, f);
    FieldOffset(Ones(width), offset, a);
    FlagFields(a, f);
    LargeFields(offset, a, f);
  }

  lemma FieldOffset(ones: bv64, offset: bv64, a: bv64)
    requires InField(ones, offset, a)
    ensures a & offset == 0 && a & 0xfff == 0
    ensures offset == 0xfff || offset == 0x1f_ffff || offset == 0x3fff_ffff
  {
  }

  lemma FlagsSet()
    ensures FLAG_P != 0 && FLAG_RW != 0 && FLAG_US != 0 && FLAG_PWT != 0 && FLAG_PCD != 0 && FLAG_XD != 0 &&
      FLAG_PAT != 0
    ensures FLAG_PS == 0x80
  {
  }

  /** Every entry that the kernel builds reads back as the same kind, address and flags,
      and none of the bits that the hardware reserves is set in it. */
  lemma BuildAndRead(width: nat, layer: nat, a: bv64, isPage: bool, w: bool, s: bool, wt: bool, dc: bool, dx: bool)
    requires WidthOk(width) && layer < 4 && if isPage then 0 < layer else layer < 3
    requires InField(Ones(width), if isPage then PageOffsetBits(layer) else 0xfff, a)
    ensures
      var e := NewEntry(layer, a, isPage, w, s, wt, dc, dx);
      && View(width, layer, e) == (if isPage then Page(Val(a), Flags(w, s, dx)) else Directory(Val(a), Flags(w, s, dx)))
      && (Bits(e, FLAG_PWT) == FLAG_PWT <==> wt)
      && (Bits(e, FLAG_PCD) == FLAG_PCD <==> dc)
      && WellBuilt(width, layer, e)
      && Bits(e, Reserved51(width)) == 0
  {
    hide AddrMask, Bits, FlagBits, FlagsOf, InField, Ones, PageOffsetBits, Reserved51, Reserved62, Val, View,
         WellBuilt, WidthOk, WithFlags;
    var offset := if isPage then PageOffsetBits(layer) else 0xfff;
    var f := FlagBits(layer, isPage, w, s, wt, dc, dx);
    FlagBitsFields(layer, isPage, w, s, wt, dc, dx);
    EntryFields(width, offset, a, f);
    var e := WithFlags(a, f);
    assert e == NewEntry(layer, a, isPage, w, s, wt, dc, dx);
    FlagsSet();
    FieldsFlags(width, offset, a, f, e, w, s, wt, dc, dx);
    FieldsReserved(width, layer, offset, a, f, e, isPage);
    FieldsView(width, layer, offset, a, f, e, isPage);
  }

  lemma FieldsFlags(width: nat, offset: bv64, a: bv64, f: bv64, e: bv64, w: bool, s: bool, wt: bool, dc: bool, dx: bool)
    requires Fields(width, offset, a, f, e)
    requires Bits(f, FLAG_RW) == (if w then FLAG_RW else 0) && Bits(f, FLAG_US) == (if s then 0 else FLAG_US)
    requires Bits(f, FLAG_XD) == (if dx then FLAG_XD else 0)
    requires Bits(f, FLAG_PWT) == (if wt then FLAG_PWT else 0) && Bits(f, FLAG_PCD) == (if dc then FLAG_PCD else 0)
    ensures FlagsOf(e) == Flags(w, s, dx)
    ensures Bits(e, FLAG_PWT) == FLAG_PWT <==> wt
    ensures Bits(e, FLAG_PCD) == FLAG_PCD <==> dc
  {
  }

  lemma FieldsReserved(width: nat, layer: nat, offset: bv64, a: bv64, f: bv64, e: bv64, isPage: bool)
    requires Fields(width, offset, a, f, e) && layer < 4 && if isPage then 0 < layer else layer < 3
    requires offset == if isPage then PageOffsetBits(layer) else 0xfff
    requires Bits(f, FLAG_PS) == (if isPage && layer != 3 then FLAG_PS else 0)
    ensures WellBuilt(width, layer, e)
  {
  }

  lemma FieldsView(width: nat, layer: nat, offset: bv64, a: bv64, f: bv64, e: bv64, isPage: bool)
    requires Fields(width, offset, a, f, e) && layer < 4 && if isPage then 0 < layer else layer < 3
    requires offset == if isPage then PageOffsetBits(layer) else 0xfff
    requires Bits(f, FLAG_P) == FLAG_P && Bits(f, FLAG_PS) == (if isPage && layer != 3 then FLAG_PS else 0)
    requires WellBuilt(width, layer, e)
    ensures View(width, layer, e) == if isPage then Page(Val(a), FlagsOf(e)) else Directory(Val(a), FlagsOf(e))
  {
  }

  // ----- addresses as numbers

  /** The page offset bits of a layer are those below its entry size. */
  lemma OffsetBits(layer: nat)
    requires 0 < layer < 4
    ensures
      var k := if layer == 1 then 30 else if layer == 2 then 21 else 12;
      PageOffsetBits(layer) == Ones(k) && EntrySize(layer) == Pow2(k)
  {
    OnesLow();
    Pow2Are();
    hide Ones, Pow2;
  }

  lemma AddressInField(width: nat, layer: nat, addr: nat)
    requires WidthOk(width) && 0 < layer < 4 && addr % EntrySize(layer) == 0 && addr < Pow2(width)
    ensures InField(Ones(width), PageOffsetBits(layer), FromNat(addr))
    ensures Val(FromNat(addr)) == addr
  {
    OffsetIs(layer);
    hide EntrySize, FromNat, InField, Ones, PageOffsetBits, Pow2, Val;
    Pow2Monotone(width, 64);
    ValFromNat(addr);
    BoundedBits(FromNat(addr), width);
    WidthBits(width);
    AlignedAddress(layer, addr);
    FieldFrom(Ones(width), PageOffsetBits(layer), FromNat(addr));
  }

  lemma OffsetIs(layer: nat)
    ensures PageOffsetBits(layer) == 0xfff || PageOffsetBits(layer) == 0x1f_ffff || PageOffsetBits(layer) == 0x3fff_ffff
  {
  }

  lemma AlignedAddress(layer: nat, addr: nat)
    requires 0 < layer < 4 && addr % EntrySize(layer) == 0 && Val(FromNat(addr)) == addr
    ensures FromNat(addr) & PageOffsetBits(layer) == 0
  {
    hide *;
    OffsetBits(layer);
    var k := if layer == 1 then 30 else if layer == 2 then 21 else 12;
    AlignedBits(FromNat(addr), k);
  }

  lemma FieldFrom(ones: bv64, offset: bv64, a: bv64)
    requires ones & 0xfff0_0000_0000_0000 == 0 && ones & 0xffff_ffff == 0xffff_ffff
    requires offset == 0xfff || offset == 0x1f_ffff || offset == 0x3fff_ffff
    requires a & offset == 0 && a & !ones == 0
    ensures InField(ones, offset, a)
  {
  }

  /** A page entry for a frame aligned to its size, within the physical address width, reads back exactly. */
  lemma PageEntryReadsBack(width: nat, layer: nat, pte: PTE)
    requires WidthOk(width) && 0 < layer < 4
    requires pte.frame.base % EntrySize(layer) == 0 && pte.frame.base < Pow2(width)
    ensures WellBuilt(width, layer, NewPageEntry(layer, pte))
    ensures View(width, layer, NewPageEntry(layer, pte)) == Page(pte.frame.base, pte.flags)
  {
    AddressInField(width, layer, pte.frame.base);
    hide Bits, EntrySize, FromNat, InField, NewEntry, Ones, PageOffsetBits, Pow2, Reserved51, Val, View,
         WellBuilt, WidthOk;
    BuildAndRead(width, layer, FromNat(pte.frame.base), true, pte.flags.isWritable, pte.flags.isSupervisor,
                 false, false, pte.flags.disableExecute);
  }

  /** A directory entry for a page within the physical address width reads back, with unrestricted flags. */
  lemma DirEntryReadsBack(width: nat, layer: nat, address: nat)
    requires WidthOk(width) && layer < 3 && address % PAGE_SIZE == 0 && address < Pow2(width)
    ensures WellBuilt(width, layer, NewDirEntry(layer, address))
    ensures View(width, layer, NewDirEntry(layer, address)) == Directory(address, PERMISSIVE)
  {
    assert EntrySize(3) == PAGE_SIZE && PageOffsetBits(3) == 0xfff;
    hide Bits, EntrySize, FromNat, InField, NewEntry, Ones, PageOffsetBits, Pow2, Reserved51, Val, View,
         WellBuilt, WidthOk;
    AddressInField(width, 3, address);
    BuildAndRead(width, layer, FromNat(address), false, true, false, false, false, false);
  }

  /** A zero word is an unused entry at every layer. */
  lemma ZeroIsEmpty(width: nat, layer: nat)
    ensures View(width, layer, 0) == Empty && WellBuilt(width, layer, 0)
  {
  }

  // ----- the kernel's reading of well-built entries

  /** On well-built entries, testing single bits and applying one mask agrees with the hardware's reading. */
  lemma KernelReads(width: nat, layer: nat, v: bv64)
    requires layer < 4 && WellBuilt(width, layer, v)
    ensures IsMapping(v) <==> View(width, layer, v) != Empty
    ensures IsMapping(v) ==> (IsPage(v, layer) <==> View(width, layer, v).Page?)
    ensures IsMapping(v) ==>
      Address(width, v) == View(width, layer, v).addr && FlagsOf(v) == View(width, layer, v).flags
  {
  }
}
