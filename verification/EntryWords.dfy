/** Page table entries as numbers: which word the kernel writes, and what the hardware makes of any word, bit by bit. */
module EntryWords {
  import opened Definitions
  import opened Words
  import opened PageTables
  import opened PageEntries

  // ----- numbers of words put together

  lemma Apart(a: bv64, b: bv64)
    requires a & b == 0
    ensures (a >> 1) & (b >> 1) == 0 && (a | b) >> 1 == (a >> 1) | (b >> 1)
    ensures (a | b) & 1 == 1 <==> a & 1 == 1 || b & 1 == 1
    ensures !(a & 1 == 1 && b & 1 == 1)
  {
  }

  lemma HalfLess(a: bv64)
    requires a != 0
    ensures Val(a >> 1) < Val(a)
  {
    ValStep(a);
    ValPositive(a);
    hide Val;
  }

  lemma ZeroWord(a: bv64)
    ensures Val(0) == 0 && 0 | a == a && a | 0 == a
  {
  }

  /** Words with no bit in common add up. */
  lemma {:induction false} ValOr(a: bv64, b: bv64)
    requires a & b == 0
    ensures Val(a | b) == Val(a) + Val(b)
    decreases Val(a)
  {
    if a == 0 {
      ZeroWord(b);
    } else {
      Apart(a, b);
      ValStep(a);
      ValStep(b);
      ValStep(a | b);
      HalfLess(a);
      hide Val;
      ValOr(a >> 1, b >> 1);
    }
  }

  predicate NoCommonBit(a: bv64, b: bv64) {
    a & b == 0
  }

  lemma ValTogether(a: bv64, b: bv64)
    requires NoCommonBit(a, b)
    ensures Val(WithFlags(a, b)) == Val(a) + Val(b)
  {
    ValOr(a, b);
  }

  lemma DoubledWord(x: bv64)
    requires x & 0x8000_0000_0000_0000 == 0
    ensures Val(x << 1) == 2 * Val(x)
  {
    assert (x << 1) | 0 == x << 1;
    ValCons(x, 0);
  }

  lemma TopBit()
    ensures Val(0x8000_0000_0000_0000) == 0x8000_0000_0000_0000
  {
    var b: bv64 := 0x8000_0000_0000_0000;
    Shr39(b);
    Shr12(b >> 39);
    Shr12((b >> 39) >> 12);
    ShrTwice(b, 39, 12);
    ShrTwice(b, 51, 12);
    OnesAre();
    LowBits(b, 63);
    Split(b, 63);
    Pow2Are();
    Pow2Add(39, 12);
    Pow2Add(51, 12);
    hide Ones, Low, Shr, Pow2;
    assert Val(1) == 1 && Val(0) == 0;
  }

  lemma FlagValues()
    ensures Val(0x1) == 1 && Val(0x2) == 2 && Val(0x4) == 4 && Val(0x8) == 8 && Val(0x10) == 16 && Val(0x80) == 128
  {
    assert Val(0) == 0 && Val(0x1) == 1;
    DoubledWord(0x1);
    DoubledWord(0x2);
    DoubledWord(0x4);
    DoubledWord(0x8);
    DoubledWord(0x10);
    DoubledWord(0x20);
    DoubledWord(0x40);
    hide Val;
  }

  // ----- the word that the kernel writes

  /** Bit by bit: present, writable, user, write-through, cache-disable, page size and execute-disable are at bits
      0, 1, 2, 3, 4, 7 and 63, the address is in between, and nothing else is set. */
  lemma NewEntryBits(layer: nat, a: bv64, isPage: bool, w: bool, s: bool, wt: bool, dc: bool, dx: bool)
    requires a & 0x8000_0000_0000_0fff == 0
    ensures
      var e := NewEntry(layer, a, isPage, w, s, wt, dc, dx);
      && e & 0x1 == 0x1
      && (e & 0x2 == 0x2 <==> w)
      && (e & 0x4 == 0x4 <==> !s)
      && (e & 0x8 == 0x8 <==> wt)
      && (e & 0x10 == 0x10 <==> dc)
      && (e & 0x80 == 0x80 <==> isPage && layer != 3)
      && (e & 0x8000_0000_0000_0000 == 0x8000_0000_0000_0000 <==> dx)
      && e & 0x7fff_ffff_ffff_f000 == a
      && e & 0xf60 == 0
  {
  }

  /** What the hardware's view and the kernel take as flags, in any word. */
  lemma FlagsOfBits(v: bv64)
    ensures FlagsOf(v).isWritable <==> v & 0x2 == 0x2
    ensures FlagsOf(v).isSupervisor <==> v & 0x4 == 0
    ensures FlagsOf(v).disableExecute <==> v & 0x8000_0000_0000_0000 == 0x8000_0000_0000_0000
  {
  }

  function FlagWord(bit: bv64, on: bool): bv64 {
    if on then bit else 0
  }

  /** One more flag. */
  lemma FlagAdds(f: bv64, bit: bv64, on: bool)
    requires NoCommonBit(f, bit)
    ensures Val(WithFlags(f, FlagWord(bit, on))) == Val(f) + if on then Val(bit) else 0
  {
    ZeroWord(f);
    assert NoCommonBit(f, FlagWord(bit, on));
    hide Val, NoCommonBit;
    ValTogether(f, FlagWord(bit, on));
  }

  // The flags in the order in which they are put together.
  function Flags1(ps: bool): bv64 { WithFlags(0x1, FlagWord(0x80, ps)) }
  function Flags2(ps: bool, w: bool): bv64 { WithFlags(Flags1(ps), FlagWord(0x2, w)) }
  function Flags3(ps: bool, w: bool, u: bool): bv64 { WithFlags(Flags2(ps, w), FlagWord(0x4, u)) }

  function Flags4(ps: bool, w: bool, u: bool, wt: bool): bv64 {
    WithFlags(Flags3(ps, w, u), FlagWord(0x8, wt))
  }

  function Flags5(ps: bool, w: bool, u: bool, wt: bool, dc: bool): bv64 {
    WithFlags(Flags4(ps, w, u, wt), FlagWord(0x10, dc))
  }

  lemma FlagsApart(ps: bool, w: bool, u: bool, wt: bool, dc: bool)
    ensures NoCommonBit(0x1, 0x80) && NoCommonBit(Flags1(ps), 0x2) && NoCommonBit(Flags2(ps, w), 0x4)
    ensures NoCommonBit(Flags3(ps, w, u), 0x8) && NoCommonBit(Flags4(ps, w, u, wt), 0x10)
    ensures NoCommonBit(Flags5(ps, w, u, wt, dc), 0x8000_0000_0000_0000)
  {
  }

  lemma FlagBitsAre(layer: nat, isPage: bool, w: bool, s: bool, wt: bool, dc: bool, dx: bool)
    ensures FlagBits(layer, isPage, w, s, wt, dc, dx)
         == WithFlags(Flags5(isPage && layer != 3, w, !s, wt, dc), FlagWord(0x8000_0000_0000_0000, dx))
  {
  }

  lemma FlagBitsValue(layer: nat, isPage: bool, w: bool, s: bool, wt: bool, dc: bool, dx: bool)
    ensures Val(FlagBits(layer, isPage, w, s, wt, dc, dx))
         == 1 + (if w then 2 else 0) + (if s then 0 else 4) + (if wt then 8 else 0) + (if dc then 16 else 0)
              + (if isPage && layer != 3 then 128 else 0) + (if dx then 0x8000_0000_0000_0000 else 0)
  {
    hide FlagBits, FlagWord, NoCommonBit, Val, WithFlags;
    var ps := isPage && layer != 3;
    FlagValues();
    TopBit();
    FlagBitsAre(layer, isPage, w, s, wt, dc, dx);
    FlagsApart(ps, w, !s, wt, dc);
    FlagAdds(0x1, 0x80, ps);
    FlagAdds(Flags1(ps), 0x2, w);
    FlagAdds(Flags2(ps, w), 0x4, !s);
    FlagAdds(Flags3(ps, w, !s), 0x8, wt);
    FlagAdds(Flags4(ps, w, !s, wt), 0x10, dc);
    FlagAdds(Flags5(ps, w, !s, wt, dc), 0x8000_0000_0000_0000, dx);
  }

  /** As a number, an entry that the kernel builds is its address plus one power of two for each flag that is set. */
  lemma NewEntryValue(layer: nat, a: bv64, isPage: bool, w: bool, s: bool, wt: bool, dc: bool, dx: bool)
    requires a & 0x8000_0000_0000_0fff == 0
    ensures Val(NewEntry(layer, a, isPage, w, s, wt, dc, dx))
         == Val(a) + 1 + (if w then 2 else 0) + (if s then 0 else 4) + (if wt then 8 else 0) + (if dc then 16 else 0)
                   + (if isPage && layer != 3 then 128 else 0) + (if dx then 0x8000_0000_0000_0000 else 0)
  {
    var f := FlagBits(layer, isPage, w, s, wt, dc, dx);
    assert a & f == 0;
    assert NewEntry(layer, a, isPage, w, s, wt, dc, dx) == a | f;
    FlagBitsValue(layer, isPage, w, s, wt, dc, dx);
    hide *;
    ValOr(a, f);
  }

  lemma InFieldClear(ones: bv64, offset: bv64, a: bv64)
    requires InField(ones, offset, a)
    ensures a & 0x8000_0000_0000_0fff == 0
  {
  }

  /** The word that maps a frame. */
  lemma PageEntryWord(width: nat, layer: nat, pte: PTE)
    requires WidthOk(width) && 0 < layer < 4
    requires pte.frame.base % EntrySize(layer) == 0 && pte.frame.base < Pow2(width)
    ensures Val(NewPageEntry(layer, pte))
         == pte.frame.base + 1 + (if pte.flags.isWritable then 2 else 0) + (if pte.flags.isSupervisor then 0 else 4)
            + (if layer != 3 then 128 else 0) + (if pte.flags.disableExecute then 0x8000_0000_0000_0000 else 0)
  {
    AddressInField(width, layer, pte.frame.base);
    InFieldClear(Ones(width), PageOffsetBits(layer), FromNat(pte.frame.base));
    hide EntrySize, FromNat, InField, NewEntry, Ones, PageOffsetBits, Pow2, Val, WidthOk;
    NewEntryValue(layer, FromNat(pte.frame.base), true, pte.flags.isWritable, pte.flags.isSupervisor,
                  false, false, pte.flags.disableExecute);
  }

  /** The word that refers to a table: present, writable and open to user code. */
  lemma DirEntryWord(width: nat, layer: nat, address: nat)
    requires WidthOk(width) && layer < 3 && address % PAGE_SIZE == 0 && address < Pow2(width)
    ensures Val(NewDirEntry(layer, address)) == address + 7
  {
    assert EntrySize(3) == PAGE_SIZE;
    AddressInField(width, 3, address);
    InFieldClear(Ones(width), PageOffsetBits(3), FromNat(address));
    hide EntrySize, FromNat, InField, NewEntry, Ones, PageOffsetBits, Pow2, Val, WidthOk;
    NewEntryValue(layer, FromNat(address), false, true, false, false, false, false);
  }

  // ----- what the hardware makes of any word

  /** In numbers: a bit from the physical address width up to bit k - 1 is set. */
  predicate SetAbove(width: nat, k: nat, n: nat) {
    Pow2(width) <= n % Pow2(k)
  }

  /** The address field of an entry whose page has 2^k bytes. */
  function AddressNumber(width: nat, k: nat, n: nat): int {
    n % Pow2(width) - n % Pow2(k)
  }

  function Cleared(v: bv64, o: bv64): bv64 {
    v & !o
  }

  lemma OutsideOf(width: nat, k: nat, v: bv64)
    ensures Bits(v, Outside(Ones(width), Ones(k))) == Cleared(Low(v, k), Ones(width))
  {
    hide Ones;
  }

  lemma BoundedLow(b: bv64, k: nat)
    ensures Val(b) < Pow2(k) <==> Cleared(b, Ones(k)) == 0
  {
    BoundedBits(b, k);
  }

  lemma TopField(width: nat, k: nat, v: bv64)
    ensures Bits(v, Outside(Ones(width), Ones(k))) == 0 <==> !SetAbove(width, k, Val(v))
  {
    hide Bits, Cleared, Outside, Ones, Low, Pow2, Val, Shr;
    OutsideOf(width, k, v);
    Field(v, k);
    BoundedLow(Low(v, k), width);
  }

  lemma ReservedIs(width: nat, v: bv64)
    ensures Bits(v, Reserved51(width)) == 0 <==> !SetAbove(width, 52, Val(v))
    ensures Bits(v, Reserved62(width)) == 0 <==> !SetAbove(width, 63, Val(v))
  {
    OnesAre();
    hide Bits, Outside, Ones, SetAbove, Val;
    TopField(width, 52, v);
    TopField(width, 63, v);
  }

  lemma SmallFields(v: bv64)
    ensures Bits(v, 0x3fff_e000) == 0 <==> !SetAbove(13, 30, Val(v))
    ensures Bits(v, 0x1f_e000) == 0 <==> !SetAbove(13, 21, Val(v))
  {
    OnesLow();
    assert Ones(13) == (Ones(12) << 1) | 1;
    assert Ones(13) == 0x1fff;
    assert Outside(Ones(13), Ones(30)) == 0x3fff_e000 && Outside(Ones(13), Ones(21)) == 0x1f_e000;
    hide Bits, Outside, Ones, SetAbove, Val;
    TopField(13, 30, v);
    TopField(13, 21, v);
  }

  lemma FieldSplit(o: bv64, low: bv64, v: bv64)
    requires Cleared(low, o) == 0
    ensures Bits(v, o) == WithFlags(Bits(v, Above(o, low)), Bits(v, low))
    ensures NoCommonBit(Bits(v, Above(o, low)), Bits(v, low))
  {
  }

  lemma OnesWithin(j: nat, k: nat)
    requires j <= k
    ensures Cleared(Ones(j), Ones(k)) == 0
  {
    OnesContained(j, k);
  }

  lemma LowIsBits(v: bv64, k: nat)
    ensures Low(v, k) == Bits(v, Ones(k))
  {
    hide Ones;
  }

  lemma LowSplit(width: nat, k: nat, v: bv64)
    requires k <= width
    ensures Low(v, width) == WithFlags(Bits(v, AddrMask(width, Ones(k))), Low(v, k))
    ensures NoCommonBit(Bits(v, AddrMask(width, Ones(k))), Low(v, k))
  {
    hide Above, Bits, Cleared, Low, NoCommonBit, Ones, WithFlags;
    OnesWithin(k, width);
    LowIsBits(v, width);
    LowIsBits(v, k);
    FieldSplit(Ones(width), Ones(k), v);
  }

  lemma AddressField(width: nat, k: nat, v: bv64)
    requires k <= width
    ensures Val(Bits(v, AddrMask(width, Ones(k)))) == AddressNumber(width, k, Val(v))
  {
    hide Bits, AddrMask, Above, Ones, Low, NoCommonBit, Pow2, Val, Shr, WithFlags;
    LowSplit(width, k, v);
    Field(v, k);
    Field(v, width);
    ValTogether(Bits(v, AddrMask(width, Ones(k))), Low(v, k));
  }

  /** The hardware's view of a word, in numbers. An entry is empty if bit 0 is clear or a reserved bit is set: those
      from the physical address width to bit 51 (layers 0 and 1) or 62, bit 7 where it cannot mean a page, and the
      address bits below a large page's size. Bit 7 makes a page of an entry of layer 1 or 2. */
  function ViewOf(width: nat, layer: nat, v: bv64): Entry {
    var n := Val(v);
    var large := v & 0x80 == 0x80;
    var flags := Flags(v & 0x2 == 0x2, v & 0x4 == 0, v & 0x8000_0000_0000_0000 == 0x8000_0000_0000_0000);
    if v & 0x1 == 0 || SetAbove(width, if layer < 2 then 52 else 63, n) then Empty
    else if layer == 3 then Page(AddressNat(width, 12, n), flags)
    else if large then
      if layer == 1 && !SetAbove(13, 30, n) then Page(AddressNat(width, 30, n), flags)
      else if layer == 2 && !SetAbove(13, 21, n) then Page(AddressNat(width, 21, n), flags)
      else Empty
    else Directory(AddressNat(width, 12, n), flags)
  }

  function AddressNat(width: nat, k: nat, n: nat): nat {
    if AddressNumber(width, k, n) < 0 then 0 else AddressNumber(width, k, n)
  }

  lemma KindBits(v: bv64)
    ensures Bits(v, FLAG_P) == FLAG_P <==> v & 0x1 != 0
    ensures Bits(v, FLAG_PS) == FLAG_PS <==> v & 0x80 == 0x80
    ensures Bits(v, 0x80) == 0 <==> v & 0x80 != 0x80
  {
  }

  lemma AddressNats(width: nat, v: bv64)
    requires WidthOk(width)
    ensures Val(Bits(v, AddrMask(width, 0xfff))) == AddressNat(width, 12, Val(v))
    ensures Val(Bits(v, AddrMask(width, 0x1f_ffff))) == AddressNat(width, 21, Val(v))
    ensures Val(Bits(v, AddrMask(width, 0x3fff_ffff))) == AddressNat(width, 30, Val(v))
  {
    hide AddrMask, AddressNumber, Bits, Ones, Val;
    OnesLow();
    AddressField(width, 12, v);
    AddressField(width, 21, v);
    AddressField(width, 30, v);
  }

  lemma ViewIs(width: nat, layer: nat, v: bv64)
    requires WidthOk(width) && layer < 4
    ensures View(width, layer, v) == ViewOf(width, layer, v)
  {
    hide AddrMask, AddressNat, AddressNumber, Bits, FlagsOf, Reserved51, Reserved62, SetAbove, Val;
    ReservedIs(width, v);
    SmallFields(v);
    AddressNats(width, v);
    FlagsOfBits(v);
    KindBits(v);
  }
}
