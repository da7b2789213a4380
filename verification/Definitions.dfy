/** Addresses, regions and page table entries shared by every layer. */
module Definitions {

  const WORD_SIZE: nat := 8
  const PAGE_SIZE: nat := 4096

  // Address space covered by one entry of each layer of the x86-64 page table.
  const L3_ENTRY_SIZE: nat := PAGE_SIZE
  const L2_ENTRY_SIZE: nat := 512 * L3_ENTRY_SIZE
  const L1_ENTRY_SIZE: nat := 512 * L2_ENTRY_SIZE
  const L0_ENTRY_SIZE: nat := 512 * L1_ENTRY_SIZE

  // First virtual address that the page table cannot translate.
  const MAX_BASE: nat := 512 * L0_ENTRY_SIZE

  datatype Option<+T> = None | Some(value: T)

  datatype Result<+T> = Ok(value: T) | Err

  datatype MemRegion = MemRegion(base: nat, size: nat)

  datatype Flags = Flags(isWritable: bool, isSupervisor: bool, disableExecute: bool)

  /** The flags of a directory, which restrict nothing. */
  const PERMISSIVE := Flags(true, false, false)

  datatype PTE = PTE(frame: MemRegion, flags: Flags)

  predicate Aligned(addr: nat, size: nat)
    requires size > 0
  {
    addr % size == 0
  }

  predicate Between(x: int, lo: int, hi: int) {
    lo <= x < hi
  }

  /** Two regions overlap; regions with the same base overlap even when empty. */
  predicate Overlap(r1: MemRegion, r2: MemRegion) {
    if r1.base <= r2.base then
      r1.base == r2.base || r2.base < r1.base + r1.size
    else
      r1.base < r2.base + r2.size
  }

  /** The virtual range that a mapping at `base` covers. */
  function Range(base: nat, pte: PTE): MemRegion {
    MemRegion(base, pte.frame.size)
  }

  predicate OverlapsExistingVmem(mappings: map<nat, PTE>, base: nat, pte: PTE) {
    exists b :: b in mappings && Overlap(Range(base, pte), Range(b, mappings[b]))
  }

  /** The address x is in the region, or is where it is empty. */
  predicate Touches(r: MemRegion, x: nat) {
    r.base <= x < r.base + if r.size == 0 then 1 else r.size
  }

  /** Regions overlap exactly if they have an address in common, an empty one counting as one address. */
  lemma OverlapShares(r1: MemRegion, r2: MemRegion)
    ensures Overlap(r1, r2) <==> exists x: nat :: Touches(r1, x) && Touches(r2, x)
  {
    if Overlap(r1, r2) {
      var x := if r1.base <= r2.base then r2.base else r1.base;
      assert Touches(r1, x) && Touches(r2, x);
    }
  }

  lemma ExistingShares(mappings: map<nat, PTE>, base: nat, pte: PTE)
    ensures OverlapsExistingVmem(mappings, base, pte) <==>
      exists b: nat, x: nat :: b in mappings && Touches(MemRegion(b, mappings[b].frame.size), x)
        && Touches(MemRegion(base, pte.frame.size), x)
  {
    hide Overlap, Touches;
    forall b | b in mappings
      ensures Overlap(Range(base, pte), Range(b, mappings[b])) <==>
        exists x: nat :: Touches(MemRegion(b, mappings[b].frame.size), x) && Touches(Range(base, pte), x)
    {
      OverlapShares(Range(base, pte), Range(b, mappings[b]));
    }
  }

  predicate OverlapsExistingPmem(mappings: map<nat, PTE>, pte: PTE) {
    exists b :: b in mappings && Overlap(pte.frame, mappings[b].frame)
  }

  predicate PageSize(size: nat) {
    size == L3_ENTRY_SIZE || size == L2_ENTRY_SIZE || size == L1_ENTRY_SIZE
  }

  function WordIndex(addr: nat): nat {
    addr / WORD_SIZE
  }
}
