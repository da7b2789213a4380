/** The steps that the kernel's page table code may take, seen through the MMU's view of its memory. */
module PageTableSpec {
  import opened Definitions
  import opened Hardware

  predicate StepMapEnd(pt1: PageTableMemory, pt2: PageTableMemory, vaddr: nat, pte: PTE, result: Result<()>) {
    if OverlapsExistingVmem(pt1.interp, vaddr, pte)
    then result.Err? && pt2.interp == pt1.interp
    else result.Ok? && pt2.interp == pt1.interp[vaddr := pte]
  }

  predicate StepUnmapStart(pt1: PageTableMemory, pt2: PageTableMemory, vaddr: nat, result: Result<()>) {
    if vaddr in pt1.interp
    then result.Ok? && pt2.interp == pt1.interp - {vaddr}
    else result.Err? && pt2.interp == pt1.interp
  }

  /** Any write that the MMU cannot see, such as linking in or clearing out an empty directory. */
  predicate StepViewStutter(pt1: PageTableMemory, pt2: PageTableMemory) {
    pt2.interp == pt1.interp
  }
}
