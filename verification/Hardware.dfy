/** Cores with private TLBs over one word-indexed physical memory and one page table. */
module Hardware {
  import opened Definitions

  datatype Constants = Constants(numaNo: nat, coreNo: nat, physMemSize: nat, maxPhyAddr: nat)

  datatype Core = Core(numa: nat, id: nat)

  /** What the rest of the system sees of the page table memory: the mappings that the MMU
      reads out of it, and the number of pages left for new directories. */
  datatype PageTableMemory = PageTableMemory(interp: map<nat, PTE>, availablePages: nat)

  datatype Variables = Variables(mem: seq<nat>, tlbs: map<Core, map<nat, PTE>>, pt: PageTableMemory)

  datatype LoadResult = LoadPagefault | Value(value: nat)
  datatype StoreResult = StorePagefault | StoreOk
  datatype RWOp =
    | Store(newValue: nat, stored: StoreResult)
    | Load(isExec: bool, loaded: LoadResult)

  datatype Step =
    | ReadWrite(vaddr: nat, paddr: nat, op: RWOp, entry: Option<(nat, PTE)>, core: Core)
    | PTMemOp
    | TLBFill(vaddr: nat, pte: PTE, core: Core)
    | TLBEvict(vaddr: nat, core: Core)

  predicate ValidCore(c: Constants, core: Core) {
    core.numa < c.numaNo && core.id < c.coreNo
  }

  function ValidCores(c: Constants): (cores: set<Core>)
    ensures forall core :: core in cores <==> ValidCore(c, core)
    ensures |cores| == c.numaNo * c.coreNo
  {
    CoresBelow(c, c.numaNo)
  }

  /** The cores of the first `n` NUMA nodes. */
  function CoresBelow(c: Constants, n: nat): (cores: set<Core>)
    ensures forall core :: core in cores <==> core.numa < n && core.id < c.coreNo
    ensures |cores| == n * c.coreNo
  {
    if n == 0 then {} else
      var below, last := CoresBelow(c, n - 1), NodeCores(n - 1, c.coreNo);
      assert below !! last;
      below + last
  }

  function NodeCores(numa: nat, n: nat): (cores: set<Core>)
    ensures forall core :: core in cores <==> core.numa == numa && core.id < n
    ensures |cores| == n
  {
    if n == 0 then {} else NodeCores(numa, n - 1) + {Core(numa, n - 1)}
  }

  ghost predicate Init(c: Constants, s: Variables) {
    && c.numaNo > 0 && c.coreNo > 0
    && |s.mem| == c.physMemSize
    && (forall core :: ValidCore(c, core) <==> core in s.tlbs)
    && (forall core :: core in s.tlbs ==> s.tlbs[core] == map[])
  }

  /** An aligned access by `core` through a cached entry, or a page fault when nothing maps `vaddr`. */
  predicate StepReadWrite(c: Constants, s1: Variables, s2: Variables,
                          vaddr: nat, paddr: nat, op: RWOp, entry: Option<(nat, PTE)>, core: Core) {
    && Aligned(vaddr, WORD_SIZE)
    && ValidCore(c, core) && core in s1.tlbs
    && s2.tlbs == s1.tlbs
    && match entry {
         case Some((base, pte)) =>
           var word := WordIndex(paddr);
           && base in s1.tlbs[core] && s1.tlbs[core][base] == pte
           && Between(vaddr, base, base + pte.frame.size)
           && paddr == pte.frame.base + (vaddr - base)
           && var allowed := word < |s1.mem| && !pte.flags.isSupervisor;
              match op {
                case Store(newValue, stored) =>
                  if allowed && pte.flags.isWritable
                  then stored.StoreOk? && s2.mem == s1.mem[word := newValue]
                  else stored.StorePagefault? && s2.mem == s1.mem
                case Load(isExec, loaded) =>
                  && s2.mem == s1.mem
                  && if allowed && (isExec ==> !pte.flags.disableExecute)
                     then loaded == Value(s1.mem[word])
                     else loaded.LoadPagefault?
              }
         case None =>
           && (forall base :: base in s1.pt.interp ==>
                 !Between(vaddr, base, base + s1.pt.interp[base].frame.size))
           && s2.mem == s1.mem
           && (if op.Store? then op.stored.StorePagefault? else op.loaded.LoadPagefault?)
       }
  }

  predicate StepPTMemOp(c: Constants, s1: Variables, s2: Variables) {
    s2.mem == s1.mem && s2.tlbs == s1.tlbs
  }

  predicate StepTLBFill(c: Constants, s1: Variables, s2: Variables, vaddr: nat, pte: PTE, core: Core) {
    && ValidCore(c, core) && core in s1.tlbs
    && vaddr in s1.pt.interp && s1.pt.interp[vaddr] == pte
    && s2.mem == s1.mem
    && var tlb: map<nat, PTE> := s1.tlbs[core][vaddr := pte];
       s2.tlbs == s1.tlbs[core := tlb]
  }

  predicate StepTLBEvict(c: Constants, s1: Variables, s2: Variables, vaddr: nat, core: Core) {
    && ValidCore(c, core) && core in s1.tlbs
    && vaddr in s1.tlbs[core]
    && s2.mem == s1.mem
    && s2.tlbs == s1.tlbs[core := s1.tlbs[core] - {vaddr}]
  }

  predicate NextStep(c: Constants, s1: Variables, s2: Variables, step: Step) {
    match step
    case ReadWrite(vaddr, paddr, op, entry, core) => StepReadWrite(c, s1, s2, vaddr, paddr, op, entry, core)
    case PTMemOp => StepPTMemOp(c, s1, s2)
    case TLBFill(vaddr, pte, core) => StepTLBFill(c, s1, s2, vaddr, pte, core)
    case TLBEvict(vaddr, core) => StepTLBEvict(c, s1, s2, vaddr, core)
  }
}
