/** The process-level specification: threads that share one flat virtual memory. */
module HighLevel {
  import opened Definitions

  /** `maxPhyAddr` is the largest physical address, 2^w - 1 for a width w of 32 to 52 bits. */
  datatype Constants = Constants(threadNo: nat, physMemSize: nat, maxPhyAddr: nat)

  /** What a thread asked the kernel for; kept between the start and the end of a call. */
  datatype Arguments =
    | Map(vaddr: nat, pte: PTE)
    | Unmap(vaddr: nat, removed: Option<PTE>)
    | Empty

  /** `mem` is indexed by virtual word number. */
  datatype Variables = Variables(
    mem: imap<nat, nat>,
    threads: map<nat, Arguments>,
    mappings: map<nat, PTE>,
    sound: bool)

  datatype LoadResult = LoadUndefined | Value(value: nat)
  datatype StoreResult = StoreUndefined | StoreOk
  datatype RWOp =
    | Store(newValue: nat, stored: StoreResult)
    | Load(isExec: bool, loaded: LoadResult)

  datatype Step =
    | ReadWrite(thread: nat, vaddr: nat, op: RWOp, entry: Option<(nat, PTE)>)
    | MapStart(thread: nat, vaddr: nat, pte: PTE)
    | MapEnd(thread: nat, result: Result<()>)
    | UnmapStart(thread: nat, vaddr: nat)
    | UnmapEnd(thread: nat, result: Result<()>)
    | Stutter

  // ----- memory domain

  predicate EntryCovers(physMemSize: nat, vaddr: nat, base: nat, pte: PTE) {
    && Between(vaddr, base, base + pte.frame.size)
    && WordIndex(pte.frame.base + (vaddr - base)) < physMemSize
  }

  ghost predicate InMemDomain(physMemSize: nat, word: nat, mappings: map<nat, PTE>) {
    exists base :: base in mappings && EntryCovers(physMemSize, word * WORD_SIZE, base, mappings[base])
  }

  ghost function MemDomain(physMemSize: nat, mappings: map<nat, PTE>): iset<nat> {
    iset word: nat | InMemDomain(physMemSize, word, mappings)
  }

  // ----- soundness of requests

  function ArgumentsRange(a: Arguments): MemRegion
    requires !a.Empty?
  {
    match a
    case Map(vaddr, pte) => Range(vaddr, pte)
    case Unmap(vaddr, removed) => MemRegion(vaddr, if removed.Some? then removed.value.frame.size else 0)
  }

  function ArgumentsFrame(a: Arguments): Option<MemRegion> {
    match a
    case Map(_, pte) => Some(pte.frame)
    case Unmap(_, Some(pte)) => Some(pte.frame)
    case _ => None
  }

  predicate OverlapsInflightVmem(threads: map<nat, Arguments>, r: MemRegion) {
    exists t :: t in threads && !threads[t].Empty? && Overlap(ArgumentsRange(threads[t]), r)
  }

  predicate OverlapsInflightPmem(threads: map<nat, Arguments>, pte: PTE) {
    exists t :: t in threads && ArgumentsFrame(threads[t]).Some?
                && Overlap(pte.frame, ArgumentsFrame(threads[t]).value)
  }

  predicate MapSound(mappings: map<nat, PTE>, threads: map<nat, Arguments>, vaddr: nat, pte: PTE) {
    && !OverlapsInflightVmem(threads, Range(vaddr, pte))
    && !OverlapsExistingPmem(mappings, pte)
    && !OverlapsInflightPmem(threads, pte)
  }

  predicate MapEnabled(maxPhyAddr: nat, vaddr: nat, pte: PTE) {
    && PageSize(pte.frame.size)
    && Aligned(vaddr, pte.frame.size)
    && Aligned(pte.frame.base, pte.frame.size)
    && pte.frame.base <= maxPhyAddr
    && vaddr + pte.frame.size < MAX_BASE
  }

  predicate UnmapSound(threads: map<nat, Arguments>, vaddr: nat, size: nat) {
    !OverlapsInflightVmem(threads, MemRegion(vaddr, size))
  }

  predicate UnmapEnabled(vaddr: nat) {
    && vaddr < MAX_BASE
    && (|| Aligned(vaddr, L3_ENTRY_SIZE)
        || Aligned(vaddr, L2_ENTRY_SIZE)
        || Aligned(vaddr, L1_ENTRY_SIZE))
  }

  // ----- steps

  predicate ThreadIdle(c: Constants, s: Variables, thread: nat) {
    thread < c.threadNo && thread in s.threads && s.threads[thread].Empty?
  }

  /** An access through a mapping follows its flags; any other access is undefined and changes nothing. */
  ghost predicate StepReadWrite(c: Constants, s1: Variables, s2: Variables,
                                thread: nat, vaddr: nat, op: RWOp, entry: Option<(nat, PTE)>) {
    var word := WordIndex(vaddr);
    && Aligned(vaddr, WORD_SIZE)
    && ThreadIdle(c, s1, thread)
    && s2 == s1.(mem := s2.mem)
    && match entry {
         case Some((base, pte)) =>
           && base in s1.mappings && s1.mappings[base] == pte
           && Between(vaddr, base, base + pte.frame.size)
           && var allowed := WordIndex(pte.frame.base + (vaddr - base)) < c.physMemSize && !pte.flags.isSupervisor;
              match op {
                case Store(newValue, stored) =>
                  if allowed && pte.flags.isWritable
                  then stored.StoreOk? && s2.mem == s1.mem[word := newValue]
                  else stored.StoreUndefined? && s2.mem == s1.mem
                case Load(isExec, loaded) =>
                  && s2.mem == s1.mem
                  && if allowed && (isExec ==> !pte.flags.disableExecute)
                     then word in s1.mem && loaded == Value(s1.mem[word])
                     else loaded.LoadUndefined?
              }
         case None =>
           && word !in MemDomain(c.physMemSize, s1.mappings)
           && s2.mem == s1.mem
           && (if op.Store? then op.stored.StoreUndefined? else op.loaded.LoadUndefined?)
       }
  }

  predicate StepMapStart(c: Constants, s1: Variables, s2: Variables, thread: nat, vaddr: nat, pte: PTE) {
    && MapEnabled(c.maxPhyAddr, vaddr, pte)
    && ThreadIdle(c, s1, thread)
    && if MapSound(s1.mappings, s1.threads, vaddr, pte)
       then s2.threads == s1.threads[thread := Map(vaddr, pte)]
            && s2.mem == s1.mem && s2.mappings == s1.mappings && s2.sound == s1.sound
       else !s2.sound
  }

  ghost predicate StepMapEnd(c: Constants, s1: Variables, s2: Variables, thread: nat, result: Result<()>) {
    && thread < c.threadNo && thread in s1.threads && s1.threads[thread].Map?
    && s2.sound == s1.sound
    && s2.threads == s1.threads[thread := Empty]
    && var vaddr, pte := s1.threads[thread].vaddr, s1.threads[thread].pte;
       if OverlapsExistingVmem(s1.mappings, vaddr, pte)
       then result.Err? && s2.mappings == s1.mappings && s2.mem == s1.mem
       else
         && result.Ok?
         && s2.mappings == s1.mappings[vaddr := pte]
         && s2.mem.Keys == MemDomain(c.physMemSize, s2.mappings)
         && forall word :: word in s1.mem ==> word in s2.mem && s2.mem[word] == s1.mem[word]
  }

  ghost predicate StepUnmapStart(c: Constants, s1: Variables, s2: Variables, thread: nat, vaddr: nat) {
    var removed := if vaddr in s1.mappings then Some(s1.mappings[vaddr]) else None;
    && UnmapEnabled(vaddr)
    && ThreadIdle(c, s1, thread)
    && if UnmapSound(s1.threads, vaddr, if removed.Some? then removed.value.frame.size else 0)
       then
         && s2.threads == s1.threads[thread := Unmap(vaddr, removed)]
         && s2.sound == s1.sound
         && s2.mappings == s1.mappings - {vaddr}
         && s2.mem.Keys == MemDomain(c.physMemSize, s2.mappings)
         && (removed.None? ==> s2.mem == s1.mem)
         && forall word :: word in s2.mem ==> word in s1.mem && s2.mem[word] == s1.mem[word]
       else !s2.sound
  }

  predicate StepUnmapEnd(c: Constants, s1: Variables, s2: Variables, thread: nat, result: Result<()>) {
    && thread < c.threadNo && thread in s1.threads && s1.threads[thread].Unmap?
    && s2.threads == s1.threads[thread := Empty]
    && s2.sound == s1.sound && s2.mappings == s1.mappings && s2.mem == s1.mem
    && (result.Ok? <==> s1.threads[thread].removed.Some?)
  }

  ghost predicate NextStep(c: Constants, s1: Variables, s2: Variables, step: Step) {
    if s1.sound then
      match step
      case ReadWrite(thread, vaddr, op, entry) => StepReadWrite(c, s1, s2, thread, vaddr, op, entry)
      case MapStart(thread, vaddr, pte) => StepMapStart(c, s1, s2, thread, vaddr, pte)
      case MapEnd(thread, result) => StepMapEnd(c, s1, s2, thread, result)
      case UnmapStart(thread, vaddr) => StepUnmapStart(c, s1, s2, thread, vaddr)
      case UnmapEnd(thread, result) => StepUnmapEnd(c, s1, s2, thread, result)
      case Stutter => s2 == s1
    else
      !s2.sound
  }

  ghost predicate Init(c: Constants, s: Variables) {
    && s.mem == imap[]
    && s.mappings == map[]
    && (forall id: nat :: id < c.threadNo <==> id in s.threads)
    && (forall id :: id in s.threads ==> s.threads[id].Empty?)
    && s.sound
  }

  ghost predicate ValidRun(c: Constants, states: seq<Variables>, steps: seq<Step>) {
    && |states| == |steps| + 1
    && forall i :: 0 <= i < |steps| ==> NextStep(c, states[i], states[i + 1], steps[i])
  }
}
