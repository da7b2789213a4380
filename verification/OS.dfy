/** The operating system: cores that run threads, share the page table under one kernel lock,
    and shoot down each other's TLBs when they unmap. */
module OS {
  import opened Definitions
  import Hardware
  import HighLevel
  import PT = PageTableSpec

  type Core = Hardware.Core

  /** `threadCore` assigns every user-level thread below `threadNo` to a core. */
  datatype Constants = Constants(hw: Hardware.Constants, threadCore: map<nat, Core>, threadNo: nat)

  datatype CoreState =
    | Idle
    | MapWaiting(thread: nat, vaddr: nat, pte: PTE)
    | MapExecuting(thread: nat, vaddr: nat, pte: PTE)
    | UnmapWaiting(thread: nat, vaddr: nat)
    | UnmapOpExecuting(thread: nat, vaddr: nat, result: Result<PTE>)
    | UnmapOpDone(thread: nat, vaddr: nat, result: Result<PTE>)
    | UnmapShootdownWaiting(thread: nat, vaddr: nat, result: Result<PTE>)
  {
    predicate HoldsLock() {
      !Idle? && !MapWaiting? && !UnmapWaiting?
    }

    predicate Mapping() {
      MapWaiting? || MapExecuting?
    }

    /** The unmap already took its entry, if any, out of the page table. */
    predicate Removed() {
      UnmapOpExecuting? || UnmapOpDone? || UnmapShootdownWaiting?
    }

    predicate Unmapping() {
      UnmapWaiting? || Removed()
    }
  }

  datatype Shootdown = Shootdown(vaddr: nat, openRequests: set<Core>)

  /** `sound` records whether every request so far kept clear of the others in flight. */
  datatype Variables = Variables(
    hw: Hardware.Variables,
    cores: map<Core, CoreState>,
    shootdown: Shootdown,
    sound: bool)
  {
    function Pt(): map<nat, PTE> { hw.pt.interp }
  }

  datatype Step =
    | HW(thread: nat, hwStep: Hardware.Step)
    | MapStart(thread: nat, vaddr: nat, pte: PTE)
    | MapOpStart(core: Core)
    | MapEnd(core: Core, result: Result<()>)
    | UnmapStart(thread: nat, vaddr: nat)
    | UnmapOpStart(core: Core, result: Result<()>)
    | UnmapOpEnd(core: Core)
    | UnmapInitiateShootdown(core: Core)
    | AckShootdownIPI(core: Core)
    | UnmapEnd(core: Core)
    | ViewStutter(core: Core)

  // ----- what an operation in flight claims

  function ClaimedRange(st: CoreState, pt: map<nat, PTE>): MemRegion
    requires !st.Idle?
  {
    match st
    case MapWaiting(_, vaddr, pte) => Range(vaddr, pte)
    case MapExecuting(_, vaddr, pte) => Range(vaddr, pte)
    case UnmapWaiting(_, vaddr) => MemRegion(vaddr, if vaddr in pt then pt[vaddr].frame.size else 0)
    case UnmapOpExecuting(_, vaddr, result) => ResultRange(vaddr, result)
    case UnmapOpDone(_, vaddr, result) => ResultRange(vaddr, result)
    case UnmapShootdownWaiting(_, vaddr, result) => ResultRange(vaddr, result)
  }

  function ResultRange(vaddr: nat, result: Result<PTE>): MemRegion {
    MemRegion(vaddr, if result.Ok? then result.value.frame.size else 0)
  }

  function ClaimedFrame(st: CoreState, pt: map<nat, PTE>): Option<MemRegion> {
    match st
    case Idle => None
    case MapWaiting(_, _, pte) => Some(pte.frame)
    case MapExecuting(_, _, pte) => Some(pte.frame)
    case UnmapWaiting(_, vaddr) => if vaddr in pt then Some(pt[vaddr].frame) else None
    case _ => if st.result.Ok? then Some(st.result.value.frame) else None
  }

  predicate OverlapsInflightVmem(pt: map<nat, PTE>, cores: map<Core, CoreState>, r: MemRegion) {
    exists core :: core in cores && !cores[core].Idle? && Overlap(ClaimedRange(cores[core], pt), r)
  }

  predicate OverlapsInflightPmem(pt: map<nat, PTE>, cores: map<Core, CoreState>, pte: PTE) {
    exists core :: core in cores && ClaimedFrame(cores[core], pt).Some?
                   && Overlap(pte.frame, ClaimedFrame(cores[core], pt).value)
  }

  predicate MapSound(s: Variables, vaddr: nat, pte: PTE) {
    && !OverlapsExistingPmem(s.Pt(), pte)
    && !OverlapsInflightPmem(s.Pt(), s.cores, pte)
    && !OverlapsInflightVmem(s.Pt(), s.cores, Range(vaddr, pte))
  }

  predicate UnmapSound(s: Variables, vaddr: nat) {
    !OverlapsInflightVmem(s.Pt(), s.cores,
                          MemRegion(vaddr, if vaddr in s.Pt() then s.Pt()[vaddr].frame.size else 0))
  }

  predicate LockFree(c: Constants, s: Variables) {
    forall core :: core in s.cores && Hardware.ValidCore(c.hw, core) ==> !s.cores[core].HoldsLock()
  }

  predicate ThreadOnIdleCore(c: Constants, s: Variables, thread: nat) {
    && thread < c.threadNo && thread in c.threadCore
    && c.threadCore[thread] in s.cores
    && s.cores[c.threadCore[thread]].Idle?
  }

  predicate CoreIn(c: Constants, s: Variables, core: Core) {
    Hardware.ValidCore(c.hw, core) && core in s.cores
  }

  // ----- steps

  predicate StepHW(c: Constants, s1: Variables, s2: Variables, thread: nat, step: Hardware.Step) {
    && thread < c.threadNo
    && (ThreadOnIdleCore(c, s1, thread) || step.TLBFill? || step.TLBEvict?)
    && !step.PTMemOp?
    && Hardware.NextStep(c.hw, s1.hw, s2.hw, step)
    && s2.hw.pt == s1.hw.pt
    && s2 == s1.(hw := s2.hw)
  }

  /** The request starts to wait for the kernel lock; an overlapping request ends soundness. */
  predicate StepMapStart(c: Constants, s1: Variables, s2: Variables, thread: nat, vaddr: nat, pte: PTE) {
    && ThreadOnIdleCore(c, s1, thread)
    && HighLevel.MapEnabled(c.hw.maxPhyAddr, vaddr, pte)
    && s1.hw.pt.availablePages >= 3
    && s2 == s1.(cores := s1.cores[c.threadCore[thread] := MapWaiting(thread, vaddr, pte)],
                 sound := s1.sound && MapSound(s1, vaddr, pte))
  }

  predicate StepMapOpStart(c: Constants, s1: Variables, s2: Variables, core: Core) {
    && CoreIn(c, s1, core) && s1.cores[core].MapWaiting?
    && LockFree(c, s1)
    && var st := s1.cores[core];
       s2 == s1.(cores := s1.cores[core := MapExecuting(st.thread, st.vaddr, st.pte)])
  }

  predicate StepMapEnd(c: Constants, s1: Variables, s2: Variables, core: Core, result: Result<()>) {
    && CoreIn(c, s1, core) && s1.cores[core].MapExecuting?
    && PT.StepMapEnd(s1.hw.pt, s2.hw.pt, s1.cores[core].vaddr, s1.cores[core].pte, result)
    && s2 == s1.(hw := s1.hw.(pt := s2.hw.pt), cores := s1.cores[core := Idle])
  }

  predicate StepUnmapStart(c: Constants, s1: Variables, s2: Variables, thread: nat, vaddr: nat) {
    && ThreadOnIdleCore(c, s1, thread)
    && HighLevel.UnmapEnabled(vaddr)
    && s2 == s1.(cores := s1.cores[c.threadCore[thread] := UnmapWaiting(thread, vaddr)],
                 sound := s1.sound && UnmapSound(s1, vaddr))
  }

  predicate StepUnmapOpStart(c: Constants, s1: Variables, s2: Variables, core: Core, result: Result<()>) {
    && CoreIn(c, s1, core) && s1.cores[core].UnmapWaiting?
    && LockFree(c, s1)
    && var st := s1.cores[core];
       && PT.StepUnmapStart(s1.hw.pt, s2.hw.pt, st.vaddr, result)
       && var removed := if st.vaddr in s1.Pt() then Ok(s1.Pt()[st.vaddr]) else Err;
          s2 == s1.(hw := s1.hw.(pt := s2.hw.pt),
                    cores := s1.cores[core := UnmapOpExecuting(st.thread, st.vaddr, removed)])
  }

  predicate StepUnmapOpEnd(c: Constants, s1: Variables, s2: Variables, core: Core) {
    && CoreIn(c, s1, core) && s1.cores[core].UnmapOpExecuting?
    && var st := s1.cores[core];
       s2 == s1.(cores := s1.cores[core := UnmapOpDone(st.thread, st.vaddr, st.result)])
  }

  predicate StepUnmapInitiateShootdown(c: Constants, s1: Variables, s2: Variables, core: Core) {
    && CoreIn(c, s1, core) && s1.cores[core].UnmapOpDone? && s1.cores[core].result.Ok?
    && var st := s1.cores[core];
       s2 == s1.(cores := s1.cores[core := UnmapShootdownWaiting(st.thread, st.vaddr, st.result)],
                 shootdown := Shootdown(st.vaddr, Hardware.ValidCores(c.hw)))
  }

  /** `core` acknowledges once neither its TLB nor the page table has the address any more. */
  predicate StepAckShootdownIPI(c: Constants, s1: Variables, s2: Variables, core: Core) {
    && core in s1.shootdown.openRequests
    && (core in s1.hw.tlbs ==> s1.shootdown.vaddr !in s1.hw.tlbs[core])
    && s1.shootdown.vaddr !in s1.Pt()
    && s2 == s1.(shootdown := s1.shootdown.(openRequests := s1.shootdown.openRequests - {core}))
  }

  predicate StepUnmapEnd(c: Constants, s1: Variables, s2: Variables, core: Core) {
    && CoreIn(c, s1, core)
    && (|| (s1.cores[core].UnmapShootdownWaiting? && s1.shootdown.openRequests == {})
        || (s1.cores[core].UnmapOpDone? && s1.cores[core].result.Err?))
    && s2 == s1.(cores := s1.cores[core := Idle])
  }

  predicate StepViewStutter(c: Constants, s1: Variables, s2: Variables, core: Core) {
    && CoreIn(c, s1, core) && (s1.cores[core].UnmapOpExecuting? || s1.cores[core].MapExecuting?)
    && PT.StepViewStutter(s1.hw.pt, s2.hw.pt)
    && s2 == s1.(hw := s1.hw.(pt := s2.hw.pt))
  }

  predicate NextStep(c: Constants, s1: Variables, s2: Variables, step: Step) {
    match step
    case HW(thread, hwStep) => StepHW(c, s1, s2, thread, hwStep)
    case MapStart(thread, vaddr, pte) => StepMapStart(c, s1, s2, thread, vaddr, pte)
    case MapOpStart(core) => StepMapOpStart(c, s1, s2, core)
    case MapEnd(core, result) => StepMapEnd(c, s1, s2, core, result)
    case UnmapStart(thread, vaddr) => StepUnmapStart(c, s1, s2, thread, vaddr)
    case UnmapOpStart(core, result) => StepUnmapOpStart(c, s1, s2, core, result)
    case UnmapOpEnd(core) => StepUnmapOpEnd(c, s1, s2, core)
    case UnmapInitiateShootdown(core) => StepUnmapInitiateShootdown(c, s1, s2, core)
    case AckShootdownIPI(core) => StepAckShootdownIPI(c, s1, s2, core)
    case UnmapEnd(core) => StepUnmapEnd(c, s1, s2, core)
    case ViewStutter(core) => StepViewStutter(c, s1, s2, core)
  }

  ghost predicate ConstantsValid(c: Constants) {
    && (forall id: nat :: id < c.threadNo <==> id in c.threadCore)
    && (forall id :: id in c.threadCore ==> Hardware.ValidCore(c.hw, c.threadCore[id]))
  }

  ghost predicate Init(c: Constants, s: Variables) {
    && ConstantsValid(c)
    && s.Pt() == map[]
    && Hardware.Init(c.hw, s.hw)
    && (forall core :: Hardware.ValidCore(c.hw, core) <==> core in s.cores)
    && (forall core :: core in s.cores ==> s.cores[core].Idle?)
    && s.shootdown.openRequests == {}
    && s.sound
  }

  /** A run: `states[i]` goes to `states[i + 1]` by `steps[i]`. */
  predicate ValidRun(c: Constants, states: seq<Variables>, steps: seq<Step>) {
    && |states| == |steps| + 1
    && forall i :: 0 <= i < |steps| ==> NextStep(c, states[i], states[i + 1], steps[i])
  }

  // ----- interpretation as the high-level machine

  function InterpConstants(c: Constants): HighLevel.Constants {
    HighLevel.Constants(c.threadNo, c.hw.physMemSize, c.hw.maxPhyAddr)
  }

  predicate UnmapInFlight(s: Variables, va: nat) {
    exists core :: core in s.cores && s.cores[core].Unmapping() && s.cores[core].vaddr == va
  }

  /** The mappings that a process may still rely on: those whose unmap has not been requested. */
  function EffectiveMappings(s: Variables): map<nat, PTE> {
    map va | va in s.Pt() && !UnmapInFlight(s, va) :: s.Pt()[va]
  }

  ghost predicate Covered(mappings: map<nat, PTE>, vaddr: nat) {
    exists base :: base in mappings && Between(vaddr, base, base + mappings[base].frame.size)
  }

  /** Contents of the physical word behind `vaddr`, through some mapping that covers it. */
  ghost function WordBehind(mem: seq<nat>, mappings: map<nat, PTE>, vaddr: nat): nat
    requires Covered(mappings, vaddr)
  {
    var base :| base in mappings && Between(vaddr, base, base + mappings[base].frame.size);
    var word := WordIndex(mappings[base].frame.base + (vaddr - base));
    if word < |mem| then mem[word] else 0
  }

  ghost function InterpMem(c: Constants, s: Variables): imap<nat, nat> {
    var mappings := EffectiveMappings(s);
    imap word: nat | HighLevel.InMemDomain(c.hw.physMemSize, word, mappings)
      :: WordBehind(s.hw.mem, mappings, word * WORD_SIZE)
  }

  function InterpThread(c: Constants, s: Variables, id: nat): HighLevel.Arguments
    requires id in c.threadCore
  {
    if c.threadCore[id] !in s.cores then HighLevel.Empty else
    match s.cores[c.threadCore[id]]
    case Idle => HighLevel.Empty
    case MapWaiting(thread, vaddr, pte) => if thread == id then HighLevel.Map(vaddr, pte) else HighLevel.Empty
    case MapExecuting(thread, vaddr, pte) => if thread == id then HighLevel.Map(vaddr, pte) else HighLevel.Empty
    case UnmapWaiting(thread, vaddr) =>
      if thread != id then HighLevel.Empty
      else HighLevel.Unmap(vaddr, if vaddr in s.Pt() then Some(s.Pt()[vaddr]) else None)
    case UnmapOpExecuting(thread, vaddr, result) => RemovedArguments(thread == id, vaddr, result)
    case UnmapOpDone(thread, vaddr, result) => RemovedArguments(thread == id, vaddr, result)
    case UnmapShootdownWaiting(thread, vaddr, result) => RemovedArguments(thread == id, vaddr, result)
  }

  function RemovedArguments(own: bool, vaddr: nat, result: Result<PTE>): HighLevel.Arguments {
    if !own then HighLevel.Empty
    else HighLevel.Unmap(vaddr, if result.Ok? then Some(result.value) else None)
  }

  ghost function Interp(c: Constants, s: Variables): HighLevel.Variables {
    HighLevel.Variables(
      InterpMem(c, s),
      map id | id in c.threadCore :: InterpThread(c, s, id),
      EffectiveMappings(s),
      s.sound)
  }

  /** An access counts at the high level only through a mapping that is still effective. */
  function InterpEntry(s: Variables, entry: Option<(nat, PTE)>): Option<(nat, PTE)> {
    if entry.Some? && entry.value.0 in EffectiveMappings(s) then entry else None
  }

  function InterpOp(op: Hardware.RWOp, effective: bool): HighLevel.RWOp {
    match op
    case Store(newValue, stored) =>
      HighLevel.Store(newValue, if stored.StoreOk? && effective then HighLevel.StoreOk else HighLevel.StoreUndefined)
    case Load(isExec, loaded) =>
      HighLevel.Load(isExec,
          if loaded.Value? && effective then HighLevel.Value(loaded.value) else HighLevel.LoadUndefined)
  }

  function InterpStep(s: Variables, step: Step): HighLevel.Step {
    match step
    case HW(thread, ReadWrite(vaddr, _, op, entry, _)) =>
      var hlEntry := InterpEntry(s, entry);
      HighLevel.ReadWrite(thread, vaddr, InterpOp(op, hlEntry.Some?), hlEntry)
    case MapStart(thread, vaddr, pte) => HighLevel.MapStart(thread, vaddr, pte)
    case MapEnd(core, result) =>
      if core in s.cores && !s.cores[core].Idle? then HighLevel.MapEnd(s.cores[core].thread, result)
      else HighLevel.Stutter
    case UnmapStart(thread, vaddr) => HighLevel.UnmapStart(thread, vaddr)
    case UnmapEnd(core) =>
      if core in s.cores && s.cores[core].Removed() then
        HighLevel.UnmapEnd(s.cores[core].thread, if s.cores[core].result.Ok? then Ok(()) else Err)
      else HighLevel.Stutter
    case _ => HighLevel.Stutter
  }
}
