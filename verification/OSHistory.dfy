/** Runs of the machine told from their steps alone: what loads return, what the page table holds, and how requests
    and accesses are answered. */
module OSHistory {
  import opened Definitions
  import opened Indexing
  import opened OS
  import opened OSInvariant
  import Hardware
  import HighLevel
  import OSRefinement

  // ----- read your writes

  /** An access to a virtual word through a mapping that is still effective. */
  predicate Accesses(s: Variables, step: Step, word: nat) {
    && step.HW? && step.hwStep.ReadWrite? && step.hwStep.vaddr == word * WORD_SIZE
    && step.hwStep.entry.Some? && step.hwStep.entry.value.0 in EffectiveMappings(s)
  }

  predicate Stores(s: Variables, step: Step, word: nat) {
    Accesses(s, step, word) && step.hwStep.op.Store? && step.hwStep.op.stored.StoreOk?
  }

  predicate Loads(s: Variables, step: Step, word: nat) {
    Accesses(s, step, word) && step.hwStep.op.Load? && step.hwStep.op.loaded.Value?
  }

  ghost predicate WordMapped(c: Constants, s: Variables, word: nat) {
    HighLevel.InMemDomain(c.hw.physMemSize, word, EffectiveMappings(s))
  }

  lemma {:induction false} SoundBefore(c: Constants, states: seq<Variables>, steps: seq<Step>, i: nat, k: nat)
    requires ValidRun(c, states, steps) && i <= k < |states| && states[k].sound
    ensures states[i].sound
  {
    if i < k {
      assert NextStep(c, states[k - 1], states[k - 1 + 1], steps[k - 1]);
      SoundStep(c, states[k - 1], states[k], steps[k - 1]);
      SoundBefore(c, states, steps, i, k - 1);
    }
  }

  lemma SoundStep(c: Constants, s1: Variables, s2: Variables, step: Step)
    requires NextStep(c, s1, s2, step) && s2.sound
    ensures s1.sound
  {
  }

  ghost predicate HighStores(step: HighLevel.Step, word: nat) {
    step.ReadWrite? && step.op.Store? && step.op.stored.StoreOk? && WordIndex(step.vaddr) == word
  }

  /** In the flat memory, a word that stays mapped changes by stores to it only. */
  lemma WordKept(c: HighLevel.Constants, h1: HighLevel.Variables, h2: HighLevel.Variables,
      step: HighLevel.Step, word: nat)
    requires HighLevel.NextStep(c, h1, h2, step) && h1.sound && h2.sound && word in h1.mem && word in h2.mem
    requires !HighStores(step, word)
    ensures h2.mem[word] == h1.mem[word]
  {
  }

  lemma WordStored(c: HighLevel.Constants, h1: HighLevel.Variables, h2: HighLevel.Variables,
      step: HighLevel.Step, word: nat)
    requires HighLevel.NextStep(c, h1, h2, step) && h1.sound && HighStores(step, word) && step.entry.Some?
    ensures word in h2.mem && h2.mem[word] == step.op.newValue
  {
  }

  lemma WordLoaded(c: HighLevel.Constants, h1: HighLevel.Variables, h2: HighLevel.Variables,
      step: HighLevel.Step, word: nat)
    requires HighLevel.NextStep(c, h1, h2, step) && h1.sound && step.ReadWrite? && step.entry.Some?
    requires step.op.Load? && step.op.loaded.Value? && WordIndex(step.vaddr) == word
    ensures word in h1.mem && step.op.loaded.value == h1.mem[word]
  {
  }

  lemma AlignedWord(vaddr: nat, word: nat)
    ensures vaddr == word * WORD_SIZE ==> WordIndex(vaddr) == word
    ensures Aligned(vaddr, WORD_SIZE) && WordIndex(vaddr) == word ==> vaddr == word * WORD_SIZE
  {
  }

  /** How accesses appear in the flat memory. */
  lemma AccessInterp(c: Constants, s1: Variables, s2: Variables, step: Step, word: nat)
    requires NextStep(c, s1, s2, step)
    ensures
      var h := InterpStep(s1, step);
      && (HighStores(h, word) <==> Stores(s1, step, word))
      && (Stores(s1, step, word) ==> h.entry.Some? && h.op.newValue == step.hwStep.op.newValue)
      && (Loads(s1, step, word) ==>
            && h.ReadWrite? && h.entry.Some? && h.op.Load? && WordIndex(h.vaddr) == word
            && h.op.loaded == HighLevel.Value(step.hwStep.op.loaded.value))
  {
    if step.HW? && step.hwStep.ReadWrite? {
      AlignedWord(step.hwStep.vaddr, word);
    }
    hide EffectiveMappings;
  }

  lemma StepInterp(c: Constants, states: seq<Variables>, steps: seq<Step>, i: nat)
    requires ValidRun(c, states, steps) && Init(c, states[0]) && i < |steps|
    ensures HighLevel.NextStep(InterpConstants(c), Interp(c, states[i]), Interp(c, states[i + 1]),
                               InterpStep(states[i], steps[i]))
    ensures NextStep(c, states[i], states[i + 1], steps[i])
  {
    hide Init, NextStep, Inv, Interp, InterpStep, InterpConstants, HighLevel.NextStep;
    OSRefinement.RunInv(c, states, steps, i);
    OSRefinement.StepRefines(c, states[i], states[i + 1], steps[i]);
  }

  lemma InterpFacts(c: Constants, s: Variables, word: nat)
    ensures Interp(c, s).sound == s.sound && Interp(c, s).mem == InterpMem(c, s)
    ensures word in InterpMem(c, s) <==> WordMapped(c, s, word)
  {
  }

  lemma RunSizes(c: Constants, states: seq<Variables>, steps: seq<Step>)
    requires ValidRun(c, states, steps)
    ensures |states| == |steps| + 1
  {
  }

  /** From a store on, while the word stays mapped and nobody stores to it again, it holds what was stored. */
  lemma {:induction false} StoredStays(c: Constants, states: seq<Variables>, steps: seq<Step>,
      j: nat, k: nat, word: nat)
    requires ValidRun(c, states, steps) && Init(c, states[0]) && j < k < |states| && states[k].sound
    requires Stores(states[j], steps[j], word)
    requires forall i: nat | j < i < k :: !Stores(states[i], steps[i], word)
    requires forall i: nat | j < i <= k :: WordMapped(c, states[i], word)
    ensures word in InterpMem(c, states[k]) && InterpMem(c, states[k])[word] == steps[j].hwStep.op.newValue
    decreases k
  {
    hide *;
    RunSizes(c, states, steps);
    StepInterp(c, states, steps, k - 1);
    SoundBefore(c, states, steps, k - 1, k);
    var s1, s2, step := states[k - 1], states[k], steps[k - 1];
    AccessInterp(c, s1, s2, step, word);
    InterpFacts(c, s1, word);
    InterpFacts(c, s2, word);
    if k == j + 1 {
      WordStored(InterpConstants(c), Interp(c, s1), Interp(c, s2), InterpStep(s1, step), word);
    } else {
      StoredStays(c, states, steps, j, k - 1, word);
      WordKept(InterpConstants(c), Interp(c, s1), Interp(c, s2), InterpStep(s1, step), word);
    }
  }

  /** In a sound run a load through an effective mapping returns what was last stored to the word through one, whichever
      cores and threads the two run on, and whatever maps, unmaps and stale translations come in between. */
  lemma ReadsLastStore(c: Constants, states: seq<Variables>, steps: seq<Step>, j: nat, k: nat, word: nat)
    requires ValidRun(c, states, steps) && Init(c, states[0]) && j < k < |steps| && states[k].sound
    requires Stores(states[j], steps[j], word)
    requires forall i: nat | j < i < k :: !Stores(states[i], steps[i], word)
    requires forall i: nat | j < i <= k :: WordMapped(c, states[i], word)
    requires Loads(states[k], steps[k], word)
    ensures steps[k].hwStep.op.loaded.value == steps[j].hwStep.op.newValue
  {
    StoredStays(c, states, steps, j, k, word);
    StepInterp(c, states, steps, k);
    hide Init, NextStep, Inv, Interp, InterpStep, InterpConstants, InterpMem, HighLevel.NextStep, WordMapped,
         HighStores;
    AccessInterp(c, states[k], states[k + 1], steps[k], word);
    InterpFacts(c, states[k], word);
    WordLoaded(InterpConstants(c), Interp(c, states[k]), Interp(c, states[k + 1]),
               InterpStep(states[k], steps[k]), word);
  }

  // ----- what the page table holds

  datatype Request = ForMap(vaddr: nat, pte: PTE) | ForUnmap(vaddr: nat)

  function RequestOf(c: Constants, step: Step, core: Core): Option<Request> {
    match step
    case MapStart(thread, vaddr, pte) =>
      if thread in c.threadCore && c.threadCore[thread] == core then Some(ForMap(vaddr, pte)) else None
    case UnmapStart(thread, vaddr) =>
      if thread in c.threadCore && c.threadCore[thread] == core then Some(ForUnmap(vaddr)) else None
    case _ => None
  }

  /** What was asked for last on a core, in the first k steps. */
  function Asked(c: Constants, steps: seq<Step>, k: nat, core: Core): Option<Request>
    requires k <= |steps|
  {
    if k == 0 then None
    else if RequestOf(c, steps[k - 1], core).Some? then RequestOf(c, steps[k - 1], core)
    else Asked(c, steps, k - 1, core)
  }

  /** The mappings that the first k steps leave: those of successful maps, without those of successful removals. */
  function Ledger(c: Constants, steps: seq<Step>, k: nat): map<nat, PTE>
    requires k <= |steps|
  {
    if k == 0 then map[]
    else
      match steps[k - 1]
      case MapEnd(core, Ok(_)) => (
        match Asked(c, steps, k - 1, core)
        case Some(ForMap(vaddr, pte)) => Ledger(c, steps, k - 1)[vaddr := pte]
        case _ => Ledger(c, steps, k - 1))
      case UnmapOpStart(core, Ok(_)) => (
        match Asked(c, steps, k - 1, core)
        case Some(ForUnmap(vaddr)) => Ledger(c, steps, k - 1) - {vaddr}
        case _ => Ledger(c, steps, k - 1))
      case _ => Ledger(c, steps, k - 1)
  }

  /** A core in a call is in the one that was asked for last on it. */
  predicate InCall(st: CoreState, asked: Option<Request>) {
    && (st.Mapping() ==> asked == Some(ForMap(st.vaddr, st.pte)))
    && (st.Unmapping() ==> asked == Some(ForUnmap(st.vaddr)))
  }

  lemma CallMoves(c: Constants, s1: Variables, s2: Variables, step: Step, core: Core, asked: Option<Request>)
    requires NextStep(c, s1, s2, step) && core in s2.cores && core in s1.cores && InCall(s1.cores[core], asked)
    ensures InCall(s2.cores[core], if RequestOf(c, step, core).Some? then RequestOf(c, step, core) else asked)
  {
  }

  lemma CoresMove(c: Constants, s1: Variables, s2: Variables, step: Step)
    requires NextStep(c, s1, s2, step)
    ensures s2.cores.Keys == s1.cores.Keys
  {
  }

  /** How a step changes the page table, and how it is answered. */
  lemma PtMoves(c: Constants, s1: Variables, s2: Variables, step: Step)
    requires NextStep(c, s1, s2, step)
    ensures step.MapEnd? ==>
      && step.core in s1.cores && s1.cores[step.core].MapExecuting?
      && (step.result.Ok? <==> !OverlapsExistingVmem(s1.Pt(), s1.cores[step.core].vaddr, s1.cores[step.core].pte))
      && s2.Pt() == if step.result.Ok? then s1.Pt()[s1.cores[step.core].vaddr := s1.cores[step.core].pte] else s1.Pt()
    ensures step.UnmapOpStart? ==>
      && step.core in s1.cores && s1.cores[step.core].UnmapWaiting?
      && (step.result.Ok? <==> s1.cores[step.core].vaddr in s1.Pt())
      && s2.Pt() == s1.Pt() - if step.result.Ok? then {s1.cores[step.core].vaddr} else {}
    ensures !step.MapEnd? && !step.UnmapOpStart? ==> s2.Pt() == s1.Pt()
  {
  }

  /** In every state of every run the page table is what the steps so far tell: nothing appears in it that was not asked
      for and answered, and nothing is missing. */
  lemma {:induction false} LedgerIsPt(c: Constants, states: seq<Variables>, steps: seq<Step>, k: nat)
    requires ValidRun(c, states, steps) && Init(c, states[0]) && k < |states|
    ensures states[k].Pt() == Ledger(c, steps, k)
    ensures forall core | core in states[k].cores :: InCall(states[k].cores[core], Asked(c, steps, k, core))
  {
    hide *;
    RunSizes(c, states, steps);
    if k == 0 {
      NothingYet(c, states[0], steps);
    } else {
      LedgerIsPt(c, states, steps, k - 1);
      StepAt(c, states, steps, k);
      LedgerMoves(c, states[k - 1], states[k], steps, k);
    }
  }

  lemma StepAt(c: Constants, states: seq<Variables>, steps: seq<Step>, k: nat)
    requires ValidRun(c, states, steps) && 0 < k < |states|
    ensures k <= |steps| && NextStep(c, states[k - 1], states[k], steps[k - 1])
  {
    assert NextStep(c, states[k - 1], states[k - 1 + 1], steps[k - 1]);
    hide NextStep;
  }

  lemma NothingYet(c: Constants, s: Variables, steps: seq<Step>)
    requires Init(c, s)
    ensures s.Pt() == Ledger(c, steps, 0)
    ensures forall core | core in s.cores :: InCall(s.cores[core], Asked(c, steps, 0, core))
  {
  }

  lemma LedgerMoves(c: Constants, s1: Variables, s2: Variables, steps: seq<Step>, k: nat)
    requires 0 < k <= |steps| && NextStep(c, s1, s2, steps[k - 1]) && s1.Pt() == Ledger(c, steps, k - 1)
    requires forall core | core in s1.cores :: InCall(s1.cores[core], Asked(c, steps, k - 1, core))
    ensures s2.Pt() == Ledger(c, steps, k)
    ensures forall core | core in s2.cores :: InCall(s2.cores[core], Asked(c, steps, k, core))
  {
    var step := steps[k - 1];
    CallIs(c, s1, steps, k - 1, step);
    PtMoves(c, s1, s2, step);
    hide NextStep, InCall, RequestOf;
    CoresMove(c, s1, s2, step);
    forall core | core in s2.cores ensures InCall(s2.cores[core], Asked(c, steps, k, core)) {
      CallMoves(c, s1, s2, step, core, Asked(c, steps, k - 1, core));
    }
  }

  lemma CallIs(c: Constants, s: Variables, steps: seq<Step>, k: nat, step: Step)
    requires k <= |steps| && forall core | core in s.cores :: InCall(s.cores[core], Asked(c, steps, k, core))
    ensures step.MapEnd? && step.core in s.cores && s.cores[step.core].MapExecuting? ==>
      Asked(c, steps, k, step.core) == Some(ForMap(s.cores[step.core].vaddr, s.cores[step.core].pte))
    ensures step.UnmapOpStart? && step.core in s.cores && s.cores[step.core].UnmapWaiting? ==>
      Asked(c, steps, k, step.core) == Some(ForUnmap(s.cores[step.core].vaddr))
  {
  }

  /** A map succeeds exactly if what it was asked for overlaps no mapping, a removal exactly if there is a mapping. */
  lemma CallsAnswered(c: Constants, states: seq<Variables>, steps: seq<Step>, k: nat)
    requires ValidRun(c, states, steps) && Init(c, states[0]) && k < |steps|
    ensures steps[k].MapEnd? ==>
      var asked := Asked(c, steps, k, steps[k].core);
      && asked.Some? && asked.value.ForMap?
      && (steps[k].result.Ok? <==> !OverlapsExistingVmem(Ledger(c, steps, k), asked.value.vaddr, asked.value.pte))
    ensures steps[k].UnmapOpStart? ==>
      var asked := Asked(c, steps, k, steps[k].core);
      asked.Some? && asked.value.ForUnmap? && (steps[k].result.Ok? <==> asked.value.vaddr in Ledger(c, steps, k))
  {
    LedgerIsPt(c, states, steps, k);
    StepAt(c, states, steps, k + 1);
    PtMoves(c, states[k], states[k + 1], steps[k]);
    CallIs(c, states[k], steps, k, steps[k]);
    hide NextStep, Init, Ledger, Asked, OverlapsExistingVmem;
  }

  // ----- which accesses succeed

  /** The physical word that an access at `vaddr` through a mapping at `base` goes to. */
  function Target(base: nat, pte: PTE, vaddr: nat): nat
    requires base <= vaddr
  {
    (pte.frame.base + (vaddr - base)) / 8
  }

  /** An access at `vaddr` that changes physical memory from m1 to m2: through a listed mapping it succeeds exactly if
      the mapping allows it, and goes to its word; through no entry only if no mapping covers the address. */
  predicate AccessIs(listed: map<nat, PTE>, m1: seq<nat>, m2: seq<nat>, vaddr: nat, op: Hardware.RWOp,
      entry: Option<(nat, PTE)>) {
    match entry
    case None => forall b | b in listed :: !(b <= vaddr < b + listed[b].frame.size)
    case Some((base, pte)) =>
      base in listed ==>
        && listed[base] == pte && base <= vaddr < base + pte.frame.size
        && var w := Target(base, pte, vaddr);
           match op
           case Store(value, stored) =>
             && (stored.StoreOk? <==> w < |m1| && pte.flags.isWritable && !pte.flags.isSupervisor)
             && m2 == if stored.StoreOk? then m1[w := value] else m1
           case Load(isExec, loaded) =>
             && (loaded.Value? <==>
                   w < |m1| && !pte.flags.isSupervisor && (isExec ==> !pte.flags.disableExecute))
             && (loaded.Value? ==> loaded.value == m1[w]) && m2 == m1
  }

  lemma AccessIsChecked(c: Constants, s1: Variables, s2: Variables, step: Step)
    requires NextStep(c, s1, s2, step) && step.HW? && step.hwStep.ReadWrite?
    requires step.hwStep.core in s1.hw.tlbs && step.hwStep.entry.Some? ==>
      var base := step.hwStep.entry.value.0;
      base in s1.hw.tlbs[step.hwStep.core] && base in s1.Pt() ==> s1.Pt()[base] == s1.hw.tlbs[step.hwStep.core][base]
    ensures AccessIs(s1.Pt(), s1.hw.mem, s2.hw.mem, step.hwStep.vaddr, step.hwStep.op, step.hwStep.entry)
  {
  }

  /** In every run, accesses are answered as the mappings say that were asked for and are in the page table. */
  lemma AccessesChecked(c: Constants, states: seq<Variables>, steps: seq<Step>, k: nat)
    requires ValidRun(c, states, steps) && Init(c, states[0]) && k < |steps|
    requires steps[k].HW? && steps[k].hwStep.ReadWrite?
    ensures k + 1 < |states|
    ensures AccessIs(Ledger(c, steps, k), states[k].hw.mem, states[k + 1].hw.mem,
                     steps[k].hwStep.vaddr, steps[k].hwStep.op, steps[k].hwStep.entry)
  {
    hide *;
    RunSizes(c, states, steps);
    LedgerIsPt(c, states, steps, k);
    OSRefinement.RunInv(c, states, steps, k);
    StepAt(c, states, steps, k + 1);
    if steps[k].hwStep.entry.Some? {
      CachedIsListed(c, states[k], steps[k].hwStep.core, steps[k].hwStep.entry.value.0);
    }
    AccessIsChecked(c, states[k], states[k + 1], steps[k]);
  }

  lemma CachedIsListed(c: Constants, s: Variables, core: Core, base: nat)
    requires Inv(c, s)
    ensures core in s.hw.tlbs && base in s.hw.tlbs[core] && base in s.Pt() ==> s.Pt()[base] == s.hw.tlbs[core][base]
  {
    hide PtInv, MapsValid, ShootdownInv, InflightRangesDisjoint, FramesDisjoint, WF;
  }

  /** The mapping of the page table that covers an address. */
  ghost predicate CoveredBy(s: Variables, base: nat, vaddr: nat) {
    base in s.Pt() && base <= vaddr < base + s.Pt()[base].frame.size
  }

  function Answered(op: Hardware.RWOp, pte: PTE, mem: seq<nat>, w: nat): Hardware.RWOp {
    match op
    case Store(value, _) =>
      Hardware.Store(value, if w < |mem| && pte.flags.isWritable && !pte.flags.isSupervisor
                            then Hardware.StoreOk else Hardware.StorePagefault)
    case Load(isExec, _) =>
      Hardware.Load(isExec, if w < |mem| && !pte.flags.isSupervisor && (isExec ==> !pte.flags.disableExecute)
                            then Hardware.Value(mem[w]) else Hardware.LoadPagefault)
  }

  function Faulted(op: Hardware.RWOp): Hardware.RWOp {
    match op
    case Store(value, _) => Hardware.Store(value, Hardware.StorePagefault)
    case Load(isExec, _) => Hardware.Load(isExec, Hardware.LoadPagefault)
  }

  /** A thread whose core is idle can access any word at any time: through the mapping that covers it, after one fill of
      the core's TLB if need be, and else with a page fault. */
  lemma AccessPossible(c: Constants, s: Variables, thread: nat, core: Core, vaddr: nat, op: Hardware.RWOp)
    returns (states: seq<Variables>, steps: seq<Step>)
    requires Inv(c, s) && ThreadOnIdleCore(c, s, thread) && core in s.hw.tlbs && Aligned(vaddr, WORD_SIZE)
    ensures ValidRun(c, states, steps) && states[0] == s && 0 < |steps| <= 2
    ensures
      var last := steps[|steps| - 1];
      && last.HW? && last.thread == thread && last.hwStep.ReadWrite?
      && last.hwStep.vaddr == vaddr && last.hwStep.core == core
      && (forall base: nat | CoveredBy(s, base, vaddr) ::
            && last.hwStep.entry == Some((base, s.Pt()[base]))
            && last.hwStep.op == Answered(op, s.Pt()[base], s.hw.mem, Target(base, s.Pt()[base], vaddr)))
      && ((forall base: nat :: !CoveredBy(s, base, vaddr)) ==>
            last.hwStep.entry == None && last.hwStep.op == Faulted(op))
  {
    hide Inv, NextStep, Answered;
    if base: nat :| CoveredBy(s, base, vaddr) {
      states, steps := AccessMapped(c, s, thread, core, vaddr, op, base);
      forall b: nat | CoveredBy(s, b, vaddr) ensures b == base {
        OneCovers(c, s, vaddr, b, base);
      }
    } else {
      states, steps := AccessFaults(c, s, thread, core, vaddr, op);
    }
  }

  lemma OneCovers(c: Constants, s: Variables, vaddr: nat, a: nat, b: nat)
    requires Inv(c, s) && CoveredBy(s, a, vaddr) && CoveredBy(s, b, vaddr)
    ensures a == b
  {
    hide PtInv;
    OSRefinement.CoverUnique(s, vaddr, a, b);
  }

  lemma AccessFaults(c: Constants, s: Variables, thread: nat, core: Core, vaddr: nat, op: Hardware.RWOp)
    returns (states: seq<Variables>, steps: seq<Step>)
    requires Inv(c, s) && ThreadOnIdleCore(c, s, thread) && core in s.hw.tlbs && Aligned(vaddr, WORD_SIZE)
    requires forall base: nat :: !CoveredBy(s, base, vaddr)
    ensures ValidRun(c, states, steps) && states[0] == s && |steps| == 1
    ensures steps[0] == HW(thread, Hardware.ReadWrite(vaddr, 0, Faulted(op), None, core))
  {
    CoreValid(c, s, core);
    hide Inv;
    var step := HW(thread, Hardware.ReadWrite(vaddr, 0, Faulted(op), None, core));
    forall b | b in s.Pt() ensures !Between(vaddr, b, b + s.Pt()[b].frame.size) {
      assert !CoveredBy(s, b, vaddr);
    }
    assert NextStep(c, s, s, step);
    states, steps := [s, s], [step];
  }

  lemma AccessMapped(c: Constants, s: Variables, thread: nat, core: Core, vaddr: nat, op: Hardware.RWOp, base: nat)
    returns (states: seq<Variables>, steps: seq<Step>)
    requires Inv(c, s) && ThreadOnIdleCore(c, s, thread) && core in s.hw.tlbs && Aligned(vaddr, WORD_SIZE)
    requires CoveredBy(s, base, vaddr)
    ensures ValidRun(c, states, steps) && states[0] == s && |steps| == 2
    ensures steps[1].HW? && steps[1].thread == thread && steps[1].hwStep.ReadWrite?
    ensures steps[1].hwStep.vaddr == vaddr && steps[1].hwStep.core == core
    ensures steps[1].hwStep.entry == Some((base, s.Pt()[base]))
    ensures steps[1].hwStep.op == Answered(op, s.Pt()[base], s.hw.mem, Target(base, s.Pt()[base], vaddr))
  {
    var pte := s.Pt()[base];
    var tlb: map<nat, PTE> := s.hw.tlbs[core][base := pte];
    var fill := HW(thread, Hardware.TLBFill(base, pte, core));
    var s1 := s.(hw := s.hw.(tlbs := s.hw.tlbs[core := tlb]));
    var w, paddr := Target(base, pte, vaddr), pte.frame.base + (vaddr - base);
    var op' := Answered(op, pte, s.hw.mem, w);
    var mem := if op'.Store? && op'.stored.StoreOk? then s.hw.mem[w := op'.newValue] else s.hw.mem;
    var s2 := s1.(hw := s1.hw.(mem := mem));
    var access := HW(thread, Hardware.ReadWrite(vaddr, paddr, op', Some((base, pte)), core));
    CoreValid(c, s, core);
    hide Inv;
    assert NextStep(c, s, s1, fill);
    assert NextStep(c, s1, s2, access) by { AccessStep(c, s1, s2, thread, core, vaddr, op, base, pte); }
    states, steps := [s, s1, s2], [fill, access];
    hide NextStep, Answered, ThreadOnIdleCore, CoveredBy;
  }

  lemma AccessStep(c: Constants, s1: Variables, s2: Variables, thread: nat, core: Core, vaddr: nat,
      op: Hardware.RWOp, base: nat, pte: PTE)
    requires ThreadOnIdleCore(c, s1, thread) && Hardware.ValidCore(c.hw, core) && Aligned(vaddr, WORD_SIZE)
    requires core in s1.hw.tlbs && base in s1.hw.tlbs[core] && s1.hw.tlbs[core][base] == pte
    requires base <= vaddr < base + pte.frame.size
    requires
      var w := Target(base, pte, vaddr);
      var op' := Answered(op, pte, s1.hw.mem, w);
      s2 == s1.(hw := s1.hw.(mem := if op'.Store? && op'.stored.StoreOk? then s1.hw.mem[w := op'.newValue]
                                    else s1.hw.mem))
    ensures
      var w := Target(base, pte, vaddr);
      NextStep(c, s1, s2, HW(thread, Hardware.ReadWrite(vaddr, pte.frame.base + (vaddr - base),
                                                        Answered(op, pte, s1.hw.mem, w), Some((base, pte)), core)))
  {
  }

  lemma CoreValid(c: Constants, s: Variables, core: Core)
    requires Inv(c, s) && core in s.hw.tlbs
    ensures Hardware.ValidCore(c.hw, core)
  {
    hide PtInv, MapsValid, RemovedInv, TlbCoherent, ShootdownInv, InflightRangesDisjoint, FramesDisjoint;
  }

  // ----- which requests can be made, and which are sound

  /** A thread whose core is idle can request a map exactly for an aligned page of 4 KiB, 2 MiB or 1 GiB whose frame
      begins within physical memory addresses and which ends below 2^48, while three pages are free. */
  lemma MapRequestable(c: Constants, s: Variables, thread: nat, vaddr: nat, pte: PTE)
    requires ThreadOnIdleCore(c, s, thread)
    ensures (exists s2 :: NextStep(c, s, s2, MapStart(thread, vaddr, pte))) <==>
      var size := pte.frame.size;
      && (size == 0x1000 || size == 0x20_0000 || size == 0x4000_0000)
      && vaddr % size == 0 && pte.frame.base % size == 0 && pte.frame.base <= c.hw.maxPhyAddr
      && vaddr + size < 0x1_0000_0000_0000 && 3 <= s.hw.pt.availablePages
  {
    hide MapSound;
    if HighLevel.MapEnabled(c.hw.maxPhyAddr, vaddr, pte) && 3 <= s.hw.pt.availablePages {
      var s2 := s.(cores := s.cores[c.threadCore[thread] := MapWaiting(thread, vaddr, pte)],
                   sound := s.sound && MapSound(s, vaddr, pte));
      assert NextStep(c, s, s2, MapStart(thread, vaddr, pte));
    }
  }

  /** It can request an unmap exactly for an address below 2^48 where a page of 4 KiB can start. */
  lemma UnmapRequestable(c: Constants, s: Variables, thread: nat, vaddr: nat)
    requires ThreadOnIdleCore(c, s, thread)
    ensures (exists s2 :: NextStep(c, s, s2, UnmapStart(thread, vaddr))) <==>
      vaddr < 0x1_0000_0000_0000 && vaddr % 0x1000 == 0
  {
    hide UnmapSound;
    if Aligned(vaddr, L1_ENTRY_SIZE) {
      MultipleOf(vaddr, L1_ENTRY_SIZE, 0x1000);
    } else if Aligned(vaddr, L2_ENTRY_SIZE) {
      MultipleOf(vaddr, L2_ENTRY_SIZE, 0x1000);
    }
    if HighLevel.UnmapEnabled(vaddr) {
      var s2 := s.(cores := s.cores[c.threadCore[thread] := UnmapWaiting(thread, vaddr)],
                   sound := s.sound && UnmapSound(s, vaddr));
      assert NextStep(c, s, s2, UnmapStart(thread, vaddr));
    }
  }


  lemma SoundApart(c: Constants, s1: Variables, s2: Variables, step: Step)
    requires Inv(c, s1) && NextStep(c, s1, s2, step) && s2.sound
    ensures InflightRangesDisjoint(s2) && FramesDisjoint(s2)
  {
    hide NextStep, InflightRangesDisjoint, FramesDisjoint;
    NextInv(c, s1, s2, step) by { hide Inv; }
  }

  lemma RangesApart(s1: Variables, s2: Variables, core: Core, r: MemRegion)
    requires InflightRangesDisjoint(s2) && s2.Pt() == s1.Pt() && core in s1.cores && s1.cores[core].Idle?
    requires core in s2.cores && s2.cores == s1.cores[core := s2.cores[core]] && !s2.cores[core].Idle?
    requires ClaimedRange(s2.cores[core], s2.Pt()) == r
    ensures !OverlapsInflightVmem(s1.Pt(), s1.cores, r)
  {
    forall other | other in s1.cores && !s1.cores[other].Idle?
      ensures !Overlap(ClaimedRange(s1.cores[other], s1.Pt()), r)
    {
      assert s2.cores[other] == s1.cores[other];
      hide ClaimedRange;
    }
  }

  lemma FramesApart(s1: Variables, s2: Variables, core: Core, pte: PTE)
    requires FramesDisjoint(s2) && s2.Pt() == s1.Pt() && core in s1.cores && s1.cores[core].Idle?
    requires core in s2.cores && s2.cores == s1.cores[core := s2.cores[core]]
    requires s2.cores[core].MapWaiting? && s2.cores[core].pte == pte
    ensures !OverlapsExistingPmem(s1.Pt(), pte) && !OverlapsInflightPmem(s1.Pt(), s1.cores, pte)
  {
    assert HeldFrame(s2, Op(core)) == Some(pte.frame);
    forall b | b in s1.Pt() ensures !Overlap(pte.frame, s1.Pt()[b].frame) {
      assert HeldFrame(s2, Entry(b)) == Some(s1.Pt()[b].frame);
    }
    forall other | other in s1.cores && ClaimedFrame(s1.cores[other], s1.Pt()).Some?
      ensures !Overlap(pte.frame, ClaimedFrame(s1.cores[other], s1.Pt()).value)
    {
      assert s2.cores[other] == s1.cores[other];
      if s1.cores[other].UnmapWaiting? {
        assert HeldFrame(s2, Entry(s1.cores[other].vaddr)) == ClaimedFrame(s1.cores[other], s1.Pt());
      } else {
        assert HeldFrame(s2, Op(other)) == ClaimedFrame(s1.cores[other], s1.Pt());
      }
    }
  }

  /** A map request is sound exactly if after it no two calls or entries claim the same addresses or frames. */
  lemma MapSoundExactly(c: Constants, s1: Variables, s2: Variables, thread: nat, vaddr: nat, pte: PTE)
    requires Inv(c, s1) && s1.sound && StepMapStart(c, s1, s2, thread, vaddr, pte)
    ensures s2.sound <==> InflightRangesDisjoint(s2) && FramesDisjoint(s2)
  {
    var core := c.threadCore[thread];
    hide Inv, InflightRangesDisjoint, FramesDisjoint;
    if s2.sound {
      SoundApart(c, s1, s2, MapStart(thread, vaddr, pte));
    } else if InflightRangesDisjoint(s2) && FramesDisjoint(s2) {
      RangesApart(s1, s2, core, Range(vaddr, pte));
      FramesApart(s1, s2, core, pte);
    }
  }

  /** An unmap request is sound exactly if after it no two calls claim the same addresses. */
  lemma UnmapSoundExactly(c: Constants, s1: Variables, s2: Variables, thread: nat, vaddr: nat)
    requires Inv(c, s1) && s1.sound && StepUnmapStart(c, s1, s2, thread, vaddr)
    ensures s2.sound <==> InflightRangesDisjoint(s2)
  {
    var core := c.threadCore[thread];
    var r := MemRegion(vaddr, if vaddr in s1.Pt() then s1.Pt()[vaddr].frame.size else 0);
    hide Inv, InflightRangesDisjoint, FramesDisjoint;
    if s2.sound {
      SoundApart(c, s1, s2, UnmapStart(thread, vaddr));
    } else if InflightRangesDisjoint(s2) {
      RangesApart(s1, s2, core, r);
    }
  }
}
