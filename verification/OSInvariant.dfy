/** What holds in every reachable state of the operating system. */
module OSInvariant {
  import opened Definitions
  import opened OS
  import Hardware
  import HighLevel
  import PT = PageTableSpec

  // ----- the invariant

  ghost predicate WF(c: Constants, s: Variables) {
    && ConstantsValid(c)
    && (forall core :: Hardware.ValidCore(c.hw, core) <==> core in s.cores)
    && (forall core :: Hardware.ValidCore(c.hw, core) <==> core in s.hw.tlbs)
    && |s.hw.mem| == c.hw.physMemSize
    && (forall core1, core2 ::
          (core1 in s.cores && core2 in s.cores && s.cores[core1].HoldsLock() && s.cores[core2].HoldsLock()) ==>
            core1 == core2)
    && (forall core :: core in s.cores && !s.cores[core].Idle? ==>
          s.cores[core].thread in c.threadCore && c.threadCore[s.cores[core].thread] == core)
  }

  predicate ValidMapping(va: nat, pte: PTE) {
    && PageSize(pte.frame.size)
    && Aligned(va, pte.frame.size)
    && Aligned(pte.frame.base, pte.frame.size)
  }

  /** Page table entries are well formed and never overlap each other. */
  ghost predicate PtInv(s: Variables) {
    && (forall va :: va in s.Pt() ==> ValidMapping(va, s.Pt()[va]))
    && (forall a, b :: a in s.Pt() && b in s.Pt() && a != b ==> !Overlap(Range(a, s.Pt()[a]), Range(b, s.Pt()[b])))
  }

  ghost predicate MapsValid(s: Variables) {
    forall core :: core in s.cores && s.cores[core].Mapping() ==> ValidMapping(s.cores[core].vaddr, s.cores[core].pte)
  }

  /** An unmap past its removal finds nothing in the page table where its entry was. */
  ghost predicate RemovedInv(s: Variables) {
    forall core :: core in s.cores && s.cores[core].Removed() ==>
      && s.cores[core].vaddr !in s.Pt()
      && (s.cores[core].result.Ok? ==>
            && ValidMapping(s.cores[core].vaddr, s.cores[core].result.value)
            && !OverlapsExistingVmem(s.Pt(), s.cores[core].vaddr, s.cores[core].result.value))
  }

  /** `(va, pte)` is what some unmap took out of the page table and has not finished with. */
  ghost predicate BeingRemoved(s: Variables, va: nat, pte: PTE) {
    exists core :: core in s.cores && Removes(s.cores[core], va, pte)
  }

  predicate Removes(st: CoreState, va: nat, pte: PTE) {
    st.Removed() && st.vaddr == va && st.result == Ok(pte)
  }

  /** A cached pair is in the page table or is the one being removed. */
  ghost predicate TlbCoherent(s: Variables) {
    forall core, va :: core in s.hw.tlbs && va in s.hw.tlbs[core] ==>
      || (va in s.Pt() && s.Pt()[va] == s.hw.tlbs[core][va])
      || BeingRemoved(s, va, s.hw.tlbs[core][va])
  }

  /** Cores that already acknowledged a shootdown do not cache its address. */
  ghost predicate ShootdownInv(c: Constants, s: Variables) {
    && (forall core :: core in s.shootdown.openRequests ==> Hardware.ValidCore(c.hw, core))
    && (forall core :: core in s.cores && s.cores[core].UnmapShootdownWaiting? ==>
          && s.cores[core].result.Ok?
          && s.shootdown.vaddr == s.cores[core].vaddr
          && forall other :: other in s.hw.tlbs && other !in s.shootdown.openRequests ==>
               s.cores[core].vaddr !in s.hw.tlbs[other])
  }

  /** The operations in flight claim virtual ranges that do not overlap. */
  ghost predicate InflightRangesDisjoint(s: Variables) {
    forall core1, core2 ::
      (core1 in s.cores && core2 in s.cores && core1 != core2 && !s.cores[core1].Idle? && !s.cores[core2].Idle?) ==>
        !Overlap(ClaimedRange(s.cores[core1], s.Pt()), ClaimedRange(s.cores[core2], s.Pt()))
  }

  /** Who holds a physical frame: a page table entry, or an operation of a core. */
  datatype Holder = Entry(va: nat) | Op(core: Core)

  function HeldFrame(s: Variables, h: Holder): Option<MemRegion> {
    match h
    case Entry(va) => if va in s.Pt() then Some(s.Pt()[va].frame) else None
    case Op(core) =>
      if core in s.cores && !s.cores[core].UnmapWaiting? then ClaimedFrame(s.cores[core], s.Pt()) else None
  }

  /** Page table entries, maps in flight and unmaps that took their entry out hold disjoint frames. */
  ghost predicate FramesDisjoint(s: Variables) {
    forall h1, h2 :: h1 != h2 && HeldFrame(s, h1).Some? && HeldFrame(s, h2).Some? ==>
      !Overlap(HeldFrame(s, h1).value, HeldFrame(s, h2).value)
  }

  ghost predicate Inv(c: Constants, s: Variables) {
    && WF(c, s)
    && PtInv(s)
    && MapsValid(s)
    && RemovedInv(s)
    && TlbCoherent(s)
    && ShootdownInv(c, s)
    && (s.sound ==> InflightRangesDisjoint(s) && FramesDisjoint(s))
  }

  lemma InitInv(c: Constants, s: Variables)
    requires Init(c, s)
    ensures Inv(c, s)
  {
  }

  // ----- preservation

  /** The core whose state a step may change. */
  function Mover(c: Constants, step: Step): Option<Core> {
    match step
    case MapStart(thread, _, _) => if thread in c.threadCore then Some(c.threadCore[thread]) else None
    case UnmapStart(thread, _) => if thread in c.threadCore then Some(c.threadCore[thread]) else None
    case MapOpStart(core) => Some(core)
    case MapEnd(core, _) => Some(core)
    case UnmapOpStart(core, _) => Some(core)
    case UnmapOpEnd(core) => Some(core)
    case UnmapInitiateShootdown(core) => Some(core)
    case UnmapEnd(core) => Some(core)
    case _ => None
  }

  /** Nothing but the mover's state changes, and the mover takes the lock only when it is free. */
  ghost predicate Moves(c: Constants, s1: Variables, s2: Variables, mover: Option<Core>) {
    match mover
    case None => s2.cores == s1.cores
    case Some(core) =>
      && core in s1.cores && core in s2.cores
      && s2.cores == s1.cores[core := s2.cores[core]]
      && s2.hw.tlbs == s1.hw.tlbs && s2.hw.mem == s1.hw.mem
      && (s2.cores[core].HoldsLock() ==> s1.cores[core].HoldsLock() || LockFree(c, s1))
      && (!s2.cores[core].Idle? ==>
            || (!s1.cores[core].Idle? && s2.cores[core].thread == s1.cores[core].thread)
            || (s2.cores[core].thread in c.threadCore && c.threadCore[s2.cores[core].thread] == core))
  }

  lemma StepMoves(c: Constants, s1: Variables, s2: Variables, step: Step)
    requires NextStep(c, s1, s2, step)
    ensures Moves(c, s1, s2, Mover(c, step))
  {
  }

  lemma HardwareKeeps(c: Constants, s1: Variables, s2: Variables, step: Step)
    requires NextStep(c, s1, s2, step)
    ensures |s2.hw.mem| == |s1.hw.mem| && s2.hw.tlbs.Keys == s1.hw.tlbs.Keys
  {
  }

  lemma WFPreserved(c: Constants, s1: Variables, s2: Variables, step: Step)
    requires WF(c, s1) && NextStep(c, s1, s2, step)
    ensures WF(c, s2)
  {
    HardwareKeeps(c, s1, s2, step);
    StepMoves(c, s1, s2, step);
    WFMoved(c, s1, s2, Mover(c, step));
  }

  lemma WFMoved(c: Constants, s1: Variables, s2: Variables, mover: Option<Core>)
    requires WF(c, s1) && Moves(c, s1, s2, mover)
    requires |s2.hw.mem| == |s1.hw.mem| && s2.hw.tlbs.Keys == s1.hw.tlbs.Keys
    ensures WF(c, s2)
  {
    assert forall core :: core in s2.cores <==> core in s1.cores;
    assert forall core :: core in s2.hw.tlbs <==> core in s1.hw.tlbs;
  }

  // Page table: only MapEnd and UnmapOpStart change it, and only with the lock held.

  lemma PtSame(c: Constants, s1: Variables, s2: Variables, step: Step)
    requires NextStep(c, s1, s2, step) && !step.MapEnd? && !step.UnmapOpStart?
    ensures s2.Pt() == s1.Pt()
  {
  }

  lemma NewEntryApart(pt: map<nat, PTE>, vaddr: nat, pte: PTE, b: nat)
    requires !OverlapsExistingVmem(pt, vaddr, pte) && ValidMapping(vaddr, pte) && b in pt && 0 < pt[b].frame.size
    ensures vaddr != b && !Overlap(Range(b, pt[b]), Range(vaddr, pte)) && !Overlap(Range(vaddr, pte), Range(b, pt[b]))
  {
    assert !Overlap(Range(vaddr, pte), Range(b, pt[b]));
  }

  lemma PtInvSame(s1: Variables, s2: Variables)
    requires PtInv(s1) && s2.Pt() == s1.Pt()
    ensures PtInv(s2)
  {
  }

  lemma PtInvAdded(s1: Variables, s2: Variables, vaddr: nat, pte: PTE)
    requires PtInv(s1) && ValidMapping(vaddr, pte) && !OverlapsExistingVmem(s1.Pt(), vaddr, pte)
    requires s2.Pt() == s1.Pt()[vaddr := pte]
    ensures PtInv(s2)
  {
    assert forall va :: va in s1.Pt() ==> 0 < s1.Pt()[va].frame.size;
    hide ValidMapping, Overlap, OverlapsExistingVmem;
    forall a, b | a in s2.Pt() && b in s2.Pt() && a != b
      ensures !Overlap(Range(a, s2.Pt()[a]), Range(b, s2.Pt()[b]))
    {
      if a == vaddr {
        NewEntryApart(s1.Pt(), vaddr, pte, b);
      } else if b == vaddr {
        NewEntryApart(s1.Pt(), vaddr, pte, a);
      }
    }
  }

  lemma PtInvMapEnd(c: Constants, s1: Variables, s2: Variables, core: Core, result: Result<()>)
    requires WF(c, s1) && PtInv(s1) && MapsValid(s1) && StepMapEnd(c, s1, s2, core, result)
    ensures PtInv(s2)
  {
    hide PtInv, ValidMapping, OverlapsExistingVmem, WF;
    if result.Ok? {
      PtInvAdded(s1, s2, s1.cores[core].vaddr, s1.cores[core].pte);
    } else {
      PtInvSame(s1, s2);
    }
  }

  lemma PtInvUnmapOpStart(c: Constants, s1: Variables, s2: Variables, core: Core, result: Result<()>)
    requires PtInv(s1) && StepUnmapOpStart(c, s1, s2, core, result)
    ensures PtInv(s2)
  {
  }

  lemma PtInvPreserved(c: Constants, s1: Variables, s2: Variables, step: Step)
    requires WF(c, s1) && PtInv(s1) && MapsValid(s1) && NextStep(c, s1, s2, step)
    ensures PtInv(s2)
  {
    hide MapsValid, Overlap, Range, StepAckShootdownIPI, StepHW, StepMapEnd, StepMapOpStart, StepMapStart,
         StepUnmapEnd, StepUnmapInitiateShootdown, StepUnmapOpEnd, StepUnmapOpStart, StepUnmapStart,
         StepViewStutter, ValidMapping, WF;
    match step
    case MapEnd(core, result) => PtInvMapEnd(c, s1, s2, core, result);
    case UnmapOpStart(core, result) => PtInvUnmapOpStart(c, s1, s2, core, result);
    case _ =>
      PtSame(c, s1, s2, step);
  }

  lemma MapsValidPreserved(c: Constants, s1: Variables, s2: Variables, step: Step)
    requires WF(c, s1) && MapsValid(s1) && NextStep(c, s1, s2, step)
    ensures MapsValid(s2)
  {
    StepMoves(c, s1, s2, step);
  }

  lemma RemovedInvMapEnd(c: Constants, s1: Variables, s2: Variables, core: Core, result: Result<()>)
    requires WF(c, s1) && RemovedInv(s1) && StepMapEnd(c, s1, s2, core, result)
    ensures RemovedInv(s2)
  {
  }

  lemma RemovedInvUnmapOpStart(c: Constants, s1: Variables, s2: Variables, core: Core, result: Result<()>)
    requires WF(c, s1) && PtInv(s1) && RemovedInv(s1) && StepUnmapOpStart(c, s1, s2, core, result)
    ensures RemovedInv(s2)
  {
  }

  lemma RemovedInvPreserved(c: Constants, s1: Variables, s2: Variables, step: Step)
    requires WF(c, s1) && PtInv(s1) && RemovedInv(s1) && NextStep(c, s1, s2, step)
    ensures RemovedInv(s2)
  {
    if step.MapEnd? {
      RemovedInvMapEnd(c, s1, s2, step.core, step.result);
    } else if step.UnmapOpStart? {
      RemovedInvUnmapOpStart(c, s1, s2, step.core, step.result);
    } else {
      PtSame(c, s1, s2, step);
      StepMoves(c, s1, s2, step);
      if Mover(c, step).Some? {
        OperationContinues(c, s1, s2, step);
      }
      RemovedInvMoved(c, s1, s2, Mover(c, step));
    }
  }

  /** Two phases of the same operation with the same claims. */
  predicate SameOperation(st1: CoreState, st2: CoreState) {
    || (st1.Mapping() && st2.Mapping() && st2.vaddr == st1.vaddr && st2.pte == st1.pte)
    || (st1.Removed() && st2.Removed() && st2.vaddr == st1.vaddr && st2.result == st1.result)
  }

  lemma OperationContinues(c: Constants, s1: Variables, s2: Variables, step: Step)
    requires NextStep(c, s1, s2, step) && Mover(c, step).Some?
    requires !step.UnmapOpStart?
    ensures var core := Mover(c, step).value;
      && core in s1.cores && core in s2.cores
      && (s2.cores[core].Idle? || SameOperation(s1.cores[core], s2.cores[core]) || step.MapStart? || step.UnmapStart?)
      && (s2.cores[core].Removed() ==> SameOperation(s1.cores[core], s2.cores[core]))
  {
    hide LockFree, MapSound, UnmapSound, Hardware.NextStep, PT.StepMapEnd, PT.StepUnmapStart, PT.StepViewStutter,
         HighLevel.MapEnabled, HighLevel.UnmapEnabled;
  }

  lemma RemovedInvMoved(c: Constants, s1: Variables, s2: Variables, mover: Option<Core>)
    requires RemovedInv(s1) && Moves(c, s1, s2, mover) && s2.Pt() == s1.Pt()
    requires mover.Some? && s2.cores[mover.value].Removed() ==>
      SameOperation(s1.cores[mover.value], s2.cores[mover.value])
    ensures RemovedInv(s2)
  {
  }

  // TLBs: entries enter from the page table and stay until evicted.

  lemma TlbHW(c: Constants, s1: Variables, s2: Variables, thread: nat, step: Hardware.Step)
    requires TlbCoherent(s1) && StepHW(c, s1, s2, thread, step)
    ensures TlbCoherent(s2)
  {
    forall core, va | core in s2.hw.tlbs && va in s2.hw.tlbs[core]
      ensures (va in s2.Pt() && s2.Pt()[va] == s2.hw.tlbs[core][va]) || BeingRemoved(s2, va, s2.hw.tlbs[core][va])
    {
      if step.TLBFill? && core == step.core && va == step.vaddr {
      } else {
        var pte := s2.hw.tlbs[core][va];
        assert va in s1.hw.tlbs[core] && pte == s1.hw.tlbs[core][va];
        assert (va in s1.Pt() && s1.Pt()[va] == pte) || BeingRemoved(s1, va, pte);
        if BeingRemoved(s1, va, pte) {
          var h :| h in s1.cores && Removes(s1.cores[h], va, pte);
          assert h in s2.cores && Removes(s2.cores[h], va, pte);
        }
      }
    }
  }

  lemma TlbMapEnd(c: Constants, s1: Variables, s2: Variables, core: Core, result: Result<()>)
    requires WF(c, s1) && TlbCoherent(s1) && StepMapEnd(c, s1, s2, core, result)
    ensures TlbCoherent(s2)
  {
    assert forall other :: other in s1.cores ==> !s1.cores[other].Removed();
    var vaddr, pte := s1.cores[core].vaddr, s1.cores[core].pte;
    // An entry that is already there cannot be replaced: it overlaps the new one.
    assert vaddr in s1.Pt() ==> Overlap(Range(vaddr, pte), Range(vaddr, s1.Pt()[vaddr]));
  }

  lemma TlbUnmapOpStart(c: Constants, s1: Variables, s2: Variables, core: Core, result: Result<()>)
    requires WF(c, s1) && TlbCoherent(s1) && StepUnmapOpStart(c, s1, s2, core, result)
    ensures TlbCoherent(s2)
  {
    assert forall other :: other in s1.cores ==> !s1.cores[other].Removed();
    var vaddr := s1.cores[core].vaddr;
    assert vaddr in s1.Pt() ==> Removes(s2.cores[core], vaddr, s1.Pt()[vaddr]);
  }

  lemma TlbUnmapEnd(c: Constants, s1: Variables, s2: Variables, core: Core)
    requires WF(c, s1) && TlbCoherent(s1) && ShootdownInv(c, s1) && StepUnmapEnd(c, s1, s2, core)
    ensures TlbCoherent(s2)
  {
    assert forall h :: h in s1.cores && s1.cores[h].Removed() ==> h == core;
    forall other, va | other in s2.hw.tlbs && va in s2.hw.tlbs[other]
      ensures va in s2.Pt() && s2.Pt()[va] == s2.hw.tlbs[other][va]
    {
      var pte := s2.hw.tlbs[other][va];
      assert (va in s1.Pt() && s1.Pt()[va] == pte) || BeingRemoved(s1, va, pte);
      assert !Removes(s1.cores[core], va, pte);
    }
  }

  lemma TlbMoved(c: Constants, s1: Variables, s2: Variables, mover: Option<Core>)
    requires TlbCoherent(s1) && Moves(c, s1, s2, mover) && s2.Pt() == s1.Pt() && s2.hw.tlbs == s1.hw.tlbs
    requires mover.Some? && s1.cores[mover.value].Removed() ==>
      SameOperation(s1.cores[mover.value], s2.cores[mover.value])
    ensures TlbCoherent(s2)
  {
    forall va, pte | BeingRemoved(s1, va, pte) ensures BeingRemoved(s2, va, pte) {
      var core :| core in s1.cores && Removes(s1.cores[core], va, pte);
      assert core in s2.cores && Removes(s2.cores[core], va, pte);
    }
  }

  /** A core whose removal is done leaves that phase only by UnmapEnd. */
  lemma RemovalContinues(c: Constants, s1: Variables, s2: Variables, step: Step)
    requires NextStep(c, s1, s2, step) && !step.UnmapEnd? && Mover(c, step).Some?
    ensures var core := Mover(c, step).value;
      && core in s1.cores && core in s2.cores
      && (s1.cores[core].Removed() ==> SameOperation(s1.cores[core], s2.cores[core]))
  {
  }

  lemma TlbsSame(c: Constants, s1: Variables, s2: Variables, step: Step)
    requires NextStep(c, s1, s2, step) && !step.HW?
    ensures s2.hw.tlbs == s1.hw.tlbs
  {
  }

  lemma TlbOtherStep(c: Constants, s1: Variables, s2: Variables, step: Step)
    requires TlbCoherent(s1) && NextStep(c, s1, s2, step)
    requires !step.HW? && !step.MapEnd? && !step.UnmapOpStart? && !step.UnmapEnd?
    ensures TlbCoherent(s2)
  {
    hide *;
    PtSame(c, s1, s2, step);
    TlbsSame(c, s1, s2, step);
    StepMoves(c, s1, s2, step);
    if Mover(c, step).Some? {
      RemovalContinues(c, s1, s2, step);
    }
    TlbMoved(c, s1, s2, Mover(c, step));
  }

  lemma TlbPreserved(c: Constants, s1: Variables, s2: Variables, step: Step)
    requires WF(c, s1) && TlbCoherent(s1) && ShootdownInv(c, s1) && NextStep(c, s1, s2, step)
    ensures TlbCoherent(s2)
  {
    hide Moves, SameOperation, ShootdownInv, StepAckShootdownIPI, StepHW, StepMapEnd, StepMapOpStart,
         StepMapStart, StepUnmapEnd, StepUnmapInitiateShootdown, StepUnmapOpEnd, StepUnmapOpStart, StepUnmapStart,
         StepViewStutter, TlbCoherent, WF;
    match step
    case HW(thread, hwStep) => TlbHW(c, s1, s2, thread, hwStep);
    case MapEnd(core, result) => TlbMapEnd(c, s1, s2, core, result);
    case UnmapOpStart(core, result) => TlbUnmapOpStart(c, s1, s2, core, result);
    case UnmapEnd(core) => TlbUnmapEnd(c, s1, s2, core);
    case _ => TlbOtherStep(c, s1, s2, step);
  }

  lemma ShootdownHW(c: Constants, s1: Variables, s2: Variables, thread: nat, step: Hardware.Step)
    requires RemovedInv(s1) && ShootdownInv(c, s1) && StepHW(c, s1, s2, thread, step)
    ensures ShootdownInv(c, s2)
  {
  }

  lemma ShootdownInitiated(c: Constants, s1: Variables, s2: Variables, core: Core)
    requires WF(c, s1) && StepUnmapInitiateShootdown(c, s1, s2, core)
    ensures ShootdownInv(c, s2)
  {
    assert forall other :: other in s2.cores && s2.cores[other].UnmapShootdownWaiting? ==> other == core;
  }

  lemma ShootdownMoved(c: Constants, s1: Variables, s2: Variables, mover: Option<Core>)
    requires ShootdownInv(c, s1) && Moves(c, s1, s2, mover)
    requires s2.shootdown == s1.shootdown && s2.hw.tlbs == s1.hw.tlbs
    requires mover.Some? ==> !s2.cores[mover.value].UnmapShootdownWaiting?
    ensures ShootdownInv(c, s2)
  {
  }

  lemma ShootdownSame(c: Constants, s1: Variables, s2: Variables, step: Step)
    requires NextStep(c, s1, s2, step)
    requires !step.UnmapInitiateShootdown? && !step.AckShootdownIPI?
    ensures s2.shootdown == s1.shootdown
    ensures Mover(c, step).Some? && Mover(c, step).value in s2.cores ==>
      !s2.cores[Mover(c, step).value].UnmapShootdownWaiting?
  {
  }

  lemma ShootdownAcked(c: Constants, s1: Variables, s2: Variables, core: Core)
    requires ShootdownInv(c, s1) && StepAckShootdownIPI(c, s1, s2, core)
    ensures ShootdownInv(c, s2)
  {
  }

  lemma ShootdownOtherStep(c: Constants, s1: Variables, s2: Variables, step: Step)
    requires ShootdownInv(c, s1) && NextStep(c, s1, s2, step)
    requires !step.HW? && !step.UnmapInitiateShootdown? && !step.AckShootdownIPI?
    ensures ShootdownInv(c, s2)
  {
    StepMoves(c, s1, s2, step);
    TlbsSame(c, s1, s2, step);
    ShootdownSame(c, s1, s2, step);
    hide NextStep, ShootdownInv, Mover;
    ShootdownMoved(c, s1, s2, Mover(c, step));
  }

  lemma ShootdownPreserved(c: Constants, s1: Variables, s2: Variables, step: Step)
    requires WF(c, s1) && RemovedInv(s1) && ShootdownInv(c, s1) && NextStep(c, s1, s2, step)
    ensures ShootdownInv(c, s2)
  {
    hide Moves, RemovedInv, ShootdownInv, StepAckShootdownIPI, StepHW, StepMapEnd, StepMapOpStart, StepMapStart,
         StepUnmapEnd, StepUnmapInitiateShootdown, StepUnmapOpEnd, StepUnmapOpStart, StepUnmapStart,
         StepViewStutter, WF;
    match step
    case HW(thread, hwStep) => ShootdownHW(c, s1, s2, thread, hwStep);
    case UnmapInitiateShootdown(core) => ShootdownInitiated(c, s1, s2, core);
    case AckShootdownIPI(core) => ShootdownAcked(c, s1, s2, core);
    case _ => ShootdownOtherStep(c, s1, s2, step);
  }

  // Virtual ranges of operations in flight.

  lemma RangesMoved(c: Constants, s1: Variables, s2: Variables, mover: Option<Core>)
    requires InflightRangesDisjoint(s1) && Moves(c, s1, s2, mover) && s2.Pt() == s1.Pt()
    requires mover.Some? ==> s2.cores[mover.value].Idle? || SameOperation(s1.cores[mover.value], s2.cores[mover.value])
    ensures InflightRangesDisjoint(s2)
  {
    forall core | core in s2.cores && !s2.cores[core].Idle?
      ensures core in s1.cores && !s1.cores[core].Idle?
      ensures ClaimedRange(s2.cores[core], s2.Pt()) == ClaimedRange(s1.cores[core], s1.Pt())
    {
    }
    hide ClaimedRange, Moves, Overlap, SameOperation;
  }

  /** Core `core` moved, or became idle, and what the others claim is as before. */
  lemma RangesSame(s1: Variables, s2: Variables, core: Core)
    requires InflightRangesDisjoint(s1) && core in s1.cores && !s1.cores[core].Idle?
    requires core in s2.cores && s2.cores == s1.cores[core := s2.cores[core]]
    requires forall other :: other in s2.cores && !s2.cores[other].Idle? ==>
      ClaimedRange(s2.cores[other], s2.Pt()) == ClaimedRange(s1.cores[other], s1.Pt())
    ensures InflightRangesDisjoint(s2)
  {
  }

  lemma RangesMapEnd(c: Constants, s1: Variables, s2: Variables, core: Core, result: Result<()>)
    requires WF(c, s1) && InflightRangesDisjoint(s1) && StepMapEnd(c, s1, s2, core, result)
    ensures InflightRangesDisjoint(s2)
  {
    // No other operation waits to unmap the new entry: its range would overlap the map's.
    forall other | other in s2.cores && !s2.cores[other].Idle?
      ensures ClaimedRange(s2.cores[other], s2.Pt()) == ClaimedRange(s1.cores[other], s1.Pt())
    {
      assert !Overlap(ClaimedRange(s1.cores[core], s1.Pt()), ClaimedRange(s1.cores[other], s1.Pt()));
    }
    RangesSame(s1, s2, core);
  }

  lemma RangesUnmapOpStart(c: Constants, s1: Variables, s2: Variables, core: Core, result: Result<()>)
    requires WF(c, s1) && InflightRangesDisjoint(s1) && StepUnmapOpStart(c, s1, s2, core, result)
    ensures InflightRangesDisjoint(s2)
  {
    forall other | other in s2.cores && !s2.cores[other].Idle?
      ensures ClaimedRange(s2.cores[other], s2.Pt()) == ClaimedRange(s1.cores[other], s1.Pt())
    {
      if other != core {
        assert !Overlap(ClaimedRange(s1.cores[core], s1.Pt()), ClaimedRange(s1.cores[other], s1.Pt()));
      }
    }
    RangesSame(s1, s2, core);
  }

  lemma RangesMapStart(c: Constants, s1: Variables, s2: Variables, thread: nat, vaddr: nat, pte: PTE)
    requires InflightRangesDisjoint(s1) && StepMapStart(c, s1, s2, thread, vaddr, pte) && s2.sound
    ensures InflightRangesDisjoint(s2)
  {
  }

  lemma RangesUnmapStart(c: Constants, s1: Variables, s2: Variables, thread: nat, vaddr: nat)
    requires InflightRangesDisjoint(s1) && StepUnmapStart(c, s1, s2, thread, vaddr) && s2.sound
    ensures InflightRangesDisjoint(s2)
  {
  }

  lemma RangesPreserved(c: Constants, s1: Variables, s2: Variables, step: Step)
    requires WF(c, s1) && InflightRangesDisjoint(s1) && NextStep(c, s1, s2, step) && s2.sound
    ensures InflightRangesDisjoint(s2)
  {
    hide InflightRangesDisjoint, Moves, SameOperation, StepAckShootdownIPI, StepHW, StepMapEnd, StepMapOpStart,
         StepMapStart, StepUnmapEnd, StepUnmapInitiateShootdown, StepUnmapOpEnd, StepUnmapOpStart, StepUnmapStart,
         StepViewStutter, WF;
    match step
    case MapStart(thread, vaddr, pte) => RangesMapStart(c, s1, s2, thread, vaddr, pte);
    case UnmapStart(thread, vaddr) => RangesUnmapStart(c, s1, s2, thread, vaddr);
    case MapEnd(core, result) => RangesMapEnd(c, s1, s2, core, result);
    case UnmapOpStart(core, result) => RangesUnmapOpStart(c, s1, s2, core, result);
    case _ =>
      PtSame(c, s1, s2, step);
      StepMoves(c, s1, s2, step);
      if Mover(c, step).Some? {
        OperationContinues(c, s1, s2, step);
      }
      RangesMoved(c, s1, s2, Mover(c, step));
  }

  // Physical frames.

  lemma FramesSubset(s1: Variables, s2: Variables)
    requires FramesDisjoint(s1)
    requires forall h :: HeldFrame(s2, h).Some? ==> HeldFrame(s1, h) == HeldFrame(s2, h)
    ensures FramesDisjoint(s2)
  {
  }

  lemma FramesMoved(c: Constants, s1: Variables, s2: Variables, mover: Option<Core>)
    requires FramesDisjoint(s1) && Moves(c, s1, s2, mover) && s2.Pt() == s1.Pt()
    requires mover.Some? ==>
      var st := s2.cores[mover.value];
      st.Idle? || st.UnmapWaiting? || SameOperation(s1.cores[mover.value], st)
    ensures FramesDisjoint(s2)
  {
    forall h | HeldFrame(s2, h).Some? ensures HeldFrame(s1, h) == HeldFrame(s2, h) {
    }
    FramesSubset(s1, s2);
  }

  lemma FramesMapStart(c: Constants, s1: Variables, s2: Variables, thread: nat, vaddr: nat, pte: PTE)
    requires FramesDisjoint(s1) && StepMapStart(c, s1, s2, thread, vaddr, pte) && s2.sound
    ensures FramesDisjoint(s2)
  {
    var core := c.threadCore[thread];
    forall h | h != Op(core) && HeldFrame(s2, h).Some?
      ensures HeldFrame(s2, h) == HeldFrame(s1, h) && !Overlap(HeldFrame(s2, h).value, pte.frame)
    {
      match h
      case Entry(va) => assert !Overlap(pte.frame, s1.Pt()[va].frame);
      case Op(other) => assert !Overlap(pte.frame, ClaimedFrame(s1.cores[other], s1.Pt()).value);
    }
  }

  /** A frame changes hands: MapEnd gives it to the page table, UnmapOpStart takes it out again. */
  lemma FramesHandedOver(s1: Variables, s2: Variables, from: Holder, to: Holder)
    requires FramesDisjoint(s1)
    requires HeldFrame(s2, from).None?
    requires HeldFrame(s2, to).Some? ==> HeldFrame(s2, to) == HeldFrame(s1, from)
    requires forall h :: h != to && HeldFrame(s2, h).Some? ==> HeldFrame(s1, h) == HeldFrame(s2, h)
    ensures FramesDisjoint(s2)
  {
  }

  lemma FramesMapEnd(c: Constants, s1: Variables, s2: Variables, core: Core, result: Result<()>)
    requires WF(c, s1) && FramesDisjoint(s1) && StepMapEnd(c, s1, s2, core, result)
    ensures FramesDisjoint(s2)
  {
    var vaddr, pte := s1.cores[core].vaddr, s1.cores[core].pte;
    assert vaddr in s1.Pt() ==> Overlap(Range(vaddr, pte), Range(vaddr, s1.Pt()[vaddr]));
    if result.Ok? {
      FramesHandedOver(s1, s2, Op(core), Entry(vaddr));
    } else {
      FramesSubset(s1, s2);
    }
  }

  lemma FramesUnmapOpStart(c: Constants, s1: Variables, s2: Variables, core: Core, result: Result<()>)
    requires WF(c, s1) && FramesDisjoint(s1) && StepUnmapOpStart(c, s1, s2, core, result)
    ensures FramesDisjoint(s2)
  {
    FramesHandedOver(s1, s2, Entry(s1.cores[core].vaddr), Op(core));
  }

  lemma UnmapStartWaits(c: Constants, s1: Variables, s2: Variables, thread: nat, vaddr: nat)
    requires StepUnmapStart(c, s1, s2, thread, vaddr)
    ensures thread in c.threadCore && c.threadCore[thread] in s2.cores && s2.cores[c.threadCore[thread]].UnmapWaiting?
  {
  }

  lemma FramesPreserved(c: Constants, s1: Variables, s2: Variables, step: Step)
    requires WF(c, s1) && FramesDisjoint(s1) && NextStep(c, s1, s2, step) && s2.sound
    ensures FramesDisjoint(s2)
  {
    hide FramesDisjoint, Moves, SameOperation, StepAckShootdownIPI, StepHW, StepMapEnd, StepMapOpStart,
         StepMapStart, StepUnmapEnd, StepUnmapInitiateShootdown, StepUnmapOpEnd, StepUnmapOpStart, StepUnmapStart,
         StepViewStutter, WF;
    match step
    case MapStart(thread, vaddr, pte) => FramesMapStart(c, s1, s2, thread, vaddr, pte);
    case MapEnd(core, result) => FramesMapEnd(c, s1, s2, core, result);
    case UnmapOpStart(core, result) => FramesUnmapOpStart(c, s1, s2, core, result);
    case UnmapStart(thread, vaddr) =>
      PtSame(c, s1, s2, step);
      StepMoves(c, s1, s2, step);
      UnmapStartWaits(c, s1, s2, thread, vaddr);
      FramesMoved(c, s1, s2, Mover(c, step));
    case _ =>
      PtSame(c, s1, s2, step);
      StepMoves(c, s1, s2, step);
      if Mover(c, step).Some? {
        OperationContinues(c, s1, s2, step);
      }
      FramesMoved(c, s1, s2, Mover(c, step));
  }

  lemma SoundBefore(c: Constants, s1: Variables, s2: Variables, step: Step)
    requires NextStep(c, s1, s2, step) && s2.sound
    ensures s1.sound
  {
  }

  lemma NextInv(c: Constants, s1: Variables, s2: Variables, step: Step)
    requires Inv(c, s1) && NextStep(c, s1, s2, step)
    ensures Inv(c, s2)
  {
    WFPreserved(c, s1, s2, step);
    PtInvPreserved(c, s1, s2, step);
    MapsValidPreserved(c, s1, s2, step);
    RemovedInvPreserved(c, s1, s2, step);
    TlbPreserved(c, s1, s2, step);
    ShootdownPreserved(c, s1, s2, step);
    if s2.sound {
      SoundBefore(c, s1, s2, step);
      RangesPreserved(c, s1, s2, step);
      FramesPreserved(c, s1, s2, step);
    }
  }
}
