/** Consequences of the invariant: what users of the kernel and its maintainers rely on. */
module OSProperties {
  import opened Definitions
  import opened OS
  import opened OSInvariant
  import Hardware
  import HighLevel
  import HighLevelInvariant
  import OSRefinement

  // ----- stale translations

  /** Every cached pair is in the page table or is what the one lock holder is removing. */
  lemma CachedPairs(c: Constants, s: Variables, core: Core, va: nat)
    requires Inv(c, s) && core in s.hw.tlbs && va in s.hw.tlbs[core]
    ensures va in s.Pt() ==> s.Pt()[va] == s.hw.tlbs[core][va]
    ensures va !in s.Pt() ==> exists holder ::
      && holder in s.cores && s.cores[holder].Removed()
      && s.cores[holder].vaddr == va && s.cores[holder].result == Ok(s.hw.tlbs[core][va])
      && forall other :: other in s.cores && s.cores[other].HoldsLock() ==> other == holder
  {
    var pte := s.hw.tlbs[core][va];
    if BeingRemoved(s, va, pte) {
      var holder :| holder in s.cores && Removes(s.cores[holder], va, pte);
      assert s.cores[holder].HoldsLock();
    }
  }

  /** Once an unmap returns, no core translates its address through an old entry any more. */
  lemma UnmapEndLeavesNoTrace(c: Constants, s1: Variables, s2: Variables, core: Core)
    requires Inv(c, s1) && StepUnmapEnd(c, s1, s2, core)
    ensures forall other :: other in s2.hw.tlbs ==> s1.cores[core].vaddr !in s2.hw.tlbs[other]
    ensures s1.cores[core].vaddr !in s2.Pt()
  {
  }

  /** The TLB invariant in the form printed beside the machine: it forgets the phase in which the
      entry is already gone but the removal is not yet done. */
  ghost predicate CachedAsPrinted(s: Variables) {
    forall core, va :: core in s.hw.tlbs && va in s.hw.tlbs[core] ==>
      || va in s.Pt()
      || exists holder :: holder in s.cores && PrintedPhase(s.cores[holder], va)
  }

  predicate PrintedPhase(st: CoreState, va: nat) {
    (st.UnmapOpDone? || st.UnmapShootdownWaiting?) && st.result.Ok? && st.vaddr == va
  }

  /** The printed form holds exactly while no executing removal finds its address cached. */
  lemma PrintedFormExactly(c: Constants, s: Variables)
    requires Inv(c, s)
    ensures CachedAsPrinted(s) <==>
      forall holder, core :: holder in s.cores && s.cores[holder].UnmapOpExecuting? && core in s.hw.tlbs ==>
        s.cores[holder].vaddr !in s.hw.tlbs[core]
  {
  }

  // A machine with one core, one thread and one page, for the run below.
  const ONE_CORE := Hardware.Core(0, 0)
  const ONE_PAGE := PTE(MemRegion(0, L3_ENTRY_SIZE), Flags(true, false, false))
  const SMALL := Constants(Hardware.Constants(1, 1, 512, 0xFFFF_FFFF), map[0 := ONE_CORE], 1)

  function SmallState(mapped: bool, cached: bool, st: CoreState): Variables {
    var page: map<nat, PTE> := map[0 := ONE_PAGE];
    var pt := if mapped then Hardware.PageTableMemory(page, 0) else Hardware.PageTableMemory(map[], 3);
    var tlbs: map<Core, map<nat, PTE>> := map[ONE_CORE := if cached then page else map[]];
    Variables(Hardware.Variables(seq(512, i => 0), tlbs, pt), map[ONE_CORE := st], Shootdown(0, {}), true)
  }

  lemma SmallMap()
    ensures NextStep(SMALL, SmallState(false, false, Idle), SmallState(false, false, MapWaiting(0, 0, ONE_PAGE)),
                     MapStart(0, 0, ONE_PAGE))
    ensures NextStep(SMALL, SmallState(false, false, MapWaiting(0, 0, ONE_PAGE)),
                     SmallState(false, false, MapExecuting(0, 0, ONE_PAGE)), MapOpStart(ONE_CORE))
    ensures NextStep(SMALL, SmallState(false, false, MapExecuting(0, 0, ONE_PAGE)), SmallState(true, false, Idle),
                     MapEnd(ONE_CORE, Ok(())))
  {
  }

  lemma SmallUnmap()
    ensures NextStep(SMALL, SmallState(true, false, Idle), SmallState(true, true, Idle),
                     HW(0, Hardware.TLBFill(0, ONE_PAGE, ONE_CORE)))
    ensures NextStep(SMALL, SmallState(true, true, Idle), SmallState(true, true, UnmapWaiting(0, 0)), UnmapStart(0, 0))
    ensures NextStep(SMALL, SmallState(true, true, UnmapWaiting(0, 0)),
                     SmallState(false, true, UnmapOpExecuting(0, 0, Ok(ONE_PAGE))), UnmapOpStart(ONE_CORE, Ok(())))
  {
  }

  /** A core that caches an entry just before another call removes it: the printed form fails. */
  lemma PrintedFormFails() returns (states: seq<Variables>, steps: seq<Step>)
    ensures ValidRun(SMALL, states, steps) && Init(SMALL, states[0])
    ensures !CachedAsPrinted(states[|steps|])
  {
    SmallMap();
    SmallUnmap();
    states := [SmallState(false, false, Idle),
               SmallState(false, false, MapWaiting(0, 0, ONE_PAGE)),
               SmallState(false, false, MapExecuting(0, 0, ONE_PAGE)),
               SmallState(true, false, Idle),
               SmallState(true, true, Idle),
               SmallState(true, true, UnmapWaiting(0, 0)),
               SmallState(false, true, UnmapOpExecuting(0, 0, Ok(ONE_PAGE)))];
    steps := [MapStart(0, 0, ONE_PAGE), MapOpStart(ONE_CORE), MapEnd(ONE_CORE, Ok(())),
              HW(0, Hardware.TLBFill(0, ONE_PAGE, ONE_CORE)), UnmapStart(0, 0), UnmapOpStart(ONE_CORE, Ok(()))];
    assert ValidRun(SMALL, states, steps) by { hide NextStep, SmallState; }
    assert forall core :: Hardware.ValidCore(SMALL.hw, core) <==> core == ONE_CORE;
    assert forall core :: core in states[0].cores <==> core == ONE_CORE;
    assert forall core :: core in states[0].hw.tlbs <==> core == ONE_CORE;
    assert Hardware.Init(SMALL.hw, states[0].hw);
    assert ConstantsValid(SMALL);
    var last := states[6];
    assert 0 in last.hw.tlbs[ONE_CORE] && 0 !in last.Pt();
    assert forall holder :: holder in last.cores ==> !PrintedPhase(last.cores[holder], 0);
  }

  // ----- separation

  /** In every state of a sound run, page table entries keep apart, calls in flight on different
      cores keep apart, and no physical frame is held twice. */
  lemma SoundRunsKeepApart(c: Constants, states: seq<Variables>, steps: seq<Step>, i: nat)
    requires ValidRun(c, states, steps) && Init(c, states[0]) && i < |states|
    ensures forall a, b :: a in states[i].Pt() && b in states[i].Pt() && a != b ==>
      !Overlap(Range(a, states[i].Pt()[a]), Range(b, states[i].Pt()[b]))
    ensures states[i].sound ==> InflightRangesDisjoint(states[i]) && FramesDisjoint(states[i])
  {
    OSRefinement.RunInv(c, states, steps, i);
  }

  /** What processes see of a sound run: finite memory that is exactly what the mappings reach, and no frame held
      twice. */
  lemma ProcessesSeeInvariant(c: Constants, states: seq<Variables>, steps: seq<Step>, i: nat)
    requires ValidRun(c, states, steps) && Init(c, states[0]) && i < |states|
    ensures states[i].sound ==>
      && HighLevelInvariant.Inv(InterpConstants(c), Interp(c, states[i]))
      && exists bound: nat :: HighLevelInvariant.AllBelow(Interp(c, states[i]).mem.Keys, bound)
  {
    hide EffectiveMappings, HighLevel.Init, HighLevel.ValidRun, HighLevelInvariant.AllBelow,
         HighLevelInvariant.Inv, Init, InterpConstants, InterpMem, InterpStep, InterpThread, Inv, NextStep;
    OSRefinement.RunRefines(c, states, steps);
    HighLevelInvariant.RunInv(InterpConstants(c), OSRefinement.InterpRun(c, states),
        OSRefinement.InterpSteps(states, steps), i);
  }

  // ----- progress

  /** The steps by which an unmap that has removed its entry comes to its end. */
  predicate Releasing(step: Step) {
    step.HW? || step.UnmapOpEnd? || step.UnmapInitiateShootdown? || step.AckShootdownIPI? || step.UnmapEnd?
  }

  lemma EmptyRun(c: Constants, s: Variables)
    ensures ValidRun(c, [s], [])
  {
  }

  lemma RunStep(c: Constants, s1: Variables, s2: Variables, step: Step, states: seq<Variables>, steps: seq<Step>)
    requires NextStep(c, s1, s2, step) && ValidRun(c, states, steps) && states[0] == s2
    ensures ValidRun(c, [s1] + states, [step] + steps)
  {
  }

  lemma RunThenStep(c: Constants, states: seq<Variables>, steps: seq<Step>, s: Variables, step: Step)
    requires ValidRun(c, states, steps) && NextStep(c, states[|steps|], s, step)
    ensures ValidRun(c, states + [s], steps + [step])
  {
  }

  lemma AckStep(c: Constants, s: Variables, core: Core) returns (s': Variables)
    requires Inv(c, s) && core in s.shootdown.openRequests
    requires core in s.hw.tlbs && s.shootdown.vaddr !in s.hw.tlbs[core] && s.shootdown.vaddr !in s.Pt()
    ensures NextStep(c, s, s', AckShootdownIPI(core)) && Inv(c, s') && s'.cores == s.cores
    ensures s'.shootdown.openRequests == s.shootdown.openRequests - {core}
  {
    hide Inv;
    s' := s.(shootdown := s.shootdown.(openRequests := s.shootdown.openRequests - {core}));
    NextInv(c, s, s', AckShootdownIPI(core));
  }

  lemma EvictStep(c: Constants, s: Variables, thread: nat, va: nat, core: Core) returns (s': Variables)
    requires Inv(c, s) && thread < c.threadNo && Hardware.ValidCore(c.hw, core)
    requires core in s.hw.tlbs && va in s.hw.tlbs[core]
    ensures NextStep(c, s, s', HW(thread, Hardware.TLBEvict(va, core))) && Inv(c, s')
    ensures s'.cores == s.cores && s'.shootdown == s.shootdown && s'.hw.pt == s.hw.pt
    ensures core in s'.hw.tlbs && va !in s'.hw.tlbs[core]
  {
    hide Inv;
    var tlb: map<nat, PTE> := s.hw.tlbs[core] - {va};
    s' := s.(hw := s.hw.(tlbs := s.hw.tlbs[core := tlb]));
    NextInv(c, s, s', HW(thread, Hardware.TLBEvict(va, core)));
  }

  lemma ShootdownFacts(c: Constants, s: Variables, holder: Core, core: Core)
    requires Inv(c, s) && holder in s.cores && s.cores[holder].UnmapShootdownWaiting?
    requires core in s.shootdown.openRequests
    ensures s.cores[holder].thread < c.threadNo
    ensures Hardware.ValidCore(c.hw, core) && core in s.hw.tlbs && s.shootdown.vaddr !in s.Pt()
  {
  }

  /** The waiting core's shootdown can be discharged by evicting and acknowledging core by core. */
  lemma {:induction false} DischargeShootdown(c: Constants, s: Variables, holder: Core)
    returns (states: seq<Variables>, steps: seq<Step>)
    requires Inv(c, s) && holder in s.cores && s.cores[holder].UnmapShootdownWaiting?
    ensures ValidRun(c, states, steps) && states[0] == s
    ensures |steps| <= 2 * |s.shootdown.openRequests|
    ensures states[|steps|].cores == s.cores && states[|steps|].shootdown.openRequests == {}
    ensures forall step: Step | step in steps :: Releasing(step)
    decreases |s.shootdown.openRequests|
  {
    hide Inv, NextStep;
    if s.shootdown.openRequests == {} {
      EmptyRun(c, s);
      states, steps := [s], [];
    } else {
      var core :| core in s.shootdown.openRequests;
      ShootdownFacts(c, s, holder, core);
      var evict := s.shootdown.vaddr in s.hw.tlbs[core];
      var thread, va, s1 := s.cores[holder].thread, s.shootdown.vaddr, s;
      if evict {
        s1 := EvictStep(c, s, thread, va, core);
      }
      var s2 := AckStep(c, s1, core);
      states, steps := DischargeShootdown(c, s2, holder);
      RunStep(c, s1, s2, AckShootdownIPI(core), states, steps);
      states, steps := [s1] + states, [AckShootdownIPI(core)] + steps;
      if evict {
        RunStep(c, s, s1, HW(thread, Hardware.TLBEvict(va, core)), states, steps);
        states, steps := [s] + states, [HW(thread, Hardware.TLBEvict(va, core))] + steps;
      }
    }
  }

  lemma {:induction false} SubsetSize(a: set<Core>, b: set<Core>)
    requires a <= b
    ensures |a| <= |b|
  {
    if a != {} {
      var x :| x in a;
      SubsetSize(a - {x}, b - {x});
    }
  }

  lemma EndStep(c: Constants, s: Variables, holder: Core) returns (s': Variables)
    requires CoreIn(c, s, holder)
    requires || (s.cores[holder].UnmapShootdownWaiting? && s.shootdown.openRequests == {})
             || (s.cores[holder].UnmapOpDone? && s.cores[holder].result.Err?)
    ensures NextStep(c, s, s', UnmapEnd(holder)) && s'.cores == s.cores[holder := Idle]
  {
    s' := s.(cores := s.cores[holder := Idle]);
  }

  lemma CoresFacts(c: Constants, s: Variables)
    requires Inv(c, s)
    ensures forall core :: core in s.cores ==> CoreIn(c, s, core)
    ensures forall core :: core in s.cores && s.cores[core].HoldsLock() ==> OSRefinement.LockHeldBy(s, core)
    ensures |s.shootdown.openRequests| <= c.hw.numaNo * c.hw.coreNo
  {
    SubsetSize(s.shootdown.openRequests, Hardware.ValidCores(c.hw));
  }

  lemma ReleaseAfterShootdown(c: Constants, s: Variables, holder: Core)
    returns (states: seq<Variables>, steps: seq<Step>)
    requires Inv(c, s) && holder in s.cores && s.cores[holder].UnmapShootdownWaiting?
    ensures ValidRun(c, states, steps) && states[0] == s
    ensures |steps| <= 2 * (c.hw.numaNo * c.hw.coreNo) + 1
    ensures states[|steps|].cores == s.cores[holder := Idle]
    ensures forall step: Step | step in steps :: Releasing(step)
  {
    hide Inv, NextStep;
    CoresFacts(c, s);
    states, steps := DischargeShootdown(c, s, holder);
    assert CoreIn(c, s, holder);
    var s' := EndStep(c, states[|steps|], holder);
    RunThenStep(c, states, steps, s', UnmapEnd(holder));
    states, steps := states + [s'], steps + [UnmapEnd(holder)];
  }

  lemma InitiateStep(c: Constants, s: Variables, holder: Core) returns (s': Variables)
    requires Inv(c, s) && CoreIn(c, s, holder) && s.cores[holder].UnmapOpDone? && s.cores[holder].result.Ok?
    ensures NextStep(c, s, s', UnmapInitiateShootdown(holder)) && Inv(c, s')
    ensures s'.cores.Keys == s.cores.Keys && s'.cores[holder].UnmapShootdownWaiting?
    ensures s'.cores[holder := Idle] == s.cores[holder := Idle]
  {
    hide Inv;
    var st := s.cores[holder];
    s' := s.(cores := s.cores[holder := UnmapShootdownWaiting(st.thread, st.vaddr, st.result)],
             shootdown := Shootdown(st.vaddr, Hardware.ValidCores(c.hw)));
    NextInv(c, s, s', UnmapInitiateShootdown(holder));
  }

  lemma ReleaseAfterRemoval(c: Constants, s: Variables, holder: Core) returns (states: seq<Variables>, steps: seq<Step>)
    requires Inv(c, s) && holder in s.cores && s.cores[holder].UnmapOpDone?
    ensures ValidRun(c, states, steps) && states[0] == s
    ensures |steps| <= 2 * (c.hw.numaNo * c.hw.coreNo) + 2
    ensures states[|steps|].cores == s.cores[holder := Idle]
    ensures forall step: Step | step in steps :: Releasing(step)
  {
    hide Inv, NextStep;
    CoresFacts(c, s);
    if s.cores[holder].result.Err? {
      EmptyRun(c, s);
      var s' := EndStep(c, s, holder);
      RunThenStep(c, [s], [], s', UnmapEnd(holder));
      states, steps := [s] + [s'], [] + [UnmapEnd(holder)];
    } else {
      var s' := InitiateStep(c, s, holder);
      states, steps := ReleaseAfterShootdown(c, s', holder);
      RunStep(c, s, s', UnmapInitiateShootdown(holder), states, steps);
      states, steps := [s] + states, [UnmapInitiateShootdown(holder)] + steps;
    }
  }

  lemma OpEndStep(c: Constants, s: Variables, holder: Core) returns (s': Variables)
    requires Inv(c, s) && CoreIn(c, s, holder) && s.cores[holder].UnmapOpExecuting?
    ensures NextStep(c, s, s', UnmapOpEnd(holder)) && Inv(c, s')
    ensures s'.cores.Keys == s.cores.Keys && s'.cores[holder].UnmapOpDone?
    ensures s'.cores[holder := Idle] == s.cores[holder := Idle]
  {
    hide Inv;
    var st := s.cores[holder];
    s' := s.(cores := s.cores[holder := UnmapOpDone(st.thread, st.vaddr, st.result)]);
    NextInv(c, s, s', UnmapOpEnd(holder));
  }

  lemma MapEndStep(c: Constants, s: Variables, holder: Core) returns (s': Variables, step: Step)
    requires CoreIn(c, s, holder) && s.cores[holder].MapExecuting?
    ensures NextStep(c, s, s', step) && s'.cores == s.cores[holder := Idle]
    ensures step.MapEnd? && s'.sound == s.sound && s'.hw.pt.availablePages == s.hw.pt.availablePages
  {
    var vaddr, pte := s.cores[holder].vaddr, s.cores[holder].pte;
    var fails := OverlapsExistingVmem(s.Pt(), vaddr, pte);
    var pt := if fails then s.hw.pt else s.hw.pt.(interp := s.Pt()[vaddr := pte]);
    s' := s.(hw := s.hw.(pt := pt), cores := s.cores[holder := Idle]);
    step := MapEnd(holder, if fails then Err else Ok(()));
  }

  lemma ReleaseRun(c: Constants, s: Variables, holder: Core) returns (states: seq<Variables>, steps: seq<Step>)
    requires Inv(c, s) && holder in s.cores && s.cores[holder].HoldsLock()
    ensures ValidRun(c, states, steps) && states[0] == s
    ensures |steps| <= 2 * (c.hw.numaNo * c.hw.coreNo) + 3
    ensures states[|steps|].cores == s.cores[holder := Idle]
    ensures !s.cores[holder].MapExecuting? ==> forall step: Step | step in steps :: Releasing(step)
  {
    hide Inv, NextStep;
    CoresFacts(c, s);
    match s.cores[holder]
    case MapExecuting(_, _, _) =>
      EmptyRun(c, s);
      var s', step := MapEndStep(c, s, holder);
      RunThenStep(c, [s], [], s', step);
      states, steps := [s] + [s'], [] + [step];
    case UnmapOpExecuting(_, _, _) =>
      var s' := OpEndStep(c, s, holder);
      states, steps := ReleaseAfterRemoval(c, s', holder);
      RunStep(c, s, s', UnmapOpEnd(holder), states, steps);
      states, steps := [s] + states, [UnmapOpEnd(holder)] + steps;
    case UnmapOpDone(_, _, _) =>
      states, steps := ReleaseAfterRemoval(c, s, holder);
    case UnmapShootdownWaiting(_, _, _) =>
      states, steps := ReleaseAfterShootdown(c, s, holder);
  }

  /** From every reachable state the holder of the kernel lock can get to return, within a number
      of steps that is linear in the number of cores, while all other cores stay as they are. */
  lemma LockCanBeReleased(c: Constants, s: Variables, holder: Core) returns (states: seq<Variables>, steps: seq<Step>)
    requires Inv(c, s) && holder in s.cores && s.cores[holder].HoldsLock()
    ensures ValidRun(c, states, steps) && states[0] == s
    ensures |steps| <= 2 * (c.hw.numaNo * c.hw.coreNo) + 3
    ensures states[|steps|].cores == s.cores[holder := Idle]
    ensures LockFree(c, states[|steps|])
  {
    states, steps := ReleaseRun(c, s, holder) by { hide Inv, NextStep; }
    CoresFacts(c, s);
  }
}
