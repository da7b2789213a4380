/** The calls of the page table, made by a core of the machine: what memory goes through during a call
    is a run of the machine in which that core holds the lock. */
module PageTableSteps {
  import opened Definitions
  import opened PageTableImpl
  import FlatMap
  import H = Hardware
  import HighLevel
  import MmuWalk
  import OS
  import PageTables
  import S = PageTableSpec
  import Words

  /** What the machine sees of a state of memory: the hardware's walk, and how many pages are free. */
  ghost function Seen(width: nat, root: nat, s: Snapshot): H.PageTableMemory {
    H.PageTableMemory(MmuWalk.InterpMemory(MemoryOf(width, root, s.pages)), |s.free|)
  }

  ghost function SeenNow(pt: PageTableMemory): H.PageTableMemory
    reads pt
  {
    Seen(pt.width, pt.cr3, Snapshot(pt.pages, pt.free))
  }

  lemma SeenShown(width: nat, root: nat, s: Snapshot, mappings: map<nat, PTE>)
    requires Shows(width, root, s.pages, mappings)
    ensures Seen(width, root, s).interp == mappings
  {
    MmuWalk.InterpMemoryAgrees(MemoryOf(width, root, s.pages));
  }

  lemma SeenMappings(pt: PageTableMemory)
    ensures SeenNow(pt).interp == pt.Mappings()
  {
    MmuWalk.InterpMemoryAgrees(pt.Mem());
  }

  /** The machine with another page table memory, and `core` somewhere else. */
  function Moved(s: OS.Variables, core: H.Core, st: OS.CoreState, pt: H.PageTableMemory): OS.Variables {
    s.(hw := s.hw.(pt := pt), cores := s.cores[core := st])
  }

  // ----- a map

  ghost function MapRun(s: OS.Variables, core: H.Core, pts: seq<H.PageTableMemory>): seq<OS.Variables>
    requires core in s.cores && s.cores[core].MapWaiting?
  {
    var st := s.cores[core];
    [s] + seq(|pts|, (k: nat) requires k < |pts| =>
      Moved(s, core, if k < |pts| - 1 then OS.MapExecuting(st.thread, st.vaddr, st.pte) else OS.Idle, pts[k]))
  }

  function MapSteps(core: H.Core, n: nat, result: Result<()>): seq<OS.Step> {
    [OS.MapOpStart(core)] + seq(n, (k: nat) => if k < n - 1 then OS.ViewStutter(core) else OS.MapEnd(core, result))
  }

  /** Taking the lock, writes that the hardware does not see, and then the write that maps, or none. */
  lemma MapIsRun(c: OS.Constants, s: OS.Variables, core: H.Core, pts: seq<H.PageTableMemory>, result: Result<()>)
    requires OS.CoreIn(c, s, core) && s.cores[core].MapWaiting? && OS.LockFree(c, s)
    requires 2 <= |pts| && pts[0] == s.hw.pt
    requires forall k: nat | k < |pts| - 1 :: pts[k].interp == s.Pt()
    requires S.StepMapEnd(pts[|pts| - 2], pts[|pts| - 1], s.cores[core].vaddr, s.cores[core].pte, result)
    ensures OS.ValidRun(c, MapRun(s, core, pts), MapSteps(core, |pts| - 1, result))
  {
    var run, steps := MapRun(s, core, pts), MapSteps(core, |pts| - 1, result);
    hide S.StepMapEnd, OS.LockFree;
    forall i: nat | i < |steps| ensures OS.NextStep(c, run[i], run[i + 1], steps[i]) {
      if i == 0 {
      } else if i < |steps| - 1 {
        assert steps[i] == OS.ViewStutter(core);
      } else {
        assert steps[i] == OS.MapEnd(core, result);
      }
    }
  }

  // ----- an unmap

  function UnmapState(st: OS.CoreState, result: Result<PTE>, done: bool): OS.CoreState
    requires st.UnmapWaiting?
  {
    if done then OS.UnmapOpDone(st.thread, st.vaddr, result) else OS.UnmapOpExecuting(st.thread, st.vaddr, result)
  }

  ghost function UnmapRun(s: OS.Variables, core: H.Core, pts: seq<H.PageTableMemory>,
      result: Result<PTE>): seq<OS.Variables>
    requires core in s.cores && s.cores[core].UnmapWaiting? && 0 < |pts|
  {
    [s] + seq(|pts|, (k: nat) requires k < |pts| => Moved(s, core, UnmapState(s.cores[core], result, false), pts[k]))
    + [Moved(s, core, UnmapState(s.cores[core], result, true), pts[|pts| - 1])]
  }

  function UnmapSteps(core: H.Core, n: nat, result: Result<PTE>): seq<OS.Step> {
    [OS.UnmapOpStart(core, if result.Ok? then Ok(()) else Err)] + seq(n, (k: nat) => OS.ViewStutter(core))
    + [OS.UnmapOpEnd(core)]
  }

  /** Taking the lock with the write that unmaps, if any, writes that the hardware does not see, and the report. */
  lemma UnmapIsRun(c: OS.Constants, s: OS.Variables, core: H.Core, pts: seq<H.PageTableMemory>, result: Result<PTE>)
    requires OS.CoreIn(c, s, core) && s.cores[core].UnmapWaiting? && OS.LockFree(c, s) && 0 < |pts|
    requires forall k: nat | k < |pts| :: pts[k].interp == s.Pt() - {s.cores[core].vaddr}
    requires result == if s.cores[core].vaddr in s.Pt() then Ok(s.Pt()[s.cores[core].vaddr]) else Err
    ensures OS.ValidRun(c, UnmapRun(s, core, pts, result), UnmapSteps(core, |pts| - 1, result))
  {
    var run, steps := UnmapRun(s, core, pts, result), UnmapSteps(core, |pts| - 1, result);
    hide OS.LockFree;
    forall i: nat | i < |steps| ensures OS.NextStep(c, run[i], run[i + 1], steps[i]) {
      if i == 0 {
        assert result.Err? ==> s.Pt() - {s.cores[core].vaddr} == s.Pt();
      } else if i < |steps| - 1 {
        assert steps[i] == OS.ViewStutter(core);
      } else {
        assert steps[i] == OS.UnmapOpEnd(core);
      }
    }
  }

  // ----- whole calls

  /** What the machine sees of the states of memory from number `from` on. */
  ghost function SeenFrom(width: nat, root: nat, states: seq<Snapshot>, from: nat): seq<H.PageTableMemory>
    requires from <= |states|
  {
    seq(|states| - from, (k: nat) requires k < |states| - from => Seen(width, root, states[from + k]))
  }

  /** What the machine lets a process ask for is what the page table accepts. */
  lemma EnabledIsAccepted(width: nat, vaddr: nat, pte: PTE)
    requires HighLevel.MapEnabled(Words.Pow2(width) - 1, vaddr, pte)
    ensures Accepted(width, 0, 0, vaddr, pte)
  {
    assert PageTables.EntrySize(1) == L1_ENTRY_SIZE && PageTables.EntrySize(2) == L2_ENTRY_SIZE
           && PageTables.EntrySize(3) == L3_ENTRY_SIZE;
    PageTables.RootCovers(vaddr);
    hide Words.Pow2;
  }

  lemma MapStatesSeen(width: nat, root: nat, states: seq<Snapshot>, from: nat, before: map<nat, PTE>, vaddr: nat,
      pte: PTE)
    requires 0 < from && from < |states| && Shows(width, root, states[from - 1].pages, before)
    requires OneWriteShows(width, root, states, from, before, before[vaddr := pte])
    ensures forall k: nat | from - 1 <= k < |states| - 1 :: Seen(width, root, states[k]).interp == before
    ensures Seen(width, root, states[|states| - 1]).interp == before[vaddr := pte]
  {
    hide Shows, Seen;
    forall k: nat | from - 1 <= k < |states| - 1 ensures Seen(width, root, states[k]).interp == before {
      SeenShown(width, root, states[k], before);
    }
    SeenShown(width, root, states[|states| - 1], before[vaddr := pte]);
  }

  lemma UnmapStatesSeen(width: nat, root: nat, states: seq<Snapshot>, from: nat, after: map<nat, PTE>)
    requires AllShow(width, root, states, from, after)
    ensures forall k: nat | from <= k < |states| :: Seen(width, root, states[k]).interp == after
  {
    hide Shows, Seen;
    forall k: nat | from <= k < |states| ensures Seen(width, root, states[k]).interp == after {
      SeenShown(width, root, states[k], after);
    }
  }

  lemma StatesKept(before: seq<Snapshot>, after: seq<Snapshot>)
    requires IsPrefix(before, after) && 0 < |before|
    ensures after[|before| - 1] == before[|before| - 1]
  {
    assert after[..|before|][|before| - 1] == after[|before| - 1];
  }

  /** A map call by `core`, from s on: the core takes the lock, sees every state that memory went through after
      number n0, with the pages free then, and returns the call's answer with the memory `now`. */
  ghost predicate MapRan(c: OS.Constants, s: OS.Variables, core: H.Core, pts: seq<H.PageTableMemory>,
                         now: H.PageTableMemory, ok: bool, run: seq<OS.Variables>, steps: seq<OS.Step>)
  {
    && OS.ValidRun(c, run, steps)
    && core in s.cores && s.cores[core].MapWaiting?
    && run == MapRun(s, core, if ok then pts else [s.hw.pt, s.hw.pt])
    && 3 <= |run| && steps == MapSteps(core, |run| - 2, if ok then Ok(()) else Err)
    && run[0] == s && run[|steps|] == Moved(s, core, OS.Idle, now)
  }

  /** An unmap call by `core`: the core takes the lock with the write that removes the entry, if there is one. */
  ghost predicate UnmapRan(c: OS.Constants, s: OS.Variables, core: H.Core, pts: seq<H.PageTableMemory>,
                           now: H.PageTableMemory, result: Result<PTE>, run: seq<OS.Variables>, steps: seq<OS.Step>)
  {
    && OS.ValidRun(c, run, steps)
    && core in s.cores && s.cores[core].UnmapWaiting? && (result.Ok? ==> 0 < |pts|)
    && run == UnmapRun(s, core, if result.Ok? then pts else [s.hw.pt], result)
    && 2 <= |steps| && steps == UnmapSteps(core, |steps| - 2, result)
    && run[0] == s && run[|steps|] == Moved(s, core, UnmapState(s.cores[core], result, true), now)
  }

  lemma MapRefused(c: OS.Constants, s: OS.Variables, core: H.Core, pts: seq<H.PageTableMemory>)
    requires OS.CoreIn(c, s, core) && s.cores[core].MapWaiting? && OS.LockFree(c, s)
    requires OverlapsExistingVmem(s.Pt(), s.cores[core].vaddr, s.cores[core].pte)
    ensures MapRan(c, s, core, pts, s.hw.pt, false, MapRun(s, core, [s.hw.pt, s.hw.pt]), MapSteps(core, 1, Err))
  {
    hide OS.ValidRun, OS.LockFree, OverlapsExistingVmem, Moved;
    MapIsRun(c, s, core, [s.hw.pt, s.hw.pt], Err);
  }

  lemma MapAnswered(c: OS.Constants, s: OS.Variables, core: H.Core, width: nat, root: nat,
                    states0: seq<Snapshot>, states: seq<Snapshot>, pts: seq<H.PageTableMemory>)
    requires OS.CoreIn(c, s, core) && s.cores[core].MapWaiting? && OS.LockFree(c, s)
    requires !OverlapsExistingVmem(s.Pt(), s.cores[core].vaddr, s.cores[core].pte)
    requires IsPrefix(states0, states) && 0 < |states0| && s.hw.pt == Seen(width, root, states0[|states0| - 1])
    requires Shows(width, root, states0[|states0| - 1].pages, s.Pt())
    requires OneWriteShows(width, root, states, |states0|, s.Pt(), s.Pt()[s.cores[core].vaddr := s.cores[core].pte])
    requires pts == SeenFrom(width, root, states, |states0| - 1)
    ensures 2 <= |pts|
    ensures MapRan(c, s, core, pts, Seen(width, root, states[|states| - 1]), true,
                   MapRun(s, core, pts), MapSteps(core, |pts| - 1, Ok(())))
  {
    assert core in s.cores;
    hide Shows, Seen, OS.ValidRun, OS.LockFree, OverlapsExistingVmem, OS.CoreIn, Moved, IsPrefix;
    StatesKept(states0, states);
    MapStatesSeen(width, root, states, |states0|, s.Pt(), s.cores[core].vaddr, s.cores[core].pte);
    MapIsRun(c, s, core, pts, Ok(()));
  }

  lemma UnmapAnswered(c: OS.Constants, s: OS.Variables, core: H.Core, width: nat, root: nat,
                      states0: seq<Snapshot>, states: seq<Snapshot>, pts: seq<H.PageTableMemory>, result: Result<PTE>)
    requires OS.CoreIn(c, s, core) && s.cores[core].UnmapWaiting? && OS.LockFree(c, s)
    requires s.cores[core].vaddr in s.Pt() && result == Ok(s.Pt()[s.cores[core].vaddr]) && |states0| < |states|
    requires AllShow(width, root, states, |states0|, s.Pt() - {s.cores[core].vaddr})
    requires pts == SeenFrom(width, root, states, |states0|)
    ensures 0 < |pts|
    ensures UnmapRan(c, s, core, pts, Seen(width, root, states[|states| - 1]), result,
                     UnmapRun(s, core, pts, result), UnmapSteps(core, |pts| - 1, result))
  {
    UnmapStatesSeen(width, root, states, |states0|, s.Pt() - {s.cores[core].vaddr});
    hide Shows, Seen, OS.ValidRun, OS.LockFree, OS.CoreIn, Moved;
    UnmapIsRun(c, s, core, pts, result);
  }

  lemma UnmapRefused(c: OS.Constants, s: OS.Variables, core: H.Core, pts: seq<H.PageTableMemory>)
    requires OS.CoreIn(c, s, core) && s.cores[core].UnmapWaiting? && OS.LockFree(c, s)
    requires s.cores[core].vaddr !in s.Pt()
    ensures UnmapRan(c, s, core, pts, s.hw.pt, Err, UnmapRun(s, core, [s.hw.pt], Err), UnmapSteps(core, 0, Err))
  {
    assert s.Pt() - {s.cores[core].vaddr} == s.Pt();
    hide OS.ValidRun, OS.LockFree, OS.CoreIn, Moved;
    UnmapIsRun(c, s, core, [s.hw.pt], Err);
  }

  lemma MapCall(c: OS.Constants, s: OS.Variables, core: H.Core, vaddr: nat, pte: PTE, width: nat, root: nat,
                states0: seq<Snapshot>, states: seq<Snapshot>, now: Snapshot, ok: bool)
    returns (run: seq<OS.Variables>, steps: seq<OS.Step>)
    requires OS.CoreIn(c, s, core) && s.cores[core].MapWaiting? && OS.LockFree(c, s)
    requires s.cores[core].vaddr == vaddr && s.cores[core].pte == pte
    requires ok <==> FlatMap.MapFrame(s.Pt(), vaddr, pte).Ok?
    requires 0 < |states0| <= |states| && s.hw.pt == Seen(width, root, states0[|states0| - 1])
    requires Shows(width, root, states0[|states0| - 1].pages, s.Pt()) && IsLast(states, now)
    requires ok ==> IsPrefix(states0, states)
    requires ok ==> OneWriteShows(width, root, states, |states0|, s.Pt(), FlatMap.MapFrame(s.Pt(), vaddr, pte).value)
    requires !ok ==> states == states0
    ensures MapRan(c, s, core, SeenFrom(width, root, states, |states0| - 1), Seen(width, root, now), ok, run, steps)
  {
    FlatMap.MapFrameIs(s.Pt(), vaddr, pte);
    var pts := SeenFrom(width, root, states, |states0| - 1);
    hide Shows, Seen, OS.CoreIn, OS.LockFree, OneWriteShows, OverlapsExistingVmem, IsPrefix, MapRan, MapRun, MapSteps;
    if ok {
      MapAnswered(c, s, core, width, root, states0, states, pts);
      run, steps := MapRun(s, core, pts), MapSteps(core, |pts| - 1, Ok(()));
    } else {
      MapRefused(c, s, core, pts);
      run, steps := MapRun(s, core, [s.hw.pt, s.hw.pt]), MapSteps(core, 1, Err);
    }
  }

  lemma UnmapCall(c: OS.Constants, s: OS.Variables, core: H.Core, vaddr: nat, width: nat, root: nat,
                  states0: seq<Snapshot>, states: seq<Snapshot>, now: Snapshot, ok: bool)
    returns (run: seq<OS.Variables>, steps: seq<OS.Step>)
    requires OS.CoreIn(c, s, core) && s.cores[core].UnmapWaiting? && OS.LockFree(c, s) && s.cores[core].vaddr == vaddr
    requires ok <==> FlatMap.Unmap(s.Pt(), vaddr).Ok?
    requires 0 < |states0| <= |states| && s.hw.pt == Seen(width, root, states0[|states0| - 1]) && IsLast(states, now)
    requires ok ==> |states0| < |states|
    requires ok ==> AllShow(width, root, states, |states0|, FlatMap.Unmap(s.Pt(), vaddr).value)
    requires !ok ==> states == states0
    ensures ok <==> vaddr in s.Pt()
    ensures UnmapRan(c, s, core, SeenFrom(width, root, states, |states0|), Seen(width, root, now),
                     if ok then Ok(s.Pt()[vaddr]) else Err, run, steps)
  {
    var pts := SeenFrom(width, root, states, |states0|);
    hide Shows, Seen, OS.CoreIn, OS.LockFree, AllShow, UnmapRan, UnmapRun, UnmapSteps;
    if ok {
      var result := Ok(s.Pt()[vaddr]);
      UnmapAnswered(c, s, core, width, root, states0, states, pts, result);
      run, steps := UnmapRun(s, core, pts, result), UnmapSteps(core, |pts| - 1, result);
    } else {
      UnmapRefused(c, s, core, pts);
      run, steps := UnmapRun(s, core, [s.hw.pt], Err), UnmapSteps(core, 0, Err);
    }
  }

  /** The object at rest: the last state on record is the present one. */
  lemma Now(pt: PageTableMemory)
    requires pt.Valid()
    ensures 0 < |pt.states| && pt.states[|pt.states| - 1] == Snapshot(pt.pages, pt.free)
    ensures IsLast(pt.states, Snapshot(pt.pages, pt.free))
    ensures SeenNow(pt) == Seen(pt.width, pt.cr3, Snapshot(pt.pages, pt.free)) && SeenNow(pt).interp == pt.Mappings()
    ensures Shows(pt.width, pt.cr3, pt.pages, pt.Mappings())
  {
    SeenMappings(pt);
    BuiltShows(pt.width, pt.cr3, pt.pages, pt.places);
    hide Shows, Built;
  }

  lemma Present(c: OS.Constants, s: OS.Variables, core: H.Core)
    requires OS.CoreIn(c, s, core)
    ensures core in s.cores && s.Pt() == s.hw.pt.interp
  {
  }

  lemma MaxIsWidth(maxPhyAddr: nat, width: nat, vaddr: nat, pte: PTE)
    requires maxPhyAddr + 1 == Words.Pow2(width) && HighLevel.MapEnabled(maxPhyAddr, vaddr, pte)
    ensures Accepted(width, 0, 0, vaddr, pte)
  {
    hide Words.Pow2, Accepted, HighLevel.MapEnabled;
    EnabledIsAccepted(width, vaddr, pte);
  }

  lemma EnabledIsInside(vaddr: nat)
    requires HighLevel.UnmapEnabled(vaddr)
    ensures vaddr < MAX_BASE
  {
  }

  // ----- requests that wait are such that the calls accept them

  ghost predicate RequestsEnabled(c: OS.Constants, s: OS.Variables) {
    forall core | core in s.cores ::
      && (s.cores[core].Mapping() ==> HighLevel.MapEnabled(c.hw.maxPhyAddr, s.cores[core].vaddr, s.cores[core].pte))
      && (s.cores[core].UnmapWaiting? ==> HighLevel.UnmapEnabled(s.cores[core].vaddr))
  }

  lemma RequestsKept(c: OS.Constants, s1: OS.Variables, s2: OS.Variables, step: OS.Step)
    requires RequestsEnabled(c, s1) && OS.NextStep(c, s1, s2, step)
    ensures RequestsEnabled(c, s2)
  {
    hide HighLevel.MapEnabled, HighLevel.UnmapEnabled, OS.MapSound, OS.UnmapSound, OS.LockFree, H.NextStep,
         S.StepMapEnd, S.StepUnmapStart;
  }

  /** In every state of every run, what a core waits with meets what `MapOnCore` and `UnmapOnCore` ask of a request. */
  lemma {:induction false} RunRequestsEnabled(c: OS.Constants, states: seq<OS.Variables>, steps: seq<OS.Step>, i: nat)
    requires OS.ValidRun(c, states, steps) && OS.Init(c, states[0]) && i < |states|
    ensures RequestsEnabled(c, states[i])
  {
    if 0 < i {
      RunRequestsEnabled(c, states, steps, i - 1);
      hide RequestsEnabled, OS.NextStep;
      RequestsKept(c, states[i - 1], states[i], steps[i - 1]);
    }
  }

  // ----- free pages during a call

  /** Ever fewer pages are free, and in the end at most three fewer. */
  predicate PagesFall(pts: seq<H.PageTableMemory>) {
    && (forall j: nat, k: nat | j <= k < |pts| :: pts[k].availablePages <= pts[j].availablePages)
    && (0 < |pts| ==> pts[0].availablePages <= pts[|pts| - 1].availablePages + 3)
  }

  /** From `free` on, ever more pages are free. */
  predicate PagesGrow(free: nat, pts: seq<H.PageTableMemory>) {
    && (forall k: nat | k < |pts| :: free <= pts[k].availablePages)
    && forall j: nat, k: nat | j <= k < |pts| :: pts[j].availablePages <= pts[k].availablePages
  }

  lemma {:induction false} NoLarger(a: set<nat>, b: set<nat>)
    requires a <= b
    ensures |a| <= |b|
  {
    if a != {} {
      var x :| x in a;
      NoLarger(a - {x}, b - {x});
    }
  }

  lemma {:induction false} FreeFallsFar(states: seq<Snapshot>, from: nat, j: nat, k: nat)
    requires 0 < from && FreeFalls(states, from) && from - 1 <= j <= k < |states|
    ensures states[k].free <= states[j].free
  {
    if j < k {
      FreeFallsFar(states, from, j, k - 1);
      assert states[k].free <= states[k - 1].free;
    }
  }

  lemma FreeSeen(width: nat, root: nat, states: seq<Snapshot>, from: nat, k: nat)
    requires from + k < |states|
    ensures SeenFrom(width, root, states, from)[k].availablePages == |states[from + k].free|
  {
    hide MmuWalk.InterpMemory, MemoryOf;
    assert SeenFrom(width, root, states, from)[k] == Seen(width, root, states[from + k]);
  }

  lemma FallSeen(width: nat, root: nat, states: seq<Snapshot>, from: nat)
    requires 0 < from <= |states| && FreeFalls(states, from)
    requires |states[from - 1].free| <= |states[|states| - 1].free| + 3
    ensures PagesFall(SeenFrom(width, root, states, from - 1))
  {
    var pts := SeenFrom(width, root, states, from - 1);
    FreeSeen(width, root, states, from - 1, 0);
    FreeSeen(width, root, states, from - 1, |pts| - 1);
    hide SeenFrom;
    forall j: nat, k: nat | j <= k < |pts| ensures pts[k].availablePages <= pts[j].availablePages {
      FreeFallsFar(states, from, from - 1 + j, from - 1 + k);
      FreeSeen(width, root, states, from - 1, j);
      FreeSeen(width, root, states, from - 1, k);
      NoLarger(states[from - 1 + k].free, states[from - 1 + j].free);
    }
  }

  lemma {:induction false} FreeGrowsFar(states: seq<Snapshot>, from: nat, j: nat, k: nat)
    requires 0 < from && FreeGrows(states, from) && from - 1 <= j <= k < |states|
    ensures states[j].free <= states[k].free
  {
    if j < k {
      FreeGrowsFar(states, from, j, k - 1);
      assert states[k - 1].free <= states[k].free;
    }
  }

  lemma GrowSeen(width: nat, root: nat, states: seq<Snapshot>, from: nat)
    requires 0 < from <= |states| && FreeGrows(states, from)
    ensures PagesGrow(|states[from - 1].free|, SeenFrom(width, root, states, from))
  {
    var pts := SeenFrom(width, root, states, from);
    assert |pts| == |states| - from;
    hide SeenFrom;
    forall k: nat | k < |pts| ensures |states[from - 1].free| <= pts[k].availablePages {
      FreeGrowsFar(states, from, from - 1, from + k);
      FreeSeen(width, root, states, from, k);
      NoLarger(states[from - 1].free, states[from + k].free);
    }
    forall j: nat, k: nat | j <= k < |pts| ensures pts[j].availablePages <= pts[k].availablePages {
      FreeGrowsFar(states, from, from + j, from + k);
      FreeSeen(width, root, states, from, j);
      FreeSeen(width, root, states, from, k);
      NoLarger(states[from + j].free, states[from + k].free);
    }
  }

  lemma FewTaken(free0: set<nat>, free: set<nat>, taken: set<nat>)
    requires free == free0 - taken && |taken| <= 3
    ensures |free0| <= |free| + 3
  {
    NoLarger(free0 * taken, taken);
    assert free0 == free + free0 * taken;
  }

  lemma MapPages(width: nat, root: nat, states0: seq<Snapshot>, states: seq<Snapshot>, before: Snapshot, now: Snapshot,
                 ok: bool)
    requires IsLast(states0, before) && IsLast(states, now) && |before.free| <= |now.free| + 3
    requires if ok then IsPrefix(states0, states) && FreeFalls(states, |states0|) else states == states0
    ensures |states0| <= |states| && PagesFall(SeenFrom(width, root, states, |states0| - 1))
    ensures SeenFrom(width, root, states, |states0| - 1)[0] == Seen(width, root, before)
  {
    if ok {
      StatesKept(states0, states);
    }
    hide Seen, IsPrefix, PagesFall;
    FallSeen(width, root, states, |states0|);
  }

  /** A core that waits with a map request calls the page table: whatever the call answers, the machine has a run
      in which that core takes the lock, sees every state that memory goes through, with the pages free then, and
      ends with the call's answer. */
  method MapOnCore(pt: PageTableMemory, vaddr: nat, pte: PTE, ghost c: OS.Constants, ghost s: OS.Variables,
      ghost core: H.Core)
    returns (ok: bool, ghost run: seq<OS.Variables>, ghost steps: seq<OS.Step>)
    requires pt.Valid() && pt.Compact() && 3 <= |pt.free| && c.hw.maxPhyAddr + 1 == Words.Pow2(pt.width)
    requires OS.CoreIn(c, s, core) && OS.LockFree(c, s) && s.hw.pt == SeenNow(pt)
    requires s.cores[core].MapWaiting? && s.cores[core].vaddr == vaddr && s.cores[core].pte == pte
    requires HighLevel.MapEnabled(c.hw.maxPhyAddr, vaddr, pte)
    modifies pt
    ensures pt.Valid() && pt.Compact() && 0 < |old(pt.states)| <= |pt.states|
    ensures MapRan(c, s, core, SeenFrom(pt.width, pt.cr3, pt.states, |old(pt.states)| - 1), SeenNow(pt), ok, run, steps)
    ensures PagesFall(SeenFrom(pt.width, pt.cr3, pt.states, |old(pt.states)| - 1))
    ensures SeenFrom(pt.width, pt.cr3, pt.states, |old(pt.states)| - 1)[0] == old(SeenNow(pt))
  {
    hide *;
    Present(c, s, core);
    Now(pt);
    MaxIsWidth(c.hw.maxPhyAddr, pt.width, vaddr, pte);
    ghost var states0, free0, pages0 := pt.states, pt.free, pt.pages;
    ok := pt.MapFrame(vaddr, pte);
    Now(pt);
    FewTaken(free0, pt.free, pt.pages.Keys - pages0.Keys);
    MapPages(pt.width, pt.cr3, states0, pt.states, Snapshot(pages0, free0), Snapshot(pt.pages, pt.free), ok);
    run, steps := MapCall(c, s, core, vaddr, pte, pt.width, pt.cr3, states0, pt.states, Snapshot(pt.pages, pt.free),
        ok);
  }

  lemma UnmapPages(width: nat, root: nat, states0: seq<Snapshot>, states: seq<Snapshot>, before: Snapshot, ok: bool)
    requires IsLast(states0, before)
    requires if ok then IsPrefix(states0, states) && FreeGrows(states, |states0|) else states == states0
    ensures |states0| <= |states| && PagesGrow(|before.free|, SeenFrom(width, root, states, |states0|))
  {
    if ok {
      StatesKept(states0, states);
      hide Seen, IsPrefix, PagesGrow;
      GrowSeen(width, root, states, |states0|);
    }
  }

  /** The same for a core that waits with an unmap request: it takes the lock as it removes the entry, and
      reports when the emptied tables are gone. */
  method UnmapOnCore(pt: PageTableMemory, vaddr: nat, ghost c: OS.Constants, ghost s: OS.Variables, ghost core: H.Core)
    returns (ok: bool, ghost run: seq<OS.Variables>, ghost steps: seq<OS.Step>)
    requires pt.Valid() && pt.Compact()
    requires OS.CoreIn(c, s, core) && OS.LockFree(c, s) && s.hw.pt == SeenNow(pt)
    requires s.cores[core].UnmapWaiting? && s.cores[core].vaddr == vaddr && HighLevel.UnmapEnabled(vaddr)
    modifies pt
    ensures pt.Valid() && pt.Compact() && |old(pt.states)| <= |pt.states| && (ok <==> vaddr in s.Pt())
    ensures UnmapRan(c, s, core, SeenFrom(pt.width, pt.cr3, pt.states, |old(pt.states)|), SeenNow(pt),
                     if ok then Ok(s.Pt()[vaddr]) else Err, run, steps)
    ensures PagesGrow(|old(pt.free)|, SeenFrom(pt.width, pt.cr3, pt.states, |old(pt.states)|))
  {
    hide *;
    Present(c, s, core);
    Now(pt);
    EnabledIsInside(vaddr);
    ghost var states0, pages0, free0 := pt.states, pt.pages, pt.free;
    ok := pt.Unmap(vaddr);
    Now(pt);
    UnmapPages(pt.width, pt.cr3, states0, pt.states, Snapshot(pages0, free0), ok);
    run, steps := UnmapCall(c, s, core, vaddr, pt.width, pt.cr3, states0, pt.states, Snapshot(pt.pages, pt.free), ok);
  }
}
