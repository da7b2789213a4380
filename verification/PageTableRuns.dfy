/** Calls of the page table put together: whatever threads ask for, and in whatever order the cores get to the lock,
    the states that memory goes through are those of one run of the machine. */
module PageTableRuns {
  import opened Definitions
  import opened OS
  import opened OSPages
  import opened PageTableSteps
  import H = Hardware
  import HighLevel
  import Impl = PageTableImpl
  import OSInvariant
  import OSProperties
  import OSRefinement
  import Words

  // ----- what a call takes

  function MapLeft(pts: seq<H.PageTableMemory>): seq<nat>
    requires PagesFall(pts)
  {
    [0] + seq(|pts|, (k: nat) requires k < |pts| =>
      if k < |pts| - 1 then LeftAfter(pts, k) else 0)
  }

  function LeftAfter(pts: seq<H.PageTableMemory>, k: nat): nat
    requires PagesFall(pts) && k < |pts|
  {
    assert pts[|pts| - 1].availablePages <= pts[k].availablePages;
    3 + pts[k].availablePages - pts[0].availablePages
  }

  lemma MapTakes(c: Constants, s: Variables, core: Core, pts: seq<H.PageTableMemory>, result: Result<()>)
    requires core in s.cores && s.cores[core].MapWaiting?
    requires 2 <= |pts| && PagesFall(pts) && pts[0] == s.hw.pt
    requires ValidRun(c, MapRun(s, core, pts), MapSteps(core, |pts| - 1, result))
    ensures
      var r := PageRun(MapRun(s, core, pts), MapLeft(pts), MapSteps(core, |pts| - 1, result));
      Continues(c, s, 0, r) && EndsIn(r, Moved(s, core, Idle, pts[|pts| - 1]), 0)
  {
    var r := PageRun(MapRun(s, core, pts), MapLeft(pts), MapSteps(core, |pts| - 1, result));
    hide NextStep, ValidRun;
    forall i: nat | i < |r.steps|
      ensures Takes(r.states[i], r.left[i], r.states[i + 1], r.left[i + 1], r.steps[i]) && !r.steps[i].MapStart?
    {
      assert r.states[i + 1].hw.pt == pts[i];
      assert 0 < i ==> r.states[i].hw.pt == pts[i - 1];
    }
  }

  lemma UnmapTakes(c: Constants, s: Variables, core: Core, pts: seq<H.PageTableMemory>, result: Result<PTE>)
    requires core in s.cores && s.cores[core].UnmapWaiting?
    requires 0 < |pts| && PagesGrow(Free(s), pts)
    requires ValidRun(c, UnmapRun(s, core, pts, result), UnmapSteps(core, |pts| - 1, result))
    ensures
      var r := PageRun(UnmapRun(s, core, pts, result), Constantly(0, |pts| + 2), UnmapSteps(core, |pts| - 1, result));
      && Continues(c, s, 0, r)
      && EndsIn(r, Moved(s, core, UnmapState(s.cores[core], result, true), pts[|pts| - 1]), 0)
  {
    var r := PageRun(UnmapRun(s, core, pts, result), Constantly(0, |pts| + 2), UnmapSteps(core, |pts| - 1, result));
    hide NextStep, ValidRun;
    forall i: nat | i < |r.steps|
      ensures Takes(r.states[i], r.left[i], r.states[i + 1], r.left[i + 1], r.steps[i]) && !r.steps[i].MapStart?
    {
      assert i < |pts| ==> r.states[i + 1].hw.pt == pts[i];
      assert i == |pts| ==> r.states[i + 1].hw.pt == pts[i - 1];
      assert 0 < i ==> r.states[i].hw.pt == pts[i - 1];
    }
  }

  // ----- what a run shows of requests and calls

  /** A thread asks for a map or an unmap, or a core that waits makes its call. */
  datatype Action = AskMap(thread: nat, vaddr: nat, pte: PTE) | AskUnmap(thread: nat, vaddr: nat) | Call(core: Core)

  function ActionOf(step: Step): seq<Action> {
    match step
    case MapStart(thread, vaddr, pte) => [AskMap(thread, vaddr, pte)]
    case UnmapStart(thread, vaddr) => [AskUnmap(thread, vaddr)]
    case MapOpStart(core) => [Call(core)]
    case UnmapOpStart(core, _) => [Call(core)]
    case _ => []
  }

  function ActionsOf(steps: seq<Step>): seq<Action> {
    if steps == [] then [] else ActionOf(steps[0]) + ActionsOf(steps[1..])
  }

  function AnswerOf(step: Step): seq<bool> {
    match step
    case MapEnd(_, result) => [result.Ok?]
    case UnmapOpStart(_, result) => [result.Ok?]
    case _ => []
  }

  function AnswersOf(steps: seq<Step>): seq<bool> {
    if steps == [] then [] else AnswerOf(steps[0]) + AnswersOf(steps[1..])
  }

  lemma FirstApart<T>(a: seq<T>, b: seq<T>)
    requires a != []
    ensures a + b == [a[0]] + (a[1..] + b) && [a[0]] + a[1..] == a
  {
  }

  lemma Regrouped<T>(a: seq<T>, b: seq<T>, d: seq<T>)
    ensures a + (b + d) == (a + b) + d
  {
  }

  lemma ActionsFirst(step: Step, steps: seq<Step>)
    ensures ActionsOf([step] + steps) == ActionOf(step) + ActionsOf(steps)
  {
    assert ([step] + steps)[1..] == steps;
    hide ActionOf;
  }

  lemma {:induction false} ActionsTogether(a: seq<Step>, b: seq<Step>)
    ensures ActionsOf(a + b) == ActionsOf(a) + ActionsOf(b)
  {
    if a == [] {
      assert a + b == b;
    } else {
      hide *;
      FirstApart(a, b);
      ActionsTogether(a[1..], b);
      ActionsFirst(a[0], a[1..] + b);
      ActionsFirst(a[0], a[1..]);
      Regrouped(ActionOf(a[0]), ActionsOf(a[1..]), ActionsOf(b));
    }
  }

  lemma AnswersFirst(step: Step, steps: seq<Step>)
    ensures AnswersOf([step] + steps) == AnswerOf(step) + AnswersOf(steps)
  {
    assert ([step] + steps)[1..] == steps;
    hide AnswerOf;
  }

  lemma {:induction false} AnswersTogether(a: seq<Step>, b: seq<Step>)
    ensures AnswersOf(a + b) == AnswersOf(a) + AnswersOf(b)
  {
    if a == [] {
      assert a + b == b;
    } else {
      hide *;
      FirstApart(a, b);
      AnswersTogether(a[1..], b);
      AnswersFirst(a[0], a[1..] + b);
      AnswersFirst(a[0], a[1..]);
      Regrouped(AnswerOf(a[0]), AnswersOf(a[1..]), AnswersOf(b));
    }
  }

  lemma ShownTogether(a: seq<Step>, b: seq<Step>)
    ensures ActionsOf(a + b) == ActionsOf(a) + ActionsOf(b)
    ensures AnswersOf(a + b) == AnswersOf(a) + AnswersOf(b)
  {
    ActionsTogether(a, b);
    AnswersTogether(a, b);
  }

  lemma {:induction false} Silent(steps: seq<Step>)
    requires forall step: Step | step in steps :: ActionOf(step) == [] && AnswerOf(step) == []
    ensures ActionsOf(steps) == [] && AnswersOf(steps) == []
  {
    if steps != [] {
      assert steps[0] in steps;
      Silent(steps[1..]);
    }
  }

  lemma OneShown(step: Step)
    ensures ActionsOf([step]) == ActionOf(step) && AnswersOf([step]) == AnswerOf(step)
  {
    ActionsFirst(step, []);
    AnswersFirst(step, []);
    hide ActionOf, AnswerOf;
  }

  function Stutters(core: Core, n: nat): (steps: seq<Step>)
    ensures forall step: Step | step in steps :: step == ViewStutter(core)
  {
    seq(n, _ => ViewStutter(core))
  }

  lemma MapParts(core: Core, n: nat, result: Result<()>)
    requires 0 < n
    ensures MapSteps(core, n, result) == [MapOpStart(core)] + (Stutters(core, n - 1) + [MapEnd(core, result)])
  {
  }

  lemma UnmapParts(core: Core, n: nat, result: Result<PTE>)
    ensures UnmapSteps(core, n, result)
         == [UnmapOpStart(core, if result.Ok? then Ok(()) else Err)] + (Stutters(core, n) + [UnmapOpEnd(core)])
  {
  }

  lemma MapShown(core: Core, n: nat, result: Result<()>)
    requires 0 < n
    ensures ActionsOf(MapSteps(core, n, result)) == [Call(core)] && AnswersOf(MapSteps(core, n, result)) == [result.Ok?]
  {
    MapParts(core, n, result);
    OneShown(MapOpStart(core));
    OneShown(MapEnd(core, result));
    Silent(Stutters(core, n - 1));
    hide MapSteps, Stutters, ActionsOf, AnswersOf;
    ShownTogether(Stutters(core, n - 1), [MapEnd(core, result)]);
    ShownTogether([MapOpStart(core)], Stutters(core, n - 1) + [MapEnd(core, result)]);
  }

  lemma UnmapShown(core: Core, n: nat, result: Result<PTE>)
    ensures ActionsOf(UnmapSteps(core, n, result)) == [Call(core)]
    ensures AnswersOf(UnmapSteps(core, n, result)) == [result.Ok?]
  {
    var first := UnmapOpStart(core, if result.Ok? then Ok(()) else Err);
    UnmapParts(core, n, result);
    OneShown(first);
    OneShown(UnmapOpEnd(core));
    Silent(Stutters(core, n));
    hide UnmapSteps, Stutters, ActionsOf, AnswersOf;
    ShownTogether(Stutters(core, n), [UnmapOpEnd(core)]);
    ShownTogether([first], Stutters(core, n) + [UnmapOpEnd(core)]);
  }

  // ----- runs from the beginning in which every request leaves room

  ghost predicate Served(c: Constants, s0: Variables, r: PageRun, s: Variables) {
    && Init(c, s0) && ValidPageRun(c, r) && r.states[0] == s0 && r.left[0] == 0
    && RequestsHaveRoom(r) && EndsIn(r, s, 0)
  }

  lemma ServedFacts(c: Constants, s0: Variables, r: PageRun, s: Variables)
    requires Served(c, s0, r, s)
    ensures OSInvariant.Inv(c, s) && Provided(s, 0) && RequestsEnabled(c, s)
    ensures forall core :: core in s.cores <==> CoreIn(c, s, core)
  {
    hide NextStep, Takes, HasRoom, OSInvariant.PtInv, OSInvariant.RemovedInv, OSInvariant.TlbCoherent, RequestsEnabled;
    NobodyWaitsYet(c, s0);
    StaysProvided(c, r, |r.steps|);
    OSRefinement.RunInv(c, r.states, r.steps, |r.steps|);
    RunRequestsEnabled(c, r.states, r.steps, |r.steps|);
  }

  lemma NobodyWaitsYet(c: Constants, s0: Variables)
    requires Init(c, s0)
    ensures Provided(s0, 0)
  {
    assert Waiting(s0) == {};
  }

  lemma Nothing(c: Constants, s0: Variables)
    requires Init(c, s0)
    ensures Served(c, s0, PageRun([s0], [0], []), s0)
  {
  }

  /** One more request, with room for it if it is for a map. */
  lemma Asked(c: Constants, s0: Variables, r: PageRun, s: Variables, s': Variables, step: Step)
    requires Served(c, s0, r, s) && NextStep(c, s, s', step) && (step.MapStart? || step.UnmapStart?)
    requires step.MapStart? ==> HasRoom(s, 0)
    ensures Served(c, s0, Extended(r, s', 0, step), s')
    ensures ActionsOf(r.steps + [step]) == ActionsOf(r.steps) + ActionOf(step)
    ensures AnswersOf(r.steps + [step]) == AnswersOf(r.steps)
  {
    ShownTogether(r.steps, [step]);
    assert ActionsOf([step]) == ActionOf(step) && AnswersOf([step]) == [];
    assert Takes(s, 0, s', 0, step) by { assert s'.hw.pt == s.hw.pt; }
    hide NextStep, Takes, HasRoom, Init, ActionsOf, AnswersOf, ActionOf;
    ExtendedValid(c, r, s, 0, s', 0, step);
    hide ValidPageRun;
    RoomAgain(r, s, s', step);
  }

  lemma RoomAgain(r: PageRun, s: Variables, s': Variables, step: Step)
    requires EndsIn(r, s, 0) && RequestsHaveRoom(r) && (step.MapStart? ==> HasRoom(s, 0))
    ensures RequestsHaveRoom(Extended(r, s', 0, step))
  {
    hide HasRoom;
  }

  lemma RoomBefore(c: Constants, s: Variables, r: PageRun, more: PageRun)
    requires EndsIn(r, s, 0) && RequestsHaveRoom(r) && Continues(c, s, 0, more)
    requires forall i: nat | i < |r.steps| ::
      Joined(r, more).states[i] == r.states[i] && Joined(r, more).left[i] == r.left[i]
    requires |Joined(r, more).states| == |Joined(r, more).left| == |Joined(r, more).steps| + 1
    ensures RequestsHaveRoom(Joined(r, more))
  {
    hide HasRoom, NextStep, Takes;
    var all := Joined(r, more);
    forall i: nat | |r.steps| <= i < |all.steps| ensures !all.steps[i].MapStart? {
      assert all.steps[i] == more.steps[i - |r.steps|];
    }
    forall i: nat | i < |r.steps| && all.steps[i].MapStart? ensures HasRoom(all.states[i], all.left[i]) {
      assert all.steps[i] == r.steps[i];
    }
  }

  /** More steps, without requests. */
  lemma Called(c: Constants, s0: Variables, r: PageRun, s: Variables, more: PageRun, s': Variables)
    requires Served(c, s0, r, s) && Continues(c, s, 0, more) && EndsIn(more, s', 0)
    ensures Served(c, s0, Joined(r, more), s')
    ensures ActionsOf(Joined(r, more).steps) == ActionsOf(r.steps) + ActionsOf(more.steps)
    ensures AnswersOf(Joined(r, more).steps) == AnswersOf(r.steps) + AnswersOf(more.steps)
  {
    ShownTogether(r.steps, more.steps);
    JoinedValid(c, r, more);
    RoomBefore(c, s, r, more);
    hide ValidPageRun, RequestsHaveRoom, Init, ActionsOf, AnswersOf;
  }

  // ----- calls made in such a run

  lemma MapTook(c: Constants, s: Variables, core: Core, pts: seq<H.PageTableMemory>, now: H.PageTableMemory, ok: bool,
                run: seq<Variables>, steps: seq<Step>)
    returns (more: PageRun, n: nat)
    requires MapRan(c, s, core, pts, now, ok, run, steps) && PagesFall(pts) && 0 < |pts| && pts[0] == s.hw.pt
    ensures Continues(c, s, 0, more) && EndsIn(more, Moved(s, core, Idle, now), 0)
    ensures 0 < n && more.steps == MapSteps(core, n, if ok then Ok(()) else Err)
  {
    var pts', result := if ok then pts else [s.hw.pt, s.hw.pt], if ok then Ok(()) else Err;
    assert |run| == |pts'| + 1 && PagesFall(pts');
    hide MapRun, MapSteps, MapLeft, Continues, ValidRun, PagesFall, Moved;
    MapTakes(c, s, core, pts', result);
    more, n := PageRun(run, MapLeft(pts'), steps), |pts'| - 1;
  }

  lemma MapServed(c: Constants, s0: Variables, r: PageRun, s: Variables, core: Core, pts: seq<H.PageTableMemory>,
                  now: H.PageTableMemory, ok: bool, run: seq<Variables>, steps: seq<Step>)
    returns (r': PageRun)
    requires Served(c, s0, r, s) && MapRan(c, s, core, pts, now, ok, run, steps)
    requires PagesFall(pts) && 0 < |pts| && pts[0] == s.hw.pt
    ensures Served(c, s0, r', Moved(s, core, Idle, now))
    ensures ActionsOf(r'.steps) == ActionsOf(r.steps) + [Call(core)]
    ensures AnswersOf(r'.steps) == AnswersOf(r.steps) + [ok]
  {
    hide *;
    var more, n := MapTook(c, s, core, pts, now, ok, run, steps);
    MapShown(core, n, if ok then Ok(()) else Err);
    HasStates(c, s, more);
    Called(c, s0, r, s, more, Moved(s, core, Idle, now));
    r' := Joined(r, more);
  }

  lemma HasStates(c: Constants, s: Variables, r: PageRun)
    requires Continues(c, s, 0, r)
    ensures |r.states| == |r.left| == |r.steps| + 1
  {
  }

  lemma UnmapTook(c: Constants, s: Variables, core: Core, pts: seq<H.PageTableMemory>, now: H.PageTableMemory,
                  result: Result<PTE>, run: seq<Variables>, steps: seq<Step>)
    returns (more: PageRun, n: nat, done: Variables)
    requires UnmapRan(c, s, core, pts, now, result, run, steps) && PagesGrow(Free(s), pts)
    ensures Continues(c, s, 0, more) && EndsIn(more, done, 0) && more.steps == UnmapSteps(core, n, result)
    ensures core in done.cores && done.cores[core].UnmapOpDone? && done.hw.pt == now
    ensures done.cores[core := Idle] == s.cores[core := Idle]
  {
    var pts' := if result.Ok? then pts else [s.hw.pt];
    assert |run| == |pts'| + 2 && PagesGrow(Free(s), pts');
    done := Moved(s, core, UnmapState(s.cores[core], result, true), now);
    assert core in done.cores && done.cores[core].UnmapOpDone? && done.hw.pt == now;
    assert done.cores[core := Idle] == s.cores[core := Idle];
    hide UnmapRun, UnmapSteps, Continues, ValidRun, PagesGrow, Moved, UnmapState;
    UnmapTakes(c, s, core, pts', result);
    more, n := PageRun(run, Constantly(0, |pts'| + 2), steps), |pts'| - 1;
  }

  lemma UnmapServed(c: Constants, s0: Variables, r: PageRun, s: Variables, core: Core, pts: seq<H.PageTableMemory>,
                    now: H.PageTableMemory, result: Result<PTE>, run: seq<Variables>, steps: seq<Step>)
    returns (r': PageRun, s': Variables)
    requires Served(c, s0, r, s) && UnmapRan(c, s, core, pts, now, result, run, steps) && PagesGrow(Free(s), pts)
    ensures Served(c, s0, r', s') && s'.hw.pt == now && s'.cores == s.cores[core := Idle]
    ensures ActionsOf(r'.steps) == ActionsOf(r.steps) + [Call(core)]
    ensures AnswersOf(r'.steps) == AnswersOf(r.steps) + [result.Ok?]
  {
    hide *;
    var more, n, done := UnmapTook(c, s, core, pts, now, result, run, steps);
    UnmapShown(core, n, result);
    HasStates(c, s, more);
    Called(c, s0, r, s, more, done);
    r', s' := Finished(c, s0, Joined(r, more), done, core);
  }

  /** An unmap that has removed its entry shoots down what the cores cache of it, and frees the lock. */
  lemma Finished(c: Constants, s0: Variables, r: PageRun, s: Variables, core: Core)
    returns (r': PageRun, s': Variables)
    requires Served(c, s0, r, s) && core in s.cores && s.cores[core].UnmapOpDone?
    ensures Served(c, s0, r', s') && s'.hw.pt == s.hw.pt && s'.cores == s.cores[core := Idle]
    ensures ActionsOf(r'.steps) == ActionsOf(r.steps) && AnswersOf(r'.steps) == AnswersOf(r.steps)
  {
    hide Served, Continues, OSInvariant.Inv, ValidRun;
    ServedFacts(c, s0, r, s);
    var states, steps := OSProperties.ReleaseAfterRemoval(c, s, core);
    ReleaseTakesNothing(c, states, steps, 0);
    RunLength(c, states, steps);
    s' := states[|steps|];
    var more := PageRun(states, Constantly(0, |states|), steps);
    Silent(steps);
    Called(c, s0, r, s, more, s');
    r' := Joined(r, more);
  }

  lemma RunLength(c: Constants, states: seq<Variables>, steps: seq<Step>)
    requires ValidRun(c, states, steps)
    ensures |states| == |steps| + 1
  {
  }

  /** A map call needs no promise of free pages: the requests before it have left room. */
  method CallMap(pt: Impl.PageTableMemory, vaddr: nat, pte: PTE, ghost c: Constants, ghost core: Core,
                 ghost s0: Variables, ghost r: PageRun, ghost s: Variables)
    returns (ok: bool, ghost r': PageRun)
    requires pt.Valid() && pt.Compact() && c.hw.maxPhyAddr + 1 == Words.Pow2(pt.width)
    requires Served(c, s0, r, s) && s.hw.pt == SeenNow(pt) && LockFree(c, s)
    requires core in s.cores && s.cores[core].MapWaiting? && s.cores[core].vaddr == vaddr && s.cores[core].pte == pte
    modifies pt
    ensures pt.Valid() && pt.Compact()
    ensures Served(c, s0, r', Moved(s, core, Idle, SeenNow(pt)))
    ensures ActionsOf(r'.steps) == ActionsOf(r.steps) + [Call(core)] && AnswersOf(r'.steps) == AnswersOf(r.steps) + [ok]
  {
    ServedFacts(c, s0, r, s) by { hide *; }
    RoomForCall(s, core);
    RequestEnabled(c, s, core);
    hide *;
    assert Free(s) == |pt.free| by { FreeNow(pt, s); }
    ghost var run, steps;
    ghost var n := |pt.states|;
    ok, run, steps := MapOnCore(pt, vaddr, pte, c, s, core);
    r' := MapServed(c, s0, r, s, core, SeenFrom(pt.width, pt.cr3, pt.states, n - 1), SeenNow(pt), ok, run, steps);
  }

  lemma FreeNow(pt: Impl.PageTableMemory, s: Variables)
    requires s.hw.pt == SeenNow(pt)
    ensures Free(s) == |pt.free|
  {
  }

  lemma RoomForCall(s: Variables, core: Core)
    requires Provided(s, 0) && core in s.cores && s.cores[core].MapWaiting?
    ensures 3 <= Free(s)
  {
    WaiterFinds(s, 0, core);
  }

  lemma RequestEnabled(c: Constants, s: Variables, core: Core)
    requires RequestsEnabled(c, s) && core in s.cores
    ensures s.cores[core].MapWaiting? ==> HighLevel.MapEnabled(c.hw.maxPhyAddr, s.cores[core].vaddr, s.cores[core].pte)
    ensures s.cores[core].UnmapWaiting? ==> HighLevel.UnmapEnabled(s.cores[core].vaddr)
  {
  }

  method CallUnmap(pt: Impl.PageTableMemory, vaddr: nat, ghost c: Constants, ghost core: Core,
                   ghost s0: Variables, ghost r: PageRun, ghost s: Variables)
    returns (ok: bool, ghost r': PageRun, ghost s': Variables)
    requires pt.Valid() && pt.Compact()
    requires Served(c, s0, r, s) && s.hw.pt == SeenNow(pt) && LockFree(c, s)
    requires core in s.cores && s.cores[core].UnmapWaiting? && s.cores[core].vaddr == vaddr
    modifies pt
    ensures pt.Valid() && pt.Compact()
    ensures Served(c, s0, r', s') && s'.hw.pt == SeenNow(pt) && s'.cores == s.cores[core := Idle]
    ensures ActionsOf(r'.steps) == ActionsOf(r.steps) + [Call(core)] && AnswersOf(r'.steps) == AnswersOf(r.steps) + [ok]
  {
    ServedFacts(c, s0, r, s) by { hide *; }
    RequestEnabled(c, s, core);
    hide *;
    assert Free(s) == |pt.free| by { FreeNow(pt, s); }
    ghost var run, steps;
    ghost var n := |pt.states|;
    ok, run, steps := UnmapOnCore(pt, vaddr, c, s, core);
    ghost var result := if ok then Ok(s.Pt()[vaddr]) else Err;
    r', s' := UnmapServed(c, s0, r, s, core, SeenFrom(pt.width, pt.cr3, pt.states, n), SeenNow(pt), result, run, steps);
  }

  // ----- any list of requests and calls

  predicate Idles(c: Constants, cores: map<Core, CoreState>, thread: nat) {
    thread in c.threadCore && c.threadCore[thread] in cores && cores[c.threadCore[thread]].Idle?
  }

  /** A thread can ask while its core is idle, for a map only if there is room for it; a core that waits can call. */
  predicate Possible(c: Constants, cores: map<Core, CoreState>, free: nat, a: Action) {
    match a
    case AskMap(thread, _, _) => Idles(c, cores, thread) && 3 * (|WaitingIn(cores)| + 1) <= free
    case AskUnmap(thread, _) => Idles(c, cores, thread)
    case Call(core) => core in cores && (cores[core].MapWaiting? || cores[core].UnmapWaiting?)
  }

  function WaitingIn(cores: map<Core, CoreState>): set<Core> {
    set core | core in cores && cores[core].MapWaiting?
  }

  /** What the machine's own step demands of the arguments. */
  predicate Acceptable(c: Constants, a: Action) {
    match a
    case AskMap(thread, vaddr, pte) => thread < c.threadNo && HighLevel.MapEnabled(c.hw.maxPhyAddr, vaddr, pte)
    case AskUnmap(thread, vaddr) => thread < c.threadNo && HighLevel.UnmapEnabled(vaddr)
    case Call(_) => true
  }

  /** Between two actions nobody holds the lock. */
  predicate Settled(cores: map<Core, CoreState>) {
    forall core | core in cores :: !cores[core].HoldsLock()
  }

  lemma AskForMap(c: Constants, s0: Variables, r: PageRun, s: Variables, thread: nat, vaddr: nat, pte: PTE)
    returns (r': PageRun, s': Variables)
    requires Served(c, s0, r, s) && Settled(s.cores)
    requires var a := AskMap(thread, vaddr, pte); Acceptable(c, a) && Possible(c, s.cores, Free(s), a)
    ensures Served(c, s0, r', s') && s'.hw.pt == s.hw.pt && Settled(s'.cores)
    ensures s'.cores == s.cores[c.threadCore[thread] := MapWaiting(thread, vaddr, pte)]
    ensures ActionsOf(r'.steps) == ActionsOf(r.steps) + [AskMap(thread, vaddr, pte)]
    ensures AnswersOf(r'.steps) == AnswersOf(r.steps)
  {
    s' := s.(cores := s.cores[c.threadCore[thread] := MapWaiting(thread, vaddr, pte)],
             sound := s.sound && MapSound(s, vaddr, pte));
    assert WaitingIn(s.cores) == Waiting(s);
    assert HasRoom(s, 0) && Free(s) >= 3;
    var step := MapStart(thread, vaddr, pte);
    assert NextStep(c, s, s', step) by { hide HighLevel.MapEnabled, MapSound, Served; }
    hide NextStep, Served, HasRoom, Possible, MapSound, ActionsOf, AnswersOf;
    Asked(c, s0, r, s, s', step);
    r' := Extended(r, s', 0, step);
  }

  lemma AskForUnmap(c: Constants, s0: Variables, r: PageRun, s: Variables, thread: nat, vaddr: nat)
    returns (r': PageRun, s': Variables)
    requires Served(c, s0, r, s) && Settled(s.cores)
    requires Acceptable(c, AskUnmap(thread, vaddr)) && Possible(c, s.cores, Free(s), AskUnmap(thread, vaddr))
    ensures Served(c, s0, r', s') && s'.hw.pt == s.hw.pt && Settled(s'.cores)
    ensures s'.cores == s.cores[c.threadCore[thread] := UnmapWaiting(thread, vaddr)]
    ensures ActionsOf(r'.steps) == ActionsOf(r.steps) + [AskUnmap(thread, vaddr)]
    ensures AnswersOf(r'.steps) == AnswersOf(r.steps)
  {
    s' := s.(cores := s.cores[c.threadCore[thread] := UnmapWaiting(thread, vaddr)],
             sound := s.sound && UnmapSound(s, vaddr));
    var step := UnmapStart(thread, vaddr);
    assert NextStep(c, s, s', step) by { hide UnmapSound, Served; }
    hide NextStep, Served, Possible, UnmapSound, ActionsOf, AnswersOf;
    Asked(c, s0, r, s, s', step);
    r' := Extended(r, s', 0, step);
  }

  lemma SettledFree(c: Constants, s: Variables)
    requires Settled(s.cores)
    ensures LockFree(c, s)
  {
  }

  lemma SettledAgain(cores: map<Core, CoreState>, core: Core)
    requires Settled(cores)
    ensures Settled(cores[core := Idle])
  {
  }

  lemma AllIdle(c: Constants, s0: Variables, cores: map<Core, CoreState>)
    requires Init(c, s0) && cores.Keys == H.ValidCores(c.hw) && forall core | core in cores :: cores[core].Idle?
    ensures cores == s0.cores && Settled(cores)
  {
  }

  lemma RunOfProcesses(c: Constants, s0: Variables, r: PageRun, s: Variables)
    requires Served(c, s0, r, s)
    ensures FindsPages(r) && |r.states| == |r.steps| + 1
    ensures HighLevel.Init(InterpConstants(c), OSRefinement.InterpRun(c, r.states)[0])
    ensures HighLevel.ValidRun(InterpConstants(c), OSRefinement.InterpRun(c, r.states),
                               OSRefinement.InterpSteps(r.states, r.steps))
  {
    NobodyWaitsYet(c, s0);
    assert ValidRun(c, r.states, r.steps);
    hide NextStep, Takes, Init, HighLevel.NextStep, HighLevel.Init, Interp;
    RoomIsEnough(c, r);
    OSRefinement.RunRefines(c, r.states, r.steps);
  }

  /** Between two actions: the run so far has got to memory as it is, and to the cores as they are. */
  ghost predicate Stands(c: Constants, s0: Variables, r: PageRun, s: Variables, pt: Impl.PageTableMemory,
                         cores: map<Core, CoreState>)
    reads pt
  {
    pt.Valid() && pt.Compact() && Served(c, s0, r, s) && s.hw.pt == SeenNow(pt) && s.cores == cores && Settled(cores)
  }

  lemma PossibleThere(c: Constants, cores: map<Core, CoreState>, free: nat, a: Action)
    requires Possible(c, cores, free, a)
    ensures !a.Call? ==> a.thread in c.threadCore
    ensures a.Call? ==> a.core in cores && (cores[a.core].MapWaiting? || cores[a.core].UnmapWaiting?)
  {
  }

  lemma StandsParts(c: Constants, s0: Variables, r: PageRun, s: Variables, pt: Impl.PageTableMemory,
                    cores: map<Core, CoreState>)
    requires Stands(c, s0, r, s, pt, cores)
    ensures pt.Valid() && pt.Compact() && Served(c, s0, r, s) && s.hw.pt == SeenNow(pt)
    ensures s.cores == cores && Settled(cores)
  {
  }

  lemma StandsAgain(c: Constants, s0: Variables, r: PageRun, s: Variables, pt: Impl.PageTableMemory,
                    cores: map<Core, CoreState>)
    requires pt.Valid() && pt.Compact() && Served(c, s0, r, s) && s.hw.pt == SeenNow(pt)
    requires s.cores == cores && Settled(cores)
    ensures Stands(c, s0, r, s, pt, cores)
  {
  }

  lemma Begins(c: Constants, s0: Variables, pt: Impl.PageTableMemory, cores: map<Core, CoreState>)
    requires pt.Valid() && pt.Compact() && Init(c, s0) && s0.hw.pt == SeenNow(pt)
    requires cores.Keys == H.ValidCores(c.hw) && forall core | core in cores :: cores[core].Idle?
    ensures Stands(c, s0, PageRun([s0], [0], []), s0, pt, cores)
    ensures ActionsOf([]) == [] && AnswersOf([]) == []
  {
    AllIdle(c, s0, cores);
    Nothing(c, s0);
    hide Served, Init, SeenNow, Settled;
  }

  lemma MovedTo(s: Variables, core: Core, now: H.PageTableMemory)
    ensures Moved(s, core, Idle, now).hw.pt == now && Moved(s, core, Idle, now).cores == s.cores[core := Idle]
  {
  }

  /** One action: a request changes no memory, and a call answers. */
  method Act(pt: Impl.PageTableMemory, c: Constants, a: Action, cores: map<Core, CoreState>,
             ghost s0: Variables, ghost r: PageRun, ghost s: Variables)
    returns (answer: seq<bool>, cores': map<Core, CoreState>, ghost r': PageRun, ghost s': Variables)
    requires Stands(c, s0, r, s, pt, cores) && c.hw.maxPhyAddr + 1 == Words.Pow2(pt.width)
    requires Acceptable(c, a) && Possible(c, cores, |pt.free|, a)
    modifies pt
    ensures Stands(c, s0, r', s', pt, cores')
    ensures ActionsOf(r'.steps) == ActionsOf(r.steps) + [a] && AnswersOf(r'.steps) == AnswersOf(r.steps) + answer
  {
    hide *;
    StandsParts(c, s0, r, s, pt, cores);
    FreeNow(pt, s);
    SettledFree(c, s);
    PossibleThere(c, cores, |pt.free|, a);
    match a {
      case AskMap(thread, vaddr, pte) =>
        r', s' := AskForMap(c, s0, r, s, thread, vaddr, pte);
        cores' := cores[c.threadCore[thread] := MapWaiting(thread, vaddr, pte)];
        answer := [];
      case AskUnmap(thread, vaddr) =>
        r', s' := AskForUnmap(c, s0, r, s, thread, vaddr);
        cores' := cores[c.threadCore[thread] := UnmapWaiting(thread, vaddr)];
        answer := [];
      case Call(core) =>
        var ok;
        if cores[core].MapWaiting? {
          ok, r' := CallMap(pt, cores[core].vaddr, cores[core].pte, c, core, s0, r, s);
          s' := Moved(s, core, Idle, SeenNow(pt));
          MovedTo(s, core, SeenNow(pt));
        } else {
          ok, r', s' := CallUnmap(pt, cores[core].vaddr, c, core, s0, r, s);
        }
        SettledAgain(cores, core);
        cores' := cores[core := Idle];
        answer := [ok];
    }
    StandsAgain(c, s0, r', s', pt, cores');
  }

  /** The page table serves any list of requests and calls, up to one that is not possible: all that memory goes
      through is one run of the machine, in which every map finds its pages, and so a run of the flat memory. */
  method Serve(pt: Impl.PageTableMemory, c: Constants, actions: seq<Action>, ghost s0: Variables)
    returns (done: nat, oks: seq<bool>, cores: map<Core, CoreState>, ghost r: PageRun, ghost s: Variables)
    requires pt.Valid() && pt.Compact() && c.hw.maxPhyAddr + 1 == Words.Pow2(pt.width)
    requires Init(c, s0) && s0.hw.pt == SeenNow(pt)
    requires forall a: Action | a in actions :: Acceptable(c, a)
    modifies pt
    ensures Stands(c, s0, r, s, pt, cores)
    ensures done <= |actions| && ActionsOf(r.steps) == actions[..done] && AnswersOf(r.steps) == oks
    ensures done < |actions| ==> !Possible(c, cores, |pt.free|, actions[done])
    ensures FindsPages(r)
    ensures HighLevel.Init(InterpConstants(c), OSRefinement.InterpRun(c, r.states)[0])
    ensures HighLevel.ValidRun(InterpConstants(c), OSRefinement.InterpRun(c, r.states),
                               OSRefinement.InterpSteps(r.states, r.steps))
  {
    hide *;
    cores := map core | core in H.ValidCores(c.hw) :: Idle;
    Begins(c, s0, pt, cores);
    done, oks, r, s := 0, [], PageRun([s0], [0], []), s0;
    assert actions[..0] == [];
    while done < |actions| && Possible(c, cores, |pt.free|, actions[done])
      invariant done <= |actions| && Stands(c, s0, r, s, pt, cores)
      invariant ActionsOf(r.steps) == actions[..done] && AnswersOf(r.steps) == oks
    {
      assert actions[done] in actions && actions[..done + 1] == actions[..done] + [actions[done]];
      var answer;
      answer, cores, r, s := Act(pt, c, actions[done], cores, s0, r, s);
      oks := oks + answer;
      done := done + 1;
    }
    StandsParts(c, s0, r, s, pt, cores);
    RunOfProcesses(c, s0, r, s);
  }
}
