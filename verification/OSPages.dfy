/** The three free pages that the machine checks for when a map is requested, and that the page table needs when
    the map takes the lock: in which runs they are still there. */
module OSPages {
  import opened Definitions
  import opened OS
  import opened OSInvariant
  import Hardware
  import OSProperties
  import OSRefinement

  /** A run, and in each state the number of pages that the executing map may still take. */
  datatype PageRun = PageRun(states: seq<Variables>, left: seq<nat>, steps: seq<Step>)

  function Free(s: Variables): nat { s.hw.pt.availablePages }

  function Waiting(s: Variables): set<Core> {
    set core | core in s.cores && s.cores[core].MapWaiting?
  }

  /** A map may take three pages from when it has the lock until it ends; nobody else takes any. */
  predicate Takes(s1: Variables, left1: nat, s2: Variables, left2: nat, step: Step) {
    match step
    case MapOpStart(_) => left2 == 3
    case ViewStutter(_) => left2 <= left1 && Free(s1) + left2 <= Free(s2) + left1
    case MapEnd(_, _) => left2 == 0 && Free(s1) <= Free(s2) + left1
    case _ => left2 == left1 && Free(s1) <= Free(s2)
  }

  predicate ValidPageRun(c: Constants, r: PageRun) {
    && ValidRun(c, r.states, r.steps) && |r.left| == |r.states|
    && forall i: nat | i < |r.steps| :: Takes(r.states[i], r.left[i], r.states[i + 1], r.left[i + 1], r.steps[i])
  }

  /** Every map that takes the lock finds three free pages. */
  predicate FindsPages(r: PageRun) {
    forall i: nat | i < |r.steps| && i < |r.states| && r.steps[i].MapOpStart? :: 3 <= Free(r.states[i])
  }

  // ----- runs whose requests leave room for the maps before them

  /** There are pages for every map that waits, and for what the executing map may still take. */
  predicate Provided(s: Variables, left: nat) {
    3 * |Waiting(s)| + left <= Free(s)
  }

  /** And for one more map. */
  predicate HasRoom(s: Variables, left: nat) {
    3 * (|Waiting(s)| + 1) + left <= Free(s)
  }

  predicate RequestsHaveRoom(r: PageRun)
    requires |r.left| == |r.states| == |r.steps| + 1
  {
    forall i: nat | i < |r.steps| && r.steps[i].MapStart? :: HasRoom(r.states[i], r.left[i])
  }

  /** Which maps wait after a step. */
  lemma WaitingMoves(c: Constants, s1: Variables, s2: Variables, step: Step)
    requires NextStep(c, s1, s2, step)
    ensures step.MapStart? ==> step.thread in c.threadCore && Waiting(s2) == Waiting(s1) + {c.threadCore[step.thread]}
    ensures step.MapStart? ==> c.threadCore[step.thread] !in Waiting(s1) && Free(s2) == Free(s1)
    ensures step.MapOpStart? ==>
      step.core in Waiting(s1) && Waiting(s2) == Waiting(s1) - {step.core} && Free(s2) == Free(s1)
    ensures !step.MapStart? && !step.MapOpStart? ==> Waiting(s2) == Waiting(s1)
  {
  }

  lemma ProvidedKept(c: Constants, s1: Variables, left1: nat, s2: Variables, left2: nat, step: Step)
    requires NextStep(c, s1, s2, step) && Takes(s1, left1, s2, left2, step)
    requires Provided(s1, left1) && (step.MapStart? ==> HasRoom(s1, left1))
    ensures Provided(s2, left2)
  {
    WaitingMoves(c, s1, s2, step);
    hide NextStep, Waiting, Free;
  }

  lemma {:induction false} StaysProvided(c: Constants, r: PageRun, i: nat)
    requires ValidPageRun(c, r) && RequestsHaveRoom(r) && Provided(r.states[0], r.left[0]) && i < |r.states|
    ensures Provided(r.states[i], r.left[i])
  {
    if 0 < i {
      StaysProvided(c, r, i - 1);
      hide NextStep, Takes, Provided, HasRoom;
      assert NextStep(c, r.states[i - 1], r.states[i - 1 + 1], r.steps[i - 1]);
      ProvidedKept(c, r.states[i - 1], r.left[i - 1], r.states[i], r.left[i], r.steps[i - 1]);
    }
  }

  lemma WaiterFinds(s: Variables, left: nat, core: Core)
    requires Provided(s, left) && core in Waiting(s)
    ensures 3 <= Free(s)
  {
    assert Waiting(s) == Waiting(s) - {core} + {core};
  }

  /** If every request leaves room for the maps before it, every map finds its pages. */
  lemma RoomIsEnough(c: Constants, r: PageRun)
    requires ValidPageRun(c, r) && RequestsHaveRoom(r) && Provided(r.states[0], r.left[0])
    ensures FindsPages(r)
  {
    forall i: nat | i < |r.steps| && r.steps[i].MapOpStart? ensures 3 <= Free(r.states[i]) {
      StaysProvided(c, r, i);
      assert NextStep(c, r.states[i], r.states[i + 1], r.steps[i]);
      WaitingMoves(c, r.states[i], r.states[i + 1], r.steps[i]);
      hide NextStep, Waiting, Provided, Free;
      WaiterFinds(r.states[i], r.left[i], r.steps[i].core);
    }
  }

  // ----- without new requests

  /** A run from s on in which no further map is requested. */
  predicate Continues(c: Constants, s: Variables, left: nat, r: PageRun) {
    && ValidPageRun(c, r) && r.states[0] == s && r.left[0] == left
    && forall i: nat | i < |r.steps| :: !r.steps[i].MapStart?
  }

  lemma {:induction false} NobodyWaits(c: Constants, s: Variables, left: nat, r: PageRun, i: nat)
    requires Continues(c, s, left, r) && Waiting(s) == {} && i < |r.states|
    ensures Waiting(r.states[i]) == {}
  {
    if 0 < i {
      NobodyWaits(c, s, left, r, i - 1);
      assert NextStep(c, r.states[i - 1], r.states[i - 1 + 1], r.steps[i - 1]);
      WaitingMoves(c, r.states[i - 1], r.states[i], r.steps[i - 1]);
    }
  }

  lemma NobodyAsks(c: Constants, s: Variables, left: nat, r: PageRun)
    requires Continues(c, s, left, r) && Waiting(s) == {}
    ensures FindsPages(r)
  {
    forall i: nat | i < |r.steps| ensures !r.steps[i].MapOpStart? {
      NobodyWaits(c, s, left, r, i);
      assert NextStep(c, r.states[i], r.states[i + 1], r.steps[i]);
      WaitingMoves(c, r.states[i], r.states[i + 1], r.steps[i]);
    }
  }

  lemma NoSteps(c: Constants, s: Variables, left: nat)
    ensures Continues(c, s, left, PageRun([s], [left], []))
  {
  }

  function Extended(r: PageRun, s: Variables, left: nat, step: Step): PageRun {
    PageRun(r.states + [s], r.left + [left], r.steps + [step])
  }

  function Joined(a: PageRun, b: PageRun): PageRun
    requires 0 < |b.states| && 0 < |b.left|
  {
    PageRun(a.states + b.states[1..], a.left + b.left[1..], a.steps + b.steps)
  }

  lemma JoinedValid(c: Constants, a: PageRun, b: PageRun)
    requires ValidPageRun(c, a) && ValidPageRun(c, b)
    requires b.states[0] == a.states[|a.steps|] && b.left[0] == a.left[|a.steps|]
    ensures ValidPageRun(c, Joined(a, b))
    ensures Joined(a, b).states[0] == a.states[0] && Joined(a, b).left[0] == a.left[0]
    ensures EndsIn(Joined(a, b), b.states[|b.steps|], b.left[|b.steps|])
    ensures forall i: nat | i < |a.steps| :: Joined(a, b).states[i] == a.states[i] && Joined(a, b).left[i] == a.left[i]
    ensures forall i: nat | i < |b.steps| ::
      Joined(a, b).states[|a.steps| + i] == b.states[i] && Joined(a, b).left[|a.steps| + i] == b.left[i]
  {
    var r, n := Joined(a, b), |a.steps|;
    hide NextStep, Takes;
    forall i: nat | i < |r.states|
      ensures i <= n ==> r.states[i] == a.states[i] && r.left[i] == a.left[i]
      ensures n <= i ==> r.states[i] == b.states[i - n] && r.left[i] == b.left[i - n]
    {
    }
    forall i: nat | i < |r.steps|
      ensures NextStep(c, r.states[i], r.states[i + 1], r.steps[i])
      ensures Takes(r.states[i], r.left[i], r.states[i + 1], r.left[i + 1], r.steps[i])
    {
      if i < n {
        assert r.steps[i] == a.steps[i] && i + 1 <= n;
      } else {
        var j := i - n;
        assert r.steps[i] == b.steps[j] && r.states[i + 1] == b.states[j + 1] && r.left[i + 1] == b.left[j + 1];
        assert NextStep(c, b.states[j], b.states[j + 1], b.steps[j]);
      }
    }
  }

  lemma JoinedContinues(c: Constants, s: Variables, left: nat, a: PageRun, b: PageRun)
    requires Continues(c, s, left, a) && Continues(c, a.states[|a.steps|], a.left[|a.steps|], b)
    ensures Continues(c, s, left, Joined(a, b))
    ensures EndsIn(Joined(a, b), b.states[|b.steps|], b.left[|b.steps|])
    ensures !FindsPages(b) ==> !FindsPages(Joined(a, b))
  {
    JoinedValid(c, a, b);
    hide ValidPageRun, NextStep;
    var r, n := Joined(a, b), |a.steps|;
    forall i: nat | i < |r.steps| ensures !r.steps[i].MapStart? {
      assert r.steps[i] == if i < n then a.steps[i] else b.steps[i - n];
    }
    if !FindsPages(b) {
      var i: nat :| i < |b.steps| && b.steps[i].MapOpStart? && Free(b.states[i]) < 3;
      assert r.steps[n + i] == b.steps[i] && r.states[n + i] == b.states[i];
    }
  }

  predicate EndsIn(r: PageRun, s: Variables, left: nat) {
    |r.states| == |r.left| == |r.steps| + 1 && r.states[|r.steps|] == s && r.left[|r.steps|] == left
  }

  lemma ExtendedValid(c: Constants, r: PageRun, s: Variables, left: nat, s': Variables, left': nat, step: Step)
    requires ValidPageRun(c, r) && EndsIn(r, s, left)
    requires NextStep(c, s, s', step) && Takes(s, left, s', left', step)
    ensures ValidPageRun(c, Extended(r, s', left', step)) && EndsIn(Extended(r, s', left', step), s', left')
  {
    hide NextStep, Takes;
  }

  lemma ExtendedContinues(c: Constants, s: Variables, left: nat, r: PageRun, s': Variables, left': nat, step: Step)
    requires Continues(c, s, left, r) && NextStep(c, r.states[|r.steps|], s', step) && !step.MapStart?
    requires Takes(r.states[|r.steps|], r.left[|r.steps|], s', left', step)
    ensures Continues(c, s, left, Extended(r, s', left', step)) && EndsIn(Extended(r, s', left', step), s', left')
  {
    hide NextStep, Takes;
  }

  // ----- maps that take all they may, one after the other

  function WithPages(s: Variables, free: nat): Variables {
    s.(hw := s.hw.(pt := s.hw.pt.(availablePages := free)))
  }

  function WithLock(s: Variables, core: Core): Variables
    requires core in Waiting(s)
  {
    var st := s.cores[core];
    s.(cores := s.cores[core := MapExecuting(st.thread, st.vaddr, st.pte)])
  }

  lemma TakeLock(c: Constants, s: Variables, left: nat, r: PageRun, t: Variables, core: Core) returns (r': PageRun)
    requires Continues(c, s, left, r) && EndsIn(r, t, 0)
    requires CoreIn(c, t, core) && core in Waiting(t) && LockFree(c, t)
    ensures Continues(c, s, left, r') && EndsIn(r', WithLock(t, core), 3)
    ensures r'.steps == r.steps + [MapOpStart(core)] && r'.states == r.states + [WithLock(t, core)]
  {
    assert NextStep(c, t, WithLock(t, core), MapOpStart(core));
    hide NextStep, Continues, WithLock;
    ExtendedContinues(c, s, left, r, WithLock(t, core), 3, MapOpStart(core));
    r' := Extended(r, WithLock(t, core), 3, MapOpStart(core));
  }

  /** A write for which the executing map takes n pages. */
  lemma TakePages(c: Constants, s: Variables, left: nat, r: PageRun, t: Variables, m: nat, core: Core, n: nat)
    returns (r': PageRun)
    requires Continues(c, s, left, r) && EndsIn(r, t, m)
    requires CoreIn(c, t, core) && t.cores[core].MapExecuting? && n <= Free(t) && n <= m
    ensures Continues(c, s, left, r') && EndsIn(r', WithPages(t, Free(t) - n), m - n)
  {
    var t' := WithPages(t, Free(t) - n);
    assert NextStep(c, t, t', ViewStutter(core));
    hide NextStep, Continues, WithPages;
    assert Takes(t, m, t', m - n, ViewStutter(core)) by { assert Free(t') == Free(t) - n; }
    ExtendedContinues(c, s, left, r, t', m - n, ViewStutter(core));
    r' := Extended(r, t', m - n, ViewStutter(core));
  }

  lemma EndMap(c: Constants, s: Variables, left: nat, r: PageRun, t: Variables, m: nat, core: Core)
    returns (r': PageRun, t': Variables)
    requires Continues(c, s, left, r) && EndsIn(r, t, m)
    requires CoreIn(c, t, core) && t.cores[core].MapExecuting?
    ensures Continues(c, s, left, r') && EndsIn(r', t', 0)
    ensures t'.cores == t.cores[core := Idle] && Free(t') == Free(t) && t'.sound == t.sound
  {
    hide NextStep, Continues;
    var step: Step;
    t', step := OSProperties.MapEndStep(c, t, core);
    ExtendedContinues(c, s, left, r, t', 0, step);
    r' := Extended(r, t', 0, step);
  }

  /** A whole map that takes three pages, one with each write. */
  lemma WholeMap(c: Constants, s: Variables, core: Core) returns (r: PageRun, t: Variables)
    requires CoreIn(c, s, core) && core in Waiting(s) && LockFree(c, s) && 3 <= Free(s)
    ensures Continues(c, s, 0, r) && EndsIn(r, t, 0)
    ensures t.cores == s.cores[core := Idle] && Free(t) == Free(s) - 3 && t.sound == s.sound
  {
    NoSteps(c, s, 0);
    var s1 := WithLock(s, core);
    var s2 := WithPages(s1, Free(s1) - 1);
    var s3 := WithPages(s2, Free(s2) - 1);
    var s4 := WithPages(s3, Free(s3) - 1);
    hide Continues, LockFree;
    r := TakeLock(c, s, 0, PageRun([s], [0], []), s, core);
    r := TakePages(c, s, 0, r, s1, 3, core, 1);
    r := TakePages(c, s, 0, r, s2, 2, core, 1);
    r := TakePages(c, s, 0, r, s3, 1, core, 1);
    r, t := EndMap(c, s, 0, r, s4, 0, core);
  }

  lemma OneFewer(c: Constants, s: Variables, t: Variables, core: Core)
    requires core in Waiting(s) && LockFree(c, s) && t.cores == s.cores[core := Idle]
    ensures LockFree(c, t) && Waiting(t) == Waiting(s) - {core} && |Waiting(t)| == |Waiting(s)| - 1
  {
  }

  /** With too few pages for all that wait, they can run out before the last of them. */
  lemma {:induction false} RunsOut(c: Constants, s: Variables, last: Core) returns (r: PageRun, t: Variables)
    requires LockFree(c, s) && last in Waiting(s) && Free(s) < 3 * |Waiting(s)|
    requires forall core | core in s.cores :: CoreIn(c, s, core)
    ensures Continues(c, s, 0, r) && !FindsPages(r) && EndsIn(r, t, 3)
    ensures last in t.cores && t.cores[last].MapExecuting? && Free(t) == Free(s) % 3 && t.sound == s.sound
    decreases |Waiting(s)|
  {
    if Free(s) < 3 {
      NoSteps(c, s, 0);
      t := WithLock(s, last);
      hide Continues, LockFree;
      r := TakeLock(c, s, 0, PageRun([s], [0], []), s, last);
      assert r.steps[0].MapOpStart? && r.states[0] == s;
    } else {
      var core := Another(Waiting(s), last);
      var first, s' := WholeMap(c, s, core) by { hide *; }
      OneFewer(c, s, s', core);
      hide Continues, LockFree;
      assert forall core | core in s'.cores :: CoreIn(c, s', core);
      r, t := RunsOut(c, s', last);
      JoinedContinues(c, s, 0, first, r);
      r := Joined(first, r);
    }
  }

  lemma Another(cores: set<Core>, last: Core) returns (core: Core)
    requires last in cores && 1 < |cores|
    ensures core in cores && core != last
  {
    assert |cores - {last}| == |cores| - 1;
    core :| core in cores - {last};
  }

  // ----- when the lock is held

  /** Only an executing map has pages left to take. */
  predicate LeftOk(s: Variables, left: nat) {
    left <= 3 && (0 < left ==> exists core :: core in s.cores && s.cores[core].MapExecuting?)
  }

  lemma LeftKept(c: Constants, s1: Variables, left1: nat, s2: Variables, left2: nat, step: Step)
    requires LeftOk(s1, left1) && NextStep(c, s1, s2, step) && Takes(s1, left1, s2, left2, step)
    ensures LeftOk(s2, left2)
  {
    if step.MapOpStart? {
      assert s2.cores[step.core].MapExecuting?;
    } else if 0 < left1 && !step.MapEnd? {
      var core :| core in s1.cores && s1.cores[core].MapExecuting?;
      assert s2.cores[core].MapExecuting?;
    }
  }

  function Constantly(left: nat, n: nat): seq<nat> {
    seq(n, _ => left)
  }

  lemma PtStays(c: Constants, s1: Variables, s2: Variables, step: Step)
    requires NextStep(c, s1, s2, step) && OSProperties.Releasing(step)
    ensures s2.hw.pt == s1.hw.pt
  {
  }

  /** Ending an unmap takes no pages. */
  lemma {:induction false} ReleaseTakesNothing(c: Constants, states: seq<Variables>, steps: seq<Step>, left: nat)
    requires ValidRun(c, states, steps) && forall step: Step | step in steps :: OSProperties.Releasing(step)
    ensures Continues(c, states[0], left, PageRun(states, Constantly(left, |states|), steps))
    ensures states[|steps|].hw.pt == states[0].hw.pt
  {
    var r := PageRun(states, Constantly(left, |states|), steps);
    hide NextStep;
    forall i: nat | i < |steps|
      ensures Takes(states[i], left, states[i + 1], left, steps[i]) && !r.steps[i].MapStart?
    {
      assert steps[i] in steps;
      PtStays(c, states[i], states[i + 1], steps[i]);
    }
    var n := 0;
    while n < |steps|
      invariant n <= |steps| && states[n].hw.pt == states[0].hw.pt
    {
      assert steps[n] in steps;
      PtStays(c, states[n], states[n + 1], steps[n]);
      n := n + 1;
    }
  }

  lemma HolderGone(c: Constants, s: Variables, t: Variables, holder: Core)
    requires Inv(c, s) && holder in s.cores && s.cores[holder].HoldsLock() && t.cores == s.cores[holder := Idle]
    ensures LockFree(c, t) && Waiting(t) == Waiting(s)
  {
    hide PtInv, MapsValid, RemovedInv, TlbCoherent, ShootdownInv, InflightRangesDisjoint, FramesDisjoint;
  }

  /** The executing map takes what it may, or the unmap ends; the lock is free then. */
  lemma LockReleased(c: Constants, s: Variables, left: nat, holder: Core) returns (r: PageRun, t: Variables)
    requires Inv(c, s) && LeftOk(s, left) && holder in s.cores && s.cores[holder].HoldsLock()
    ensures Continues(c, s, left, r) && EndsIn(r, t, 0) && t.cores == s.cores[holder := Idle]
    ensures Free(t) == if left <= Free(s) then Free(s) - left else 0
  {
    assert CoreIn(c, s, holder);
    NoSteps(c, s, left);
    if s.cores[holder].MapExecuting? {
      hide Inv, Continues;
      var n := if left <= Free(s) then left else Free(s);
      r := TakePages(c, s, left, PageRun([s], [left], []), s, left, holder, n);
      r, t := EndMap(c, s, left, r, WithPages(s, Free(s) - n), left - n, holder);
    } else {
      assert left == 0;
      hide Inv, Continues;
      var states, steps := OSProperties.ReleaseRun(c, s, holder);
      ReleaseTakesNothing(c, states, steps, 0);
      r := PageRun(states, Constantly(0, |states|), steps);
      t := states[|steps|];
    }
  }

  lemma CanRunOut(c: Constants, s: Variables, left: nat) returns (r: PageRun)
    requires Inv(c, s) && LeftOk(s, left) && Waiting(s) != {} && !Provided(s, left)
    ensures Continues(c, s, left, r) && !FindsPages(r)
  {
    var last :| last in Waiting(s);
    assert forall core | core in s.cores :: CoreIn(c, s, core);
    if holder :| holder in s.cores && s.cores[holder].HoldsLock() {
      var first, t := LockReleased(c, s, left, holder) by { hide *; }
      HolderGone(c, s, t, holder);
      hide Inv, Continues, LockFree, Waiting;
      assert forall core | core in t.cores :: CoreIn(c, t, core);
      assert |Waiting(s)| != 0;
      var t': Variables;
      r, t' := RunsOut(c, t, last);
      JoinedContinues(c, s, left, first, r);
      r := Joined(first, r);
    } else {
      assert left == 0 && LockFree(c, s);
      hide Inv, Continues, LockFree, Waiting;
      var t: Variables;
      r, t := RunsOut(c, s, last);
    }
  }

  /** In a reachable state, every map that waits will find its pages, whatever order the cores act in, exactly if
      there are three for each, and as many more as the executing map may still take. */
  lemma PagesExactly(c: Constants, s: Variables, left: nat)
    requires Inv(c, s) && LeftOk(s, left)
    ensures (forall r: PageRun | Continues(c, s, left, r) :: FindsPages(r)) <==> Waiting(s) == {} || Provided(s, left)
  {
    hide Inv, Continues, FindsPages, Waiting, Provided;
    if Waiting(s) == {} {
      forall r: PageRun | Continues(c, s, left, r) ensures FindsPages(r) {
        NobodyAsks(c, s, left, r);
      }
    } else if Provided(s, left) {
      forall r: PageRun | Continues(c, s, left, r) ensures FindsPages(r) {
        ContinuesProvided(c, s, left, r);
      }
    } else {
      var r := CanRunOut(c, s, left);
    }
  }

  lemma ContinuesProvided(c: Constants, s: Variables, left: nat, r: PageRun)
    requires Continues(c, s, left, r) && Provided(s, left)
    ensures FindsPages(r)
  {
    hide ValidPageRun, FindsPages, HasRoom, Provided;
    RoomIsEnough(c, r);
  }

  /** So a request is safe exactly if it leaves room for the maps before it. */
  lemma RequestExactly(c: Constants, s1: Variables, left: nat, s2: Variables, step: Step)
    requires Inv(c, s1) && LeftOk(s1, left) && NextStep(c, s1, s2, step) && step.MapStart?
    ensures (forall r: PageRun | Continues(c, s2, left, r) :: FindsPages(r)) <==> HasRoom(s1, left)
  {
    RequestAdds(c, s1, left, s2, step) by { hide *; }
    NextInv(c, s1, s2, step) by { hide *; }
    hide Inv, LeftOk, Continues, FindsPages, Waiting, NextStep;
    PagesExactly(c, s2, left);
  }

  lemma RequestAdds(c: Constants, s1: Variables, left: nat, s2: Variables, step: Step)
    requires LeftOk(s1, left) && NextStep(c, s1, s2, step) && step.MapStart?
    ensures LeftOk(s2, left) && Waiting(s2) != {}
    ensures |Waiting(s2)| == |Waiting(s1)| + 1 && Free(s2) == Free(s1)
  {
    WaitingMoves(c, s1, s2, step);
    LeftKept(c, s1, left, s2, left, step) by { assert Free(s2) == Free(s1); hide NextStep, LeftOk; }
    hide NextStep, LeftOk, Waiting;
  }

  // ----- a run in which pages run out

  const FIRST := Hardware.Core(0, 0)
  const SECOND := Hardware.Core(0, 1)
  const PAIR := Constants(Hardware.Constants(1, 2, 1024, 0xFFFF_FFFF), map[0 := FIRST, 1 := SECOND], 2)
  const NEXT_PAGE := PTE(MemRegion(L3_ENTRY_SIZE, L3_ENTRY_SIZE), Flags(true, false, false))

  /** Two cores over one page table with `free` pages left. */
  function PairState(mapped: bool, free: nat, st1: CoreState, st2: CoreState): Variables {
    var pt: map<nat, PTE> := if mapped then map[0 := OSProperties.ONE_PAGE] else map[];
    Variables(Hardware.Variables(seq(1024, i => 0), map[FIRST := map[], SECOND := map[]],
                                 Hardware.PageTableMemory(pt, free)),
              map[FIRST := st1, SECOND := st2], Shootdown(0, {}), true)
  }

  /** The second core's request, at the start of another 512 GiB slot. */
  function SecondRequest(executing: bool): CoreState {
    if executing then MapExecuting(1, L0_ENTRY_SIZE, NEXT_PAGE) else MapWaiting(1, L0_ENTRY_SIZE, NEXT_PAGE)
  }

  lemma PairRequests()
    ensures NextStep(PAIR, PairState(false, 3, Idle, Idle),
                     PairState(false, 3, MapWaiting(0, 0, OSProperties.ONE_PAGE), Idle),
                     MapStart(0, 0, OSProperties.ONE_PAGE))
    ensures NextStep(PAIR, PairState(false, 3, MapWaiting(0, 0, OSProperties.ONE_PAGE), Idle),
                     PairState(false, 3, MapWaiting(0, 0, OSProperties.ONE_PAGE), SecondRequest(false)),
                     MapStart(1, L0_ENTRY_SIZE, NEXT_PAGE))
  {
    assert !Overlap(OSProperties.ONE_PAGE.frame, NEXT_PAGE.frame) &&
      !Overlap(NEXT_PAGE.frame, OSProperties.ONE_PAGE.frame);
  }

  lemma PairInit()
    ensures Init(PAIR, PairState(false, 3, Idle, Idle))
  {
    var s := PairState(false, 3, Idle, Idle);
    assert forall core :: Hardware.ValidCore(PAIR.hw, core) <==> core == FIRST || core == SECOND;
    assert forall core :: core in s.cores <==> core == FIRST || core == SECOND;
    assert forall core :: core in s.hw.tlbs <==> core == FIRST || core == SECOND;
    assert ConstantsValid(PAIR);
  }

  lemma PairWaits()
    ensures
      var s := PairState(false, 3, MapWaiting(0, 0, OSProperties.ONE_PAGE), SecondRequest(false));
      && s.sound && LockFree(PAIR, s) && Waiting(s) == {FIRST, SECOND} && Free(s) == 3
      && forall core | core in s.cores :: CoreIn(PAIR, s, core)
  {
  }

  /** A map request is let in if three pages are free, but nothing reserves them: two requests can be let in on the
      same three pages, and the second core takes the lock when the first has used them all. */
  lemma PagesNotReserved() returns (r: PageRun)
    ensures ValidPageRun(PAIR, r) && Init(PAIR, r.states[0]) && r.left[0] == 0 && !FindsPages(r)
    ensures
      var last := r.states[|r.steps|];
      last.sound && SECOND in last.cores && last.cores[SECOND].MapExecuting? && Free(last) == 0
  {
    var s0, s1 := PairState(false, 3, Idle, Idle), PairState(false, 3, MapWaiting(0, 0, OSProperties.ONE_PAGE), Idle);
    var s2 := PairState(false, 3, MapWaiting(0, 0, OSProperties.ONE_PAGE), SecondRequest(false));
    PairInit();
    PairRequests();
    PairWaits();
    var start := PageRun([s0, s1, s2], [0, 0, 0],
        [MapStart(0, 0, OSProperties.ONE_PAGE), MapStart(1, L0_ENTRY_SIZE, NEXT_PAGE)]);
    hide NextStep, Init, PairState, SecondRequest;
    assert |{FIRST, SECOND}| == 2;
    var t: Variables;
    r, t := RunsOut(PAIR, s2, SECOND);
    JoinedValid(PAIR, start, r);
    r := Joined(start, r);
  }
}
