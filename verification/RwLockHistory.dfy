/** What the lock's interleavings show of the actions in them: guards show the value released last, and whoever is
    left alone gets in. */
module RwLockHistory {
  import opened Definitions
  import opened RwLock

  /** An action, and the acquisition that takes it. */
  datatype Event<T> = Event(t: nat, a: Action<T>)

  ghost predicate EventRun<T(!new)>(inv: T -> bool, states: seq<State<T>>, events: seq<Event<T>>) {
    && |states| == |events| + 1
    && Init(inv, states[0])
    && forall i: nat | i < |events| :: Happens(inv, states[i], states[i + 1], events[i])
  }

  ghost predicate Happens<T(!new)>(inv: T -> bool, s: State<T>, s': State<T>, e: Event<T>) {
    Enabled(inv, s, e.t, e.a) && s' == Do(inv, s, e.t, e.a)
  }

  /** Every run is a run of events. */
  lemma {:induction false} RunHasEvents<T(!new)>(inv: T -> bool, states: seq<State<T>>) returns (events: seq<Event<T>>)
    requires Run(inv, states)
    ensures EventRun(inv, states, events)
  {
    hide Init, Enabled, Do;
    if |states| == 1 {
      events := [];
    } else {
      var n := |states| - 1;
      forall i: nat | i + 1 < n ensures Next(inv, states[..n][i], states[..n][i + 1]) {
        assert Next(inv, states[i], states[i + 1]);
      }
      events := RunHasEvents(inv, states[..n]);
      assert Next(inv, states[n - 1], states[n - 1 + 1]);
      var t: nat, a: Action<T> :| Enabled(inv, states[n - 1], t, a) && states[n] == Do(inv, states[n - 1], t, a);
      var before := events;
      events := events + [Event(t, a)];
      forall i: nat | i < |events| ensures Happens(inv, states[i], states[i + 1], events[i]) {
        if i < |before| {
          assert Happens(inv, states[..n][i], states[..n][i + 1], before[i]);
        }
      }
    }
  }

  // ----- the value released last, told from the actions alone

  /** After k events, t has put its value back and has not cleared the flag yet: releasing takes two actions. */
  predicate PutBack<T>(events: seq<Event<T>>, k: nat, t: nat)
    requires k <= |events|
  {
    if k == 0 then false
    else if events[k - 1].t == t && events[k - 1].a.DoReleaseWrite? then !PutBack(events, k - 1, t)
    else PutBack(events, k - 1, t)
  }

  /** The argument of the latest release among the first k events, or the value that the lock was made with. */
  function Released<T>(first: T, events: seq<Event<T>>, k: nat): T
    requires k <= |events|
  {
    if k == 0 then first
    else if events[k - 1].a.DoReleaseWrite? && !PutBack(events, k - 1, events[k - 1].t) then events[k - 1].a.value
    else Released(first, events, k - 1)
  }

  lemma PutBackStep<T>(events: seq<Event<T>>, k: nat, t: nat)
    requires 0 < k <= |events|
    ensures PutBack(events, k, t)
         == if events[k - 1].t == t && events[k - 1].a.DoReleaseWrite? then !PutBack(events, k - 1, t)
            else PutBack(events, k - 1, t)
  {
  }

  lemma PeopleMove<T(!new)>(inv: T -> bool, s: State<T>, s': State<T>, e: Event<T>, t: nat)
    requires Inv(inv, s) && Happens(inv, s, s', e)
    ensures s'.pcs.Keys == s.pcs.Keys && e.t in s.pcs
    ensures t in s.pcs ==> (s'.pcs[t].WriteStore? <==>
      if e.t == t && e.a.DoReleaseWrite? then !s.pcs[t].WriteStore? else s.pcs[t].WriteStore?)
    ensures s'.last == if e.a.DoReleaseWrite? && !s.pcs[e.t].WriteStore? then e.a.value else s.last
  {
    hide Inv;
  }

  lemma {:induction false} EventInv<T(!new)>(inv: T -> bool, states: seq<State<T>>, events: seq<Event<T>>, k: nat)
    requires EventRun(inv, states, events) && k < |states|
    ensures Inv(inv, states[k])
  {
    if k == 0 {
      InitInv(inv, states[0]);
    } else {
      EventInv(inv, states, events, k - 1);
      assert Happens(inv, states[k - 1], states[k - 1 + 1], events[k - 1]);
      hide Inv, Enabled, Do;
      DoKeeps(inv, states[k - 1], events[k - 1].t, events[k - 1].a);
    }
  }

  lemma {:induction false} LastIsReleased<T(!new)>(inv: T -> bool, states: seq<State<T>>, events: seq<Event<T>>, k: nat)
    requires EventRun(inv, states, events) && k < |states| && states[0].cell.Some?
    ensures states[k].pcs.Keys == states[0].pcs.Keys
    ensures forall t: nat | t in states[k].pcs :: states[k].pcs[t].WriteStore? <==> PutBack(events, k, t)
    ensures states[k].last == Released(states[0].cell.value, events, k)
  {
    hide *;
    RunOf(inv, states, events);
    if k == 0 {
      NothingReleased(inv, states[0], events);
    } else {
      EventInv(inv, states, events, k - 1);
      HappensAt(inv, states, events, k);
      LastIsReleased(inv, states, events, k - 1);
      ReleasedStep(inv, states[k - 1], states[k], events, k, states[0].cell.value);
    }
  }

  lemma RunOf<T(!new)>(inv: T -> bool, states: seq<State<T>>, events: seq<Event<T>>)
    requires EventRun(inv, states, events)
    ensures |states| == |events| + 1 && Init(inv, states[0]) && states[0].cell.Some?
  {
  }

  lemma HappensAt<T(!new)>(inv: T -> bool, states: seq<State<T>>, events: seq<Event<T>>, k: nat)
    requires EventRun(inv, states, events) && 0 < k < |states|
    ensures |states| == |events| + 1 && Happens(inv, states[k - 1], states[k], events[k - 1])
  {
    assert Happens(inv, states[k - 1], states[k - 1 + 1], events[k - 1]);
    hide Happens, Init;
  }

  lemma NothingReleased<T>(inv: T -> bool, s: State<T>, events: seq<Event<T>>)
    requires Init(inv, s) && s.cell.Some?
    ensures forall t: nat | t in s.pcs :: s.pcs[t].WriteStore? <==> PutBack(events, 0, t)
    ensures s.last == Released(s.cell.value, events, 0)
  {
  }

  lemma ReleasedStep<T(!new)>(inv: T -> bool, s: State<T>, s': State<T>, events: seq<Event<T>>, k: nat, first: T)
    requires 0 < k <= |events| && Inv(inv, s) && Happens(inv, s, s', events[k - 1])
    requires forall t: nat | t in s.pcs :: s.pcs[t].WriteStore? <==> PutBack(events, k - 1, t)
    requires s.last == Released(first, events, k - 1)
    ensures s'.pcs.Keys == s.pcs.Keys
    ensures forall t: nat | t in s'.pcs :: s'.pcs[t].WriteStore? <==> PutBack(events, k, t)
    ensures s'.last == Released(first, events, k)
  {
    hide Inv, Happens, PutBack;
    PeopleMove(inv, s, s', events[k - 1], events[k - 1].t);
    forall t: nat | t in s'.pcs ensures s'.pcs[t].WriteStore? <==> PutBack(events, k, t) {
      PeopleMove(inv, s, s', events[k - 1], t);
      PutBackStep(events, k, t);
    }
  }

  /** In every interleaving, what a read guard shows, what a writer holds and what is in the cell is the value that was
      released last: nothing that a writer releases is lost. */
  lemma ShowsLastReleased<T(!new)>(inv: T -> bool, states: seq<State<T>>, events: seq<Event<T>>, k: nat)
    requires EventRun(inv, states, events) && k < |states|
    ensures states[0].cell.Some?
    ensures
      var s, value := states[k], Released(states[0].cell.value, events, k);
      && (s.cell.Some? ==> s.cell.value == value)
      && (forall t: nat | t in s.pcs && s.pcs[t].ReadHold? :: s.pcs[t].seen == value)
      && (forall t: nat | t in s.pcs && s.pcs[t].WriteHold? :: s.pcs[t].value == value)
  {
    LastIsReleased(inv, states, events, k);
    EventInv(inv, states, events, k);
    var s := states[k];
    forall t: nat | t in s.pcs ensures PcOk(inv, s, t, s.pcs[t]) {
    }
    hide EventRun, FlagInv, CountInv;
  }

  // ----- the index that a reader counts at

  /** The index that t began its latest read acquisition with, in the first k events. */
  function StartedAt<T>(events: seq<Event<T>>, k: nat, t: nat): Option<nat>
    requires k <= |events|
  {
    if k == 0 then None
    else if events[k - 1].t == t && events[k - 1].a.StartRead? then Some(events[k - 1].a.r)
    else StartedAt(events, k - 1, t)
  }

  /** Where a reader is in its loop or with its guard, it is at one index. */
  predicate AtIndex<T>(pc: Pc<T>, index: Option<nat>) {
    pc.ReadLoad? || pc.ReadCas? || pc.ReadCheck? || pc.ReadUndo? || pc.ReadStuck? || pc.ReadHold? ==>
      index == Some(pc.r)
  }

  lemma MoverIndex<T(!new)>(inv: T -> bool, s: State<T>, s': State<T>, e: Event<T>, index: Option<nat>)
    requires Happens(inv, s, s', e) && e.t in s.pcs && AtIndex(s.pcs[e.t], index)
    ensures e.t in s'.pcs && AtIndex(s'.pcs[e.t], if e.a.StartRead? then Some(e.a.r) else index)
  {
  }

  lemma IndexStep<T(!new)>(inv: T -> bool, s: State<T>, s': State<T>, e: Event<T>, t: nat, index: Option<nat>)
    requires Happens(inv, s, s', e) && t in s.pcs && AtIndex(s.pcs[t], index)
    ensures t in s'.pcs && AtIndex(s'.pcs[t], if e.t == t && e.a.StartRead? then Some(e.a.r) else index)
  {
    if e.t == t {
      MoverIndex(inv, s, s', e, index);
    } else {
      OthersStay(inv, s, s', e);
    }
    hide Happens, AtIndex;
  }

  lemma OthersStay<T(!new)>(inv: T -> bool, s: State<T>, s': State<T>, e: Event<T>)
    requires Happens(inv, s, s', e)
    ensures e.t in s'.pcs && s'.pcs == s.pcs[e.t := s'.pcs[e.t]]
  {
  }

  /** A reader counts, waits and holds its guard at the index that it was started with. */
  lemma {:induction false} IndexKept<T(!new)>(inv: T -> bool, states: seq<State<T>>, events: seq<Event<T>>, k: nat,
      t: nat)
    requires EventRun(inv, states, events) && k < |states| && t in states[0].pcs
    ensures t in states[k].pcs && AtIndex(states[k].pcs[t], StartedAt(events, k, t))
  {
    RunOf(inv, states, events);
    if 0 < k {
      HappensAt(inv, states, events, k);
      hide EventRun, Happens, AtIndex, Init;
      IndexKept(inv, states, events, k - 1, t);
      IndexStep(inv, states[k - 1], states[k], events[k - 1], t, StartedAt(events, k - 1, t));
    }
  }

  /** In every reachable state every acquisition has its next action: who is idle may begin, who waits may try again,
      and who holds may release. */
  lemma NobodyIsHalted<T>(inv: T -> bool, s: State<T>, t: nat)
    requires Inv(inv, s) && t in s.pcs
    ensures s.pcs[t].Idle? ==>
      Enabled(inv, s, t, StartWrite) && forall r: nat | r < |s.refCounts| :: Enabled(inv, s, t, StartRead(r))
    ensures InAcquireWrite(s.pcs[t]) ==> Enabled(inv, s, t, DoAcquireWrite)
    ensures InAcquireRead(s.pcs[t]) ==> Enabled(inv, s, t, DoAcquireRead)
    ensures s.pcs[t].WriteHold? ==> forall v: T | inv(v) :: Enabled(inv, s, t, DoReleaseWrite(v))
    ensures s.pcs[t].WriteStore? ==> forall v: T :: Enabled(inv, s, t, DoReleaseWrite(v))
    ensures s.pcs[t].ReadHold? ==> Enabled(inv, s, t, DoReleaseRead)
  {
    assert PcOk(inv, s, t, s.pcs[t]);
    hide FlagInv, CountInv;
  }

  // ----- who is left alone gets in

  /** The state after n actions of acquire_write by t, as long as it has not got the value. */
  function WriteTries<T>(s: State<T>, t: nat, n: nat): State<T>
    requires t in s.pcs
    decreases n
  {
    if n == 0 || !InAcquireWrite(s.pcs[t]) then s else WriteTries(AcquireWrite(s, t), t, n - 1)
  }

  lemma {:induction false} WriterPasses<T>(s: State<T>, t: nat, n: nat)
    requires t in s.pcs && s.pcs[t].WriteCheck? && s.pcs[t].idx <= |s.refCounts| && s.cell.Some?
    requires forall r: nat | s.pcs[t].idx <= r < |s.refCounts| :: s.refCounts[r] == 0
    requires |s.refCounts| - s.pcs[t].idx < n
    ensures WriteTries(s, t, n) == Goto(s.(cell := None), t, WriteHold(s.cell.value))
    decreases n
  {
    var idx, s1 := s.pcs[t].idx, AcquireWrite(s, t);
    if idx < |s.refCounts| {
      WriterPasses(s1, t, n - 1);
      assert Goto(s1.(cell := None), t, WriteHold(s.cell.value)) == Goto(s.(cell := None), t, WriteHold(s.cell.value));
    }
  }

  lemma FlagClear<T>(inv: T -> bool, s: State<T>)
    requires Inv(inv, s) && !s.excLocked
    ensures s.cell == Some(s.last)
  {
    hide CountInv;
  }

  /** A writer that finds the flag clear and no reader counted gets the value, in one action for the flag, one for each
      counter and one for the cell. */
  lemma WriterGetsIn<T>(inv: T -> bool, s: State<T>, t: nat)
    requires Inv(inv, s) && t in s.pcs && s.pcs[t].WriteSpin? && !s.excLocked
    requires forall r: nat | r < |s.refCounts| :: s.refCounts[r] == 0
    ensures WriteTries(s, t, |s.refCounts| + 2)
         == Goto(s.(excLocked := true, cell := None), t, WriteHold(s.last))
  {
    FlagClear(inv, s);
    hide Inv;
    var s1 := Goto(s.(excLocked := true), t, WriteCheck(0));
    assert s1 == AcquireWrite(s, t);
    hide Inv;
    WriterPasses(s1, t, |s.refCounts| + 1);
    assert Goto(s1.(cell := None), t, WriteHold(s.last))
        == Goto(s.(excLocked := true, cell := None), t, WriteHold(s.last));
  }

  function ReadTries<T>(s: State<T>, t: nat, n: nat): State<T>
    requires Indexed(s, t)
    decreases n
  {
    if n == 0 || !InAcquireRead(s.pcs[t]) then s else ReadTries(AcquireRead(s, t), t, n - 1)
  }

  lemma LooksAtFlag<T>(s: State<T>, t: nat, r: nat)
    requires t in s.pcs && r < |s.refCounts|
    ensures !s.excLocked && s.cell.Some? ==>
      AcquireRead(Entered(s, t, r), t)
        == Goto(s.(refCounts := s.refCounts[r := s.refCounts[r] + 1]), t, ReadHold(r, s.cell.value))
    ensures s.excLocked ==> AcquireRead(Entered(s, t, r), t) == Goto(Entered(s, t, r), t, ReadUndo(r))
  {
  }

  lemma ReadTry<T>(s: State<T>, t: nat, n: nat)
    requires Indexed(s, t) && InAcquireRead(s.pcs[t]) && 0 < n
    ensures ReadTries(s, t, n) == ReadTries(AcquireRead(s, t), t, n - 1)
  {
    hide AcquireRead;
  }

  lemma NoTry<T>(s: State<T>, t: nat)
    requires Indexed(s, t)
    ensures ReadTries(s, t, 0) == s
  {
  }

  // A reader whose load found the counter as it is, and one that is counted.
  function Loaded<T>(s: State<T>, t: nat, r: nat): State<T>
    requires r < |s.refCounts|
  {
    Goto(s, t, ReadCas(r, s.refCounts[r]))
  }

  function Entered<T>(s: State<T>, t: nat, r: nat): State<T>
    requires r < |s.refCounts|
  {
    Goto(s.(refCounts := s.refCounts[r := s.refCounts[r] + 1]), t, ReadCheck(r))
  }

  lemma ReadSteps<T>(s: State<T>, t: nat, r: nat)
    requires t in s.pcs && s.pcs[t] == ReadLoad(r) && r < |s.refCounts| && s.refCounts[r] < MAX_RC
    ensures AcquireRead(s, t) == Loaded(s, t, r) && AcquireRead(Loaded(s, t, r), t) == Entered(s, t, r)
  {
  }

  /** A reader that finds the flag clear gets a guard in three actions, and counts. */
  lemma ReaderGetsIn<T>(inv: T -> bool, s: State<T>, t: nat, r: nat)
    requires Inv(inv, s) && t in s.pcs && s.pcs[t] == ReadLoad(r) && r < |s.refCounts| && !s.excLocked
    requires s.refCounts[r] < MAX_RC
    ensures ReadTries(s, t, 3)
         == Goto(s.(refCounts := s.refCounts[r := s.refCounts[r] + 1]), t, ReadHold(r, s.last))
  {
    FlagClear(inv, s);
    hide Inv;
    ReadSteps(s, t, r);
    var s1, s2 := Loaded(s, t, r), Entered(s, t, r);
    var s3 := Goto(s.(refCounts := s.refCounts[r := s.refCounts[r] + 1]), t, ReadHold(r, s.last));
    LooksAtFlag(s, t, r);
    assert s1.pcs[t].ReadCas? && s2.pcs[t].ReadCheck? && s3.pcs[t].ReadHold?;
    hide AcquireRead, ReadTries, Loaded, Entered;
    ReadTry(s, t, 3);
    ReadTry(s1, t, 2);
    ReadTry(s2, t, 1);
    NoTry(s3, t);
  }

  /** A reader that finds the flag set is back where it began after four actions, and nothing has changed. */
  lemma ReaderBacksOff<T>(inv: T -> bool, s: State<T>, t: nat, r: nat)
    requires Inv(inv, s) && t in s.pcs && s.pcs[t] == ReadLoad(r) && r < |s.refCounts| && s.excLocked
    requires s.refCounts[r] < MAX_RC
    ensures ReadTries(s, t, 4) == s
  {
    hide Inv;
    ReadSteps(s, t, r);
    var s1, s2 := Loaded(s, t, r), Entered(s, t, r);
    var s3 := Goto(s2, t, ReadUndo(r));
    LooksAtFlag(s, t, r);
    assert AcquireRead(s3, t) == s;
    assert s1.pcs[t].ReadCas? && s2.pcs[t].ReadCheck? && s3.pcs[t].ReadUndo?;
    hide AcquireRead, ReadTries, Loaded, Entered;
    ReadTry(s, t, 4);
    ReadTry(s1, t, 3);
    ReadTry(s2, t, 2);
    ReadTry(s3, t, 1);
    NoTry(s, t);
  }
}
