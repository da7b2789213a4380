/** The distributed reader-writer lock: one writer flag, one reader counter per index, one cell. Any number of
    acquisitions go through its acquire and release loops, one atomic action at a time; a thread that acquires
    again while it keeps a guard is in two of them. */
module RwLock {
  import opened Definitions

  const MAX_RC: nat := 0xffff_ffff_ffff_fff0
  const U64: nat := 0x1_0000_0000_0000_0000

  /** Where an acquisition is in the loops of the lock. */
  datatype Pc<T> =
    | Idle
    // acquire_write: spinning on the flag, then waiting for the counters from `idx` on
    | WriteSpin
    | WriteCheck(idx: nat)
    // the value is out of the cell
    | WriteHold(value: T)
    // release_write: the value is back, the flag is still set
    | WriteStore
    // acquire_read: before the load, the compare-and-exchange, and the look at the flag
    | ReadLoad(r: nat)
    | ReadCas(r: nat, rc: nat)
    | ReadCheck(r: nat)
    | ReadUndo(r: nat)
    // the loop that stands for a panic
    | ReadStuck(r: nat)
    | ReadHold(r: nat, seen: T)

  /** `last` is the value that was put into the cell last. */
  datatype State<T> = State(excLocked: bool, refCounts: seq<nat>, cell: Option<T>, pcs: map<nat, Pc<T>>, last: T)

  function Goto<T>(s: State<T>, t: nat, pc: Pc<T>): State<T> {
    s.(pcs := s.pcs[t := pc])
  }

  // 64-bit atomic increment and decrement.
  function Inc(x: nat): nat { (x + 1) % U64 }
  function Dec(x: nat): nat { if x == 0 then U64 - 1 else x - 1 }

  // ----- one atomic action of each operation

  predicate InAcquireWrite<T>(pc: Pc<T>) {
    pc.WriteSpin? || pc.WriteCheck?
  }

  predicate InAcquireRead<T>(pc: Pc<T>) {
    pc.ReadLoad? || pc.ReadCas? || pc.ReadCheck? || pc.ReadUndo? || pc.ReadStuck?
  }

  predicate Indexed<T>(s: State<T>, t: nat) {
    t in s.pcs &&
    match s.pcs[t]
    case ReadLoad(r) => r < |s.refCounts|
    case ReadCas(r, _) => r < |s.refCounts|
    case ReadCheck(r) => r < |s.refCounts|
    case ReadUndo(r) => r < |s.refCounts|
    case ReadHold(r, _) => r < |s.refCounts|
    case _ => true
  }

  function AcquireWrite<T>(s: State<T>, t: nat): State<T>
    requires t in s.pcs && InAcquireWrite(s.pcs[t])
  {
    match s.pcs[t]
    case WriteSpin =>
      if s.excLocked then s else Goto(s.(excLocked := true), t, WriteCheck(0))
    case WriteCheck(idx) =>
      if idx < |s.refCounts| then
        if s.refCounts[idx] == 0 then Goto(s, t, WriteCheck(idx + 1)) else s
      else if s.cell.Some? then Goto(s.(cell := None), t, WriteHold(s.cell.value))
      else s
  }

  function AcquireRead<T>(s: State<T>, t: nat): State<T>
    requires Indexed(s, t) && InAcquireRead(s.pcs[t])
  {
    match s.pcs[t]
    case ReadLoad(r) =>
      if s.refCounts[r] == MAX_RC then Goto(s, t, ReadStuck(r)) else Goto(s, t, ReadCas(r, s.refCounts[r]))
    case ReadCas(r, rc) =>
      if s.refCounts[r] == rc then Goto(s.(refCounts := s.refCounts[r := Inc(rc)]), t, ReadCheck(r))
      else Goto(s, t, ReadLoad(r))
    case ReadCheck(r) =>
      if s.excLocked then Goto(s, t, ReadUndo(r))
      else if s.cell.Some? then Goto(s, t, ReadHold(r, s.cell.value))
      else s
    case ReadUndo(r) => Goto(s.(refCounts := s.refCounts[r := Dec(s.refCounts[r])]), t, ReadLoad(r))
    case ReadStuck(_) => s
  }

  function ReleaseWrite<T>(s: State<T>, t: nat, value: T): State<T>
    requires t in s.pcs && (s.pcs[t].WriteHold? || s.pcs[t].WriteStore?)
  {
    if s.pcs[t].WriteHold? then Goto(s.(cell := Some(value), last := value), t, WriteStore)
    else Goto(s.(excLocked := false), t, Idle)
  }

  function ReleaseRead<T>(s: State<T>, t: nat): State<T>
    requires Indexed(s, t) && s.pcs[t].ReadHold?
  {
    var r := s.pcs[t].r;
    Goto(s.(refCounts := s.refCounts[r := Dec(s.refCounts[r])]), t, Idle)
  }

  // ----- runs

  datatype Action<T> =
    | StartWrite | StartRead(r: nat)
    | DoAcquireWrite | DoAcquireRead | DoReleaseWrite(value: T) | DoReleaseRead

  predicate Enabled<T>(inv: T -> bool, s: State<T>, t: nat, a: Action<T>) {
    t in s.pcs &&
    match a
    case StartWrite => s.pcs[t].Idle?
    case StartRead(r) => s.pcs[t].Idle? && r < |s.refCounts|
    case DoAcquireWrite => InAcquireWrite(s.pcs[t])
    case DoAcquireRead => Indexed(s, t) && InAcquireRead(s.pcs[t])
    case DoReleaseWrite(v) => (s.pcs[t].WriteHold? && inv(v)) || s.pcs[t].WriteStore?
    case DoReleaseRead => Indexed(s, t) && s.pcs[t].ReadHold?
  }

  function Do<T>(inv: T -> bool, s: State<T>, t: nat, a: Action<T>): State<T>
    requires Enabled(inv, s, t, a)
  {
    match a
    case StartWrite => Goto(s, t, WriteSpin)
    case StartRead(r) => Goto(s, t, ReadLoad(r))
    case DoAcquireWrite => AcquireWrite(s, t)
    case DoAcquireRead => AcquireRead(s, t)
    case DoReleaseWrite(v) => ReleaseWrite(s, t, v)
    case DoReleaseRead => ReleaseRead(s, t)
  }

  ghost predicate Init<T>(inv: T -> bool, s: State<T>) {
    && !s.excLocked
    && 0 < |s.refCounts|
    && (forall r: nat | r < |s.refCounts| :: s.refCounts[r] == 0)
    && s.cell == Some(s.last)
    && inv(s.last)
    && (forall t: nat | t in s.pcs :: s.pcs[t].Idle?)
  }

  // ----- the invariant

  /** Past the flag: the thread that set it and has not cleared it yet. */
  predicate Owns<T>(pc: Pc<T>) {
    pc.WriteCheck? || pc.WriteHold? || pc.WriteStore?
  }

  /** Counted at index r: pending, about to step back, or holding a guard. */
  predicate Counted<T>(pc: Pc<T>, r: nat) {
    match pc
    case ReadCheck(r') => r' == r
    case ReadUndo(r') => r' == r
    case ReadHold(r', _) => r' == r
    case _ => false
  }

  function CountedAt<T>(pcs: map<nat, Pc<T>>, r: nat): set<nat> {
    set t: nat | t in pcs && Counted(pcs[t], r)
  }

  ghost predicate FlagInv<T>(s: State<T>) {
    && (s.excLocked <==> exists t: nat :: t in s.pcs && Owns(s.pcs[t]))
    && (forall t: nat, u: nat | t in s.pcs && u in s.pcs && Owns(s.pcs[t]) && Owns(s.pcs[u]) :: t == u)
  }

  ghost predicate CountInv<T>(s: State<T>) {
    forall r: nat | r < |s.refCounts| :: s.refCounts[r] == |CountedAt(s.pcs, r)| && s.refCounts[r] <= MAX_RC
  }

  /** What the position of one thread says about the shared state. */
  ghost predicate PcOk<T>(inv: T -> bool, s: State<T>, t: nat, pc: Pc<T>) {
    match pc
    case Idle => true
    case WriteSpin => true
    case WriteCheck(idx) => idx <= |s.refCounts| && s.cell.Some?
    case WriteHold(v) => s.cell.None? && v == s.last && inv(v)
    case WriteStore => s.cell.Some?
    case ReadLoad(r) => r < |s.refCounts|
    case ReadCas(r, rc) => r < |s.refCounts| && rc < MAX_RC
    case ReadCheck(r) => r < |s.refCounts|
    case ReadUndo(r) => r < |s.refCounts|
    case ReadStuck(r) => r < |s.refCounts| && MAX_RC < |s.pcs|
    case ReadHold(r, seen) => r < |s.refCounts| && s.cell == Some(seen)
  }

  /** No guard is left at an index that the writer has already passed. */
  predicate Apart<T>(w: Pc<T>, g: Pc<T>) {
    g.ReadHold? ==>
      match w
      case WriteCheck(idx) => idx <= g.r
      case WriteHold(_) => false
      case WriteStore => false
      case _ => true
  }

  ghost predicate Inv<T>(inv: T -> bool, s: State<T>) {
    && FlagInv(s)
    && CountInv(s)
    && (forall t: nat | t in s.pcs :: PcOk(inv, s, t, s.pcs[t]))
    && (forall t: nat, u: nat | t in s.pcs && u in s.pcs :: Apart(s.pcs[t], s.pcs[u]))
    && (s.cell.None? ==> exists t: nat :: t in s.pcs && s.pcs[t].WriteHold?)
    && (s.cell.Some? ==> s.cell.value == s.last)
    && inv(s.last)
  }

  // ----- counting

  function OthersAt<T>(pcs: map<nat, Pc<T>>, t: nat, r: nat): set<nat> {
    CountedAt(pcs, r) - {t}
  }

  lemma CountWith<T>(pcs: map<nat, Pc<T>>, t: nat, r: nat)
    requires t in pcs
    ensures |CountedAt(pcs, r)| == |OthersAt(pcs, t, r)| + if Counted(pcs[t], r) then 1 else 0
  {
  }

  lemma CountMoves<T>(pcs: map<nat, Pc<T>>, t: nat, pc: Pc<T>, r: nat)
    requires t in pcs
    ensures
      var before, after := |CountedAt(pcs, r)|, |CountedAt(pcs[t := pc], r)|;
      after + (if Counted(pcs[t], r) then 1 else 0) == before + (if Counted(pc, r) then 1 else 0)
  {
    hide Counted;
    CountWith(pcs, t, r);
    CountWith(pcs[t := pc], t, r);
    assert OthersAt(pcs[t := pc], t, r) == OthersAt(pcs, t, r);
    hide CountedAt, OthersAt;
  }

  lemma CountWithin<T>(pcs: map<nat, Pc<T>>, t: nat, r: nat)
    requires t in pcs
    ensures Counted(pcs[t], r) ==> 0 < |CountedAt(pcs, r)|
    ensures !Counted(pcs[t], r) ==> |CountedAt(pcs, r)| < |pcs|
  {
    var all := pcs.Keys;
    if Counted(pcs[t], r) {
      assert t in CountedAt(pcs, r);
    } else {
      Subset(CountedAt(pcs, r), all - {t});
    }
  }

  lemma Subset(a: set<nat>, b: set<nat>)
    requires a <= b
    ensures |a| <= |b|
  {
    assert b == a + (b - a);
  }

  /** The counters still agree after thread t moves and counter r0 changes with it. */
  lemma CountsKept<T>(s: State<T>, s': State<T>, t: nat, pc: Pc<T>)
    requires t in s.pcs && s'.pcs == s.pcs[t := pc] && |s'.refCounts| == |s.refCounts| && CountInv(s)
    requires forall r: nat | r < |s.refCounts| ::
      && s'.refCounts[r] + (if Counted(s.pcs[t], r) then 1 else 0) == s.refCounts[r] + (if Counted(pc, r) then 1 else 0)
      && s'.refCounts[r] <= MAX_RC
    ensures CountInv(s')
  {
    forall r: nat | r < |s.refCounts| ensures s'.refCounts[r] == |CountedAt(s'.pcs, r)| {
      CountMoves(s.pcs, t, pc, r);
    }
  }

  lemma CountsSame<T>(s: State<T>, s': State<T>, t: nat, pc: Pc<T>)
    requires t in s.pcs && s'.pcs == s.pcs[t := pc] && s'.refCounts == s.refCounts && CountInv(s)
    requires forall r: nat :: Counted(pc, r) == Counted(s.pcs[t], r)
    ensures CountInv(s')
  {
    CountsKept(s, s', t, pc);
  }

  // ----- every action keeps the invariant

  lemma InitInv<T>(inv: T -> bool, s: State<T>)
    requires Init(inv, s)
    ensures Inv(inv, s)
  {
  }

  /** A thread that is not past the flag moves, and neither the flag nor the cell changes. */
  lemma OutsiderMoves<T>(inv: T -> bool, s: State<T>, s': State<T>, t: nat, pc: Pc<T>)
    requires Inv(inv, s) && t in s.pcs && !Owns(s.pcs[t]) && !Owns(pc)
    requires s'.pcs == s.pcs[t := pc] && s'.excLocked == s.excLocked && s'.cell == s.cell && s'.last == s.last
    requires |s'.refCounts| == |s.refCounts| && CountInv(s')
    requires PcOk(inv, s', t, pc) && (pc.ReadHold? ==> !s.excLocked)
    ensures Inv(inv, s')
  {
    hide CountInv;
    SamePcs(s, t, pc);
    assert FlagInv(s') by { OutsiderFlag(s, s', t, pc); }
    forall u: nat | u in s'.pcs ensures PcOk(inv, s', u, s'.pcs[u]) {
      if u != t { assert PcOk(inv, s, u, s.pcs[u]); }
    }
    forall u: nat, v: nat | u in s'.pcs && v in s'.pcs ensures Apart(s'.pcs[u], s'.pcs[v]) {
      if u != t && v != t {
        assert Apart(s.pcs[u], s.pcs[v]);
      } else if v == t && pc.ReadHold? {
        assert !Owns(s'.pcs[u]);
      }
    }
    if s.cell.None? {
      var u: nat :| u in s.pcs && s.pcs[u].WriteHold?;
      assert s'.pcs[u].WriteHold?;
    }
  }

  lemma OutsiderFlag<T>(s: State<T>, s': State<T>, t: nat, pc: Pc<T>)
    requires FlagInv(s) && t in s.pcs && !Owns(s.pcs[t]) && !Owns(pc)
    requires s'.pcs == s.pcs[t := pc] && s'.excLocked == s.excLocked
    ensures FlagInv(s')
  {
    hide Owns;
    if s.excLocked {
      var u: nat :| u in s.pcs && Owns(s.pcs[u]);
      assert Owns(s'.pcs[u]);
    }
  }

  lemma SamePcs<T>(s: State<T>, t: nat, pc: Pc<T>)
    requires t in s.pcs
    ensures |s.pcs[t := pc]| == |s.pcs|
  {
  }

  lemma StartKeeps<T>(inv: T -> bool, s: State<T>, t: nat, pc: Pc<T>)
    requires Inv(inv, s) && t in s.pcs && s.pcs[t].Idle?
    requires pc.WriteSpin? || (pc.ReadLoad? && pc.r < |s.refCounts|)
    ensures Inv(inv, Goto(s, t, pc))
  {
    CountsSame(s, Goto(s, t, pc), t, pc);
    hide CountInv, FlagInv;
    OutsiderMoves(inv, s, Goto(s, t, pc), t, pc) by { hide Inv; }
  }

  /** The owner of the flag moves, or a thread becomes the owner, or the owner gives up the flag. */
  lemma OwnerMoves<T>(inv: T -> bool, s: State<T>, s': State<T>, t: nat, pc: Pc<T>)
    requires Inv(inv, s) && t in s.pcs && (Owns(s.pcs[t]) || !s.excLocked)
    requires s'.pcs == s.pcs[t := pc] && s'.refCounts == s.refCounts && s'.excLocked == Owns(pc)
    requires forall r: nat :: !Counted(s.pcs[t], r) && !Counted(pc, r)
    requires PcOk(inv, s', t, pc)
    requires forall u: nat | u in s.pcs && u != t && s.pcs[u].ReadHold? :: Apart(pc, s.pcs[u]) && s'.cell == s.cell
    requires !pc.ReadHold?
    requires s'.cell.None? ==> pc.WriteHold?
    requires s'.cell.Some? ==> s'.cell.value == s'.last
    requires inv(s'.last)
    ensures Inv(inv, s')
  {
    CountsSame(s, s', t, pc);
    SamePcs(s, t, pc);
    forall u: nat | u in s.pcs && u != t ensures !Owns(s.pcs[u]) {
      if Owns(s.pcs[t]) { assert Owns(s.pcs[u]) ==> u == t; }
    }
    hide CountInv;
    forall u: nat | u in s'.pcs ensures PcOk(inv, s', u, s'.pcs[u]) {
      if u != t { assert PcOk(inv, s, u, s.pcs[u]); }
    }
    forall u: nat, v: nat | u in s'.pcs && v in s'.pcs ensures Apart(s'.pcs[u], s'.pcs[v]) {
    }
    assert pc == s'.pcs[t];
  }

  lemma WriteSpinKeeps<T>(inv: T -> bool, s: State<T>, t: nat)
    requires Inv(inv, s) && t in s.pcs && s.pcs[t].WriteSpin?
    ensures Inv(inv, AcquireWrite(s, t))
  {
    if !s.excLocked {
      hide CountInv;
      assert s.cell.Some?;
      OwnerMoves(inv, s, AcquireWrite(s, t), t, WriteCheck(0)) by { hide Inv; }
    }
  }

  lemma WriteCheckKeeps<T>(inv: T -> bool, s: State<T>, t: nat)
    requires Inv(inv, s) && t in s.pcs && s.pcs[t].WriteCheck? && s.pcs[t].idx < |s.refCounts|
    ensures Inv(inv, AcquireWrite(s, t))
  {
    var idx := s.pcs[t].idx;
    if s.refCounts[idx] == 0 {
      assert PcOk(inv, s, t, s.pcs[t]) && s.excLocked;
      forall u: nat | u in s.pcs && u != t && s.pcs[u].ReadHold? ensures Apart(WriteCheck(idx + 1), s.pcs[u]) {
        assert Apart(s.pcs[t], s.pcs[u]);
        CountWithin(s.pcs, u, idx);
      }
      var s' := AcquireWrite(s, t);
      assert inv(s.last) && (s.cell.Some? ==> s.cell.value == s.last);
      hide Inv;
      OwnerMoves(inv, s, s', t, WriteCheck(idx + 1));
    }
  }

  lemma WriteTakeKeeps<T>(inv: T -> bool, s: State<T>, t: nat)
    requires Inv(inv, s) && t in s.pcs && s.pcs[t].WriteCheck? && |s.refCounts| <= s.pcs[t].idx
    ensures Inv(inv, AcquireWrite(s, t))
  {
    assert PcOk(inv, s, t, s.pcs[t]) && s.excLocked;
    forall u: nat | u in s.pcs ensures !s.pcs[u].ReadHold? {
      assert Apart(s.pcs[t], s.pcs[u]) && PcOk(inv, s, u, s.pcs[u]);
    }
    var s' := AcquireWrite(s, t);
    assert inv(s.last) && s.cell == Some(s.last);
    hide Inv;
    OwnerMoves(inv, s, s', t, WriteHold(s.last));
  }

  lemma AcquireWriteKeeps<T>(inv: T -> bool, s: State<T>, t: nat)
    requires Inv(inv, s) && t in s.pcs && InAcquireWrite(s.pcs[t])
    ensures Inv(inv, AcquireWrite(s, t))
  {
    hide Inv;
    match s.pcs[t]
    case WriteSpin => WriteSpinKeeps(inv, s, t);
    case WriteCheck(idx) =>
      if idx < |s.refCounts| {
        WriteCheckKeeps(inv, s, t);
      } else {
        WriteTakeKeeps(inv, s, t);
      }
  }

  /** The counter of thread t's index counts t, so it is not zero: the decrement does not wrap. */
  lemma NoUnderflow<T>(inv: T -> bool, s: State<T>, t: nat)
    requires Inv(inv, s) && t in s.pcs && (s.pcs[t].ReadUndo? || s.pcs[t].ReadHold?)
    ensures s.pcs[t].r < |s.refCounts| && 0 < s.refCounts[s.pcs[t].r]
  {
    assert PcOk(inv, s, t, s.pcs[t]);
    CountWithin(s.pcs, t, s.pcs[t].r);
  }

  lemma ReadLoadKeeps<T>(inv: T -> bool, s: State<T>, t: nat)
    requires Inv(inv, s) && Indexed(s, t) && s.pcs[t].ReadLoad?
    ensures Inv(inv, AcquireRead(s, t))
  {
    var s' := AcquireRead(s, t);
    CountsSame(s, s', t, s'.pcs[t]);
    SamePcs(s, t, s'.pcs[t]);
    CountWithin(s.pcs, t, s.pcs[t].r);
    assert PcOk(inv, s', t, s'.pcs[t]);
    hide Inv;
    OutsiderMoves(inv, s, s', t, s'.pcs[t]);
  }

  lemma ReadCasKeeps<T>(inv: T -> bool, s: State<T>, t: nat)
    requires Inv(inv, s) && Indexed(s, t) && s.pcs[t].ReadCas?
    ensures Inv(inv, AcquireRead(s, t))
  {
    var s' := AcquireRead(s, t);
    assert PcOk(inv, s, t, s.pcs[t]);
    CountsKept(s, s', t, s'.pcs[t]);
    hide Inv;
    OutsiderMoves(inv, s, s', t, s'.pcs[t]);
  }

  lemma ReadCheckKeeps<T>(inv: T -> bool, s: State<T>, t: nat)
    requires Inv(inv, s) && Indexed(s, t) && s.pcs[t].ReadCheck?
    ensures Inv(inv, AcquireRead(s, t)) && (AcquireRead(s, t).pcs[t].ReadUndo? || AcquireRead(s, t).pcs[t].ReadHold?)
  {
    var s' := AcquireRead(s, t);
    assert !s.excLocked ==> s.cell.Some?;
    CountsSame(s, s', t, s'.pcs[t]);
    hide Inv;
    OutsiderMoves(inv, s, s', t, s'.pcs[t]);
  }

  lemma ReadUndoKeeps<T>(inv: T -> bool, s: State<T>, t: nat)
    requires Inv(inv, s) && Indexed(s, t) && s.pcs[t].ReadUndo?
    ensures Inv(inv, AcquireRead(s, t))
  {
    var s' := AcquireRead(s, t);
    NoUnderflow(inv, s, t);
    CountsKept(s, s', t, s'.pcs[t]);
    hide Inv;
    OutsiderMoves(inv, s, s', t, s'.pcs[t]);
  }

  lemma AcquireReadKeeps<T>(inv: T -> bool, s: State<T>, t: nat)
    requires Inv(inv, s) && Indexed(s, t) && InAcquireRead(s.pcs[t])
    ensures Inv(inv, AcquireRead(s, t))
  {
    hide Inv;
    match s.pcs[t]
    case ReadLoad(_) => ReadLoadKeeps(inv, s, t);
    case ReadCas(_, _) => ReadCasKeeps(inv, s, t);
    case ReadCheck(_) => ReadCheckKeeps(inv, s, t);
    case ReadUndo(_) => ReadUndoKeeps(inv, s, t);
    case ReadStuck(_) =>
  }

  lemma ReleaseWriteKeeps<T>(inv: T -> bool, s: State<T>, t: nat, value: T)
    requires Inv(inv, s) && t in s.pcs && ((s.pcs[t].WriteHold? && inv(value)) || s.pcs[t].WriteStore?)
    ensures Inv(inv, ReleaseWrite(s, t, value))
  {
    var s' := ReleaseWrite(s, t, value);
    assert PcOk(inv, s, t, s.pcs[t]) && s.excLocked;
    forall u: nat | u in s.pcs ensures !s.pcs[u].ReadHold? {
      assert Apart(s.pcs[t], s.pcs[u]);
    }
    assert inv(s.last) && (s.cell.Some? ==> s.cell.value == s.last);
    hide Inv;
    OwnerMoves(inv, s, s', t, s'.pcs[t]);
  }

  lemma ReleaseReadKeeps<T>(inv: T -> bool, s: State<T>, t: nat)
    requires Inv(inv, s) && Indexed(s, t) && s.pcs[t].ReadHold?
    ensures Inv(inv, ReleaseRead(s, t))
  {
    var s' := ReleaseRead(s, t);
    NoUnderflow(inv, s, t);
    CountsKept(s, s', t, s'.pcs[t]);
    hide Inv;
    OutsiderMoves(inv, s, s', t, s'.pcs[t]);
  }

  /** Whatever thread acts next, the invariant is kept. */
  lemma DoKeeps<T>(inv: T -> bool, s: State<T>, t: nat, a: Action<T>)
    requires Inv(inv, s) && Enabled(inv, s, t, a)
    ensures Inv(inv, Do(inv, s, t, a))
  {
    hide Inv;
    match a
    case StartWrite => StartKeeps(inv, s, t, WriteSpin);
    case StartRead(r) => StartKeeps(inv, s, t, ReadLoad(r));
    case DoAcquireWrite => AcquireWriteKeeps(inv, s, t);
    case DoAcquireRead => AcquireReadKeeps(inv, s, t);
    case DoReleaseWrite(v) => ReleaseWriteKeeps(inv, s, t, v);
    case DoReleaseRead => ReleaseReadKeeps(inv, s, t);
  }

  // ----- what holds in every reachable state

  ghost predicate Run<T(!new)>(inv: T -> bool, states: seq<State<T>>) {
    && 0 < |states|
    && Init(inv, states[0])
    && forall i: nat | i + 1 < |states| :: Next(inv, states[i], states[i + 1])
  }

  ghost predicate Next<T(!new)>(inv: T -> bool, s: State<T>, s': State<T>) {
    exists t: nat, a: Action<T> :: Enabled(inv, s, t, a) && s' == Do(inv, s, t, a)
  }

  lemma {:induction false} RunInv<T(!new)>(inv: T -> bool, states: seq<State<T>>, i: nat)
    requires Run(inv, states) && i < |states|
    ensures Inv(inv, states[i])
  {
    if i == 0 {
      InitInv(inv, states[0]);
    } else {
      RunInv(inv, states, i - 1);
      assert Next(inv, states[i - 1], states[i - 1 + 1]);
      var t: nat, a: Action<T> :| Enabled(inv, states[i - 1], t, a) && states[i] == Do(inv, states[i - 1], t, a);
      hide Inv, Run, Enabled, Do;
      DoKeeps(inv, states[i - 1], t, a);
    }
  }

  /** A writer has the cell only when no guard exists; one thread at most is past the flag; every guard's
      value is the stored one, which is the last that a writer put back; and the user's invariant holds of it. */
  lemma Exclusion<T(!new)>(inv: T -> bool, states: seq<State<T>>, i: nat, t: nat, u: nat)
    requires Run(inv, states) && i < |states| && t in states[i].pcs && u in states[i].pcs
    ensures
      var s := states[i];
      && (s.pcs[t].WriteHold? ==> !s.pcs[u].ReadHold? && s.cell.None?)
      && (Owns(s.pcs[t]) && Owns(s.pcs[u]) ==> t == u)
      && (s.pcs[t].ReadHold? ==> s.cell == Some(s.pcs[t].seen) && s.pcs[t].seen == s.last && inv(s.last))
      && (s.pcs[t].ReadHold? && s.pcs[u].ReadHold? ==> s.pcs[t].seen == s.pcs[u].seen)
      && (s.pcs[t].WriteHold? ==> inv(s.pcs[t].value))
  {
    RunInv(inv, states, i);
    var s := states[i];
    assert PcOk(inv, s, t, s.pcs[t]) && PcOk(inv, s, u, s.pcs[u]) && Apart(s.pcs[t], s.pcs[u]);
    hide CountInv, Run;
  }

  /** Each counter is the number of pending readers and guards at its index, never above MAX_RC,
      and not zero when a thread is about to decrement it. */
  lemma Accounting<T(!new)>(inv: T -> bool, states: seq<State<T>>, i: nat, r: nat)
    requires Run(inv, states) && i < |states| && r < |states[i].refCounts|
    ensures states[i].refCounts[r] == |CountedAt(states[i].pcs, r)| <= MAX_RC
    ensures forall t: nat | t in states[i].pcs && (states[i].pcs[t].ReadUndo? || states[i].pcs[t].ReadHold?) &&
      states[i].pcs[t].r == r :: 0 < states[i].refCounts[r]
  {
    RunInv(inv, states, i);
    forall t: nat | t in states[i].pcs && (states[i].pcs[t].ReadUndo? || states[i].pcs[t].ReadHold?) &&
      states[i].pcs[t].r == r
      ensures 0 < states[i].refCounts[r]
    {
      NoUnderflow(inv, states[i], t);
    }
  }

  // ----- when acquire_read runs into its panic loop

  predicate Reads<T>(pc: Pc<T>, r: nat) {
    (pc.ReadLoad? || pc.ReadCas? || pc.ReadCheck? || pc.ReadUndo? || pc.ReadHold?) && pc.r == r
  }

  /** Read acquisitions under way at index r, and the guards they led to. */
  function ReadersAt<T>(pcs: map<nat, Pc<T>>, r: nat): set<nat> {
    set t: nat | t in pcs && Reads(pcs[t], r)
  }

  /** A load runs into the loop exactly if it finds as many guards and pending readers at its index as a counter can
      hold. */
  lemma LoadSticks<T>(inv: T -> bool, s: State<T>, t: nat)
    requires Inv(inv, s) && Indexed(s, t) && s.pcs[t].ReadLoad?
    ensures AcquireRead(s, t).pcs[t].ReadStuck? <==> |CountedAt(s.pcs, s.pcs[t].r)| == MAX_RC
  {
    assert CountInv(s);
    hide Inv, FlagInv, CountedAt;
  }

  /** Who counts at an index is a reader there, and so is whoever is about to load. */
  lemma CountedAreReaders<T>(pcs: map<nat, Pc<T>>, t: nat, r: nat)
    requires t in pcs && pcs[t] == ReadLoad(r)
    ensures |CountedAt(pcs, r)| < |ReadersAt(pcs, r)|
  {
    Subset(CountedAt(pcs, r) + {t}, ReadersAt(pcs, r));
  }

  /** Only a load runs into the loop. */
  lemma StuckByLoad<T>(inv: T -> bool, s: State<T>, u: nat, a: Action<T>, t: nat)
    requires Enabled(inv, s, u, a) && t in s.pcs && !s.pcs[t].ReadStuck?
    requires t in Do(inv, s, u, a).pcs && Do(inv, s, u, a).pcs[t].ReadStuck?
    ensures Indexed(s, t) && s.pcs[t].ReadLoad? && AcquireRead(s, t).pcs[t].ReadStuck?
  {
  }

  ghost predicate FewReaders<T>(s: State<T>) {
    forall r: nat | r < |s.refCounts| :: |ReadersAt(s.pcs, r)| <= MAX_RC
  }

  lemma NextNotStuck<T(!new)>(inv: T -> bool, s: State<T>, s': State<T>, t: nat)
    requires Inv(inv, s) && Next(inv, s, s') && FewReaders(s) && t in s'.pcs
    requires t in s.pcs ==> !s.pcs[t].ReadStuck?
    ensures t in s.pcs && !s'.pcs[t].ReadStuck?
  {
    var u: nat, a: Action<T> :| Enabled(inv, s, u, a) && s' == Do(inv, s, u, a);
    SamePeople(inv, s, u, a);
    hide Inv, Do, Enabled, AcquireRead, CountedAt, ReadersAt, Next;
    if s'.pcs[t].ReadStuck? {
      StuckByLoad(inv, s, u, a, t);
      LoadSticks(inv, s, t);
      CountedAreReaders(s.pcs, t, s.pcs[t].r);
    }
  }

  /** While no index has more guards and pending acquisitions together than a counter can hold, no acquisition
      runs into the loop, whichever threads the guards belong to. */
  lemma {:induction false} NeverStuck<T(!new)>(inv: T -> bool, states: seq<State<T>>, i: nat, t: nat)
    requires Run(inv, states) && i < |states| && t in states[i].pcs
    requires forall j: nat | j < i :: FewReaders(states[j])
    ensures !states[i].pcs[t].ReadStuck?
  {
    if 0 < i {
      RunInv(inv, states, i - 1);
      assert Next(inv, states[i - 1], states[i - 1 + 1]);
      PeopleStay(inv, states, i - 1);
      PeopleStay(inv, states, i);
      hide Run, Inv, Next, FewReaders;
      NeverStuck(inv, states, i - 1, t);
      NextNotStuck(inv, states[i - 1], states[i], t);
    }
  }

  lemma SamePeople<T>(inv: T -> bool, s: State<T>, t: nat, a: Action<T>)
    requires Enabled(inv, s, t, a)
    ensures Do(inv, s, t, a).pcs.Keys == s.pcs.Keys
  {
  }

  /** The initial state after the acquisitions in g, all at index 0, have become guards. */
  function WithGuards<T>(s0: State<T>, g: set<nat>): State<T>
    requires 0 < |s0.refCounts|
  {
    s0.(refCounts := s0.refCounts[0 := |g|],
        pcs := map t: nat | t in s0.pcs :: if t in g then ReadHold(0, s0.last) else Idle)
  }

  lemma RunStep<T(!new)>(inv: T -> bool, states: seq<State<T>>, t: nat, a: Action<T>)
    requires Run(inv, states) && Enabled(inv, states[|states| - 1], t, a)
    ensures Run(inv, states + [Do(inv, states[|states| - 1], t, a)])
  {
    var s' := Do(inv, states[|states| - 1], t, a);
    var more := states + [s'];
    hide Do, Enabled;
    forall i: nat | i + 1 < |more| ensures Next(inv, more[i], more[i + 1]) {
      if i + 1 < |states| {
        assert Next(inv, states[i], states[i + 1]);
      }
    }
  }

  /** One acquisition that nobody disturbs: start, load, compare-and-exchange, look at the flag. */
  lemma OneMoreGuard<T(!new)>(inv: T -> bool, s0: State<T>, g: set<nat>, t: nat, states: seq<State<T>>)
    returns (more: seq<State<T>>)
    requires Init(inv, s0) && g < s0.pcs.Keys && |g| < MAX_RC && t in s0.pcs && t !in g
    requires Run(inv, states) && states[|states| - 1] == WithGuards(s0, g)
    ensures Run(inv, more) && more[0] == states[0] && more[|more| - 1] == WithGuards(s0, g + {t})
  {
    var s1 := WithGuards(s0, g);
    var s2 := Do(inv, s1, t, StartRead(0));
    var s3 := Do(inv, s2, t, DoAcquireRead);
    var s4 := Do(inv, s3, t, DoAcquireRead);
    var s5 := Do(inv, s4, t, DoAcquireRead);
    assert s5 == WithGuards(s0, g + {t});
    hide Run, Do, Enabled, WithGuards;
    RunStep(inv, states, t, StartRead(0));
    RunStep(inv, states + [s2], t, DoAcquireRead);
    RunStep(inv, states + [s2] + [s3], t, DoAcquireRead);
    RunStep(inv, states + [s2] + [s3] + [s4], t, DoAcquireRead);
    more := states + [s2] + [s3] + [s4] + [s5];
  }

  lemma {:induction false} GuardsReached<T(!new)>(inv: T -> bool, s0: State<T>, g: set<nat>)
    returns (states: seq<State<T>>)
    requires Init(inv, s0) && g <= s0.pcs.Keys && |g| <= MAX_RC
    ensures Run(inv, states) && states[0] == s0 && states[|states| - 1] == WithGuards(s0, g)
  {
    if g == {} {
      states := [s0];
      assert s0 == WithGuards(s0, {});
    } else {
      var t :| t in g;
      hide Run, WithGuards;
      states := GuardsReached(inv, s0, g - {t});
      states := OneMoreGuard(inv, s0, g - {t}, t, states);
      assert g - {t} + {t} == g;
    }
  }

  lemma {:induction false} SubsetOfSize(s: set<nat>, n: nat) returns (g: set<nat>)
    requires n <= |s|
    ensures g <= s && |g| == n
  {
    if n == |s| {
      g := s;
    } else {
      var x :| x in s;
      g := SubsetOfSize(s - {x}, n);
    }
  }

  /** A run from s0 that ends with acquisition t in the loop. */
  ghost predicate EndsStuck<T(!new)>(inv: T -> bool, s0: State<T>, states: seq<State<T>>, t: nat) {
    Run(inv, states) && states[0] == s0 &&
    var s := states[|states| - 1];
    t in s.pcs && s.pcs[t].ReadStuck?
  }

  /** No acquisition but t is under way: each of the others is a guard or has not started. */
  predicate OthersSettled<T>(s: State<T>, t: nat) {
    forall u: nat | u in s.pcs && u != t :: s.pcs[u].ReadHold? || s.pcs[u].Idle?
  }

  /** With more acquisitions than a counter can hold, made one after the other at one index, the last runs into
      the loop; as each before it is over and left a guard, one thread that keeps its guards is enough. */
  lemma CanStick<T(!new)>(inv: T -> bool, s0: State<T>) returns (states: seq<State<T>>, t: nat)
    requires Init(inv, s0) && MAX_RC < |s0.pcs|
    ensures EndsStuck(inv, s0, states, t) && OthersSettled(states[|states| - 1], t)
  {
    var g := SubsetOfSize(s0.pcs.Keys, MAX_RC);
    assert |s0.pcs.Keys - g| == |s0.pcs.Keys| - |g| > 0;
    t :| t in s0.pcs.Keys - g;
    states := GuardsReached(inv, s0, g) by { hide *; }
    var s1 := WithGuards(s0, g);
    var s2 := Do(inv, s1, t, StartRead(0));
    var s3 := Do(inv, s2, t, DoAcquireRead);
    assert s3.pcs[t].ReadStuck? && OthersSettled(s3, t);
    hide Run, Do, Enabled, WithGuards, OthersSettled;
    RunStep(inv, states, t, StartRead(0));
    RunStep(inv, states + [s2], t, DoAcquireRead);
    states := states + [s2] + [s3];
  }

  /** The loop is within reach exactly if more acquisitions can be made and kept than a counter can hold. */
  lemma StuckExactly<T(!new)>(inv: T -> bool, s0: State<T>)
    requires Init(inv, s0)
    ensures (exists states: seq<State<T>>, t: nat :: EndsStuck(inv, s0, states, t)) <==>
      0xffff_ffff_ffff_fff0 < |s0.pcs|
  {
    if MAX_RC < |s0.pcs| {
      var states, t := CanStick(inv, s0) by { hide *; }
    }
    forall states: seq<State<T>>, t: nat | EndsStuck(inv, s0, states, t) ensures MAX_RC < |s0.pcs| {
      LoopNeedsMany(inv, states, t);
    }
  }

  lemma LoopNeedsMany<T(!new)>(inv: T -> bool, states: seq<State<T>>, t: nat)
    requires 0 < |states| && EndsStuck(inv, states[0], states, t)
    ensures MAX_RC < |states[0].pcs|
  {
    var s := states[|states| - 1];
    RunInv(inv, states, |states| - 1);
    assert PcOk(inv, s, t, s.pcs[t]);
    hide Run, Inv;
    PeopleStay(inv, states, |states| - 1);
    assert |s.pcs| == |s.pcs.Keys| && |states[0].pcs| == |states[0].pcs.Keys|;
  }

  lemma {:induction false} PeopleStay<T(!new)>(inv: T -> bool, states: seq<State<T>>, i: nat)
    requires Run(inv, states) && i < |states|
    ensures states[i].pcs.Keys == states[0].pcs.Keys
  {
    if 0 < i {
      PeopleStay(inv, states, i - 1);
      assert Next(inv, states[i - 1], states[i - 1 + 1]);
      var u: nat, a: Action<T> :| Enabled(inv, states[i - 1], u, a) && states[i] == Do(inv, states[i - 1], u, a);
      SamePeople(inv, states[i - 1], u, a);
      hide Run, Do, Enabled;
    }
  }

  // ----- the lock itself, acted on by one thread at a time

  class Lock<T> {
    const userInv: T -> bool
    var excLocked: bool
    var refCounts: seq<nat>
    var cell: Option<T>
    var pcs: map<nat, Pc<T>>
    ghost var last: T

    ghost function S(): State<T>
      reads this
    {
      State(excLocked, refCounts, cell, pcs, last)
    }

    ghost predicate Valid()
      reads this
    {
      Inv(userInv, S())
    }

    constructor (width: nat, value: T, userInv: T -> bool, threads: set<nat>)
      requires 0 < width && userInv(value)
      ensures Valid() && Init(userInv, S()) && this.userInv == userInv
      ensures |refCounts| == width && pcs.Keys == threads && last == value
    {
      this.userInv := userInv;
      excLocked := false;
      refCounts := seq(width, (_: nat) => 0);
      cell := Some(value);
      pcs := map t: nat | t in threads :: Idle;
      last := value;
      new;
      InitInv(userInv, S());
    }

    /** The thread's next atomic action in acquire_write; the value, once it is taken out of the cell. */
    method StepAcquireWrite(t: nat) returns (taken: Option<T>)
      requires Valid() && t in pcs && InAcquireWrite(pcs[t])
      modifies this
      ensures Valid() && S() == AcquireWrite(old(S()), t)
      ensures taken.Some? <==> pcs[t].WriteHold?
      ensures taken.Some? ==> taken.value == old(last) && userInv(taken.value)
    {
      AcquireWriteKeeps(userInv, S(), t);
      TakenValue(userInv, S(), t);
      hide Inv;
      taken := None;
      match pcs[t]
      case WriteSpin =>
        if !excLocked {
          excLocked := true;
          pcs := pcs[t := WriteCheck(0)];
        }
      case WriteCheck(idx) =>
        if idx < |refCounts| {
          if refCounts[idx] == 0 {
            pcs := pcs[t := WriteCheck(idx + 1)];
          }
        } else if cell.Some? {
          taken := cell;
          pcs := pcs[t := WriteHold(cell.value)];
          cell := None;
        }
    }

    /** The thread's next atomic action in acquire_read; the value that its guard shows, once it has one. */
    method StepAcquireRead(t: nat) returns (shown: Option<T>)
      requires Valid() && Indexed(S(), t) && InAcquireRead(pcs[t])
      modifies this
      ensures Valid() && S() == AcquireRead(old(S()), t)
      ensures shown.Some? <==> pcs[t].ReadHold?
      ensures shown.Some? ==> shown.value == last && userInv(last)
    {
      AcquireReadKeeps(userInv, S(), t);
      ShownValue(userInv, S(), t);
      hide Inv;
      shown := None;
      match pcs[t]
      case ReadLoad(r) =>
        var rc := refCounts[r];
        pcs := pcs[t := if rc == MAX_RC then ReadStuck(r) else ReadCas(r, rc)];
      case ReadCas(r, rc) =>
        if refCounts[r] == rc {
          refCounts := refCounts[r := Inc(rc)];
          pcs := pcs[t := ReadCheck(r)];
        } else {
          pcs := pcs[t := ReadLoad(r)];
        }
      case ReadCheck(r) =>
        if excLocked {
          pcs := pcs[t := ReadUndo(r)];
        } else if cell.Some? {
          shown := cell;
          pcs := pcs[t := ReadHold(r, cell.value)];
        }
      case ReadUndo(r) =>
        refCounts := refCounts[r := Dec(refCounts[r])];
        pcs := pcs[t := ReadLoad(r)];
      case ReadStuck(_) =>
    }

    /** What a guard gives access to, at any time while it is held. */
    method Borrow(t: nat) returns (value: T)
      requires Valid() && t in pcs && pcs[t].ReadHold?
      ensures value == pcs[t].seen == last && userInv(value)
    {
      assert PcOk(userInv, S(), t, pcs[t]);
      value := cell.value;
    }

    /** Putting the value back, and then clearing the flag. */
    method StepReleaseWrite(t: nat, value: T)
      requires Valid() && t in pcs && ((pcs[t].WriteHold? && userInv(value)) || pcs[t].WriteStore?)
      modifies this
      ensures Valid() && S() == ReleaseWrite(old(S()), t, value)
      ensures old(pcs[t]).WriteHold? ==> cell == Some(value) && last == value && excLocked && pcs[t] == WriteStore
      ensures old(pcs[t]).WriteStore? ==> cell == old(cell) && last == old(last) && !excLocked && pcs[t] == Idle
    {
      ReleaseWriteKeeps(userInv, S(), t, value);
      hide Inv;
      if pcs[t].WriteHold? {
        cell := Some(value);
        last := value;
        pcs := pcs[t := WriteStore];
      } else {
        excLocked := false;
        pcs := pcs[t := Idle];
      }
    }

    method ReleaseReadGuard(t: nat)
      requires Valid() && Indexed(S(), t) && pcs[t].ReadHold?
      modifies this
      ensures Valid() && S() == ReleaseRead(old(S()), t)
      ensures refCounts[old(pcs[t]).r] + 1 == old(refCounts[pcs[t].r])
    {
      ReleaseReadKeeps(userInv, S(), t);
      NoUnderflow(userInv, S(), t);
      hide Inv;
      var r := pcs[t].r;
      refCounts := refCounts[r := Dec(refCounts[r])];
      pcs := pcs[t := Idle];
    }
  }

  lemma TakenValue<T>(inv: T -> bool, s: State<T>, t: nat)
    requires Inv(inv, s) && t in s.pcs && InAcquireWrite(s.pcs[t])
    ensures AcquireWrite(s, t).pcs[t].WriteHold? ==>
      s.cell.Some? && AcquireWrite(s, t).pcs[t].value == s.cell.value == s.last && inv(s.last)
    ensures s.pcs[t].WriteCheck? ==> s.cell.Some?
  {
  }

  lemma ShownValue<T>(inv: T -> bool, s: State<T>, t: nat)
    requires Inv(inv, s) && Indexed(s, t) && InAcquireRead(s.pcs[t])
    ensures AcquireRead(s, t).pcs[t].ReadHold? ==>
      s.cell.Some? && AcquireRead(s, t).pcs[t].seen == s.cell.value == s.last && inv(s.last)
  {
  }
}
