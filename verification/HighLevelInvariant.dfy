/** What every sound run of the process-level machine keeps: no frame is held twice, and memory is
    exactly what the mappings reach. */
module HighLevelInvariant {
  import opened Definitions
  import opened HighLevel

  /** Who holds a physical frame: a mapping, or a call that has not returned. */
  datatype Holder = Mapping(base: nat) | Call(thread: nat)

  function Held(s: Variables, h: Holder): Option<MemRegion> {
    match h
    case Mapping(base) => if base in s.mappings then Some(s.mappings[base].frame) else None
    case Call(thread) => if thread in s.threads then ArgumentsFrame(s.threads[thread]) else None
  }

  ghost predicate FramesApart(s: Variables) {
    forall h1: Holder, h2: Holder | h1 != h2 && Held(s, h1).Some? && Held(s, h2).Some? ::
      !Overlap(Held(s, h1).value, Held(s, h2).value)
  }

  ghost predicate FramesNonEmpty(s: Variables) {
    forall h: Holder | Held(s, h).Some? :: 0 < Held(s, h).value.size
  }

  ghost predicate RangesApart(s: Variables) {
    forall a, b | a in s.mappings && b in s.mappings && a != b ::
      !Overlap(Range(a, s.mappings[a]), Range(b, s.mappings[b]))
  }

  ghost predicate AllBelow(words: iset<nat>, bound: nat) {
    forall word | word in words :: word < bound
  }

  ghost predicate Inv(c: Constants, s: Variables) {
    && (forall id: nat :: id < c.threadNo <==> id in s.threads)
    && FramesNonEmpty(s)
    && FramesApart(s)
    && RangesApart(s)
    && s.mem.Keys == MemDomain(c.physMemSize, s.mappings)
  }

  // ----- finitely many words are mapped

  lemma {:induction false} DomainBound(physMemSize: nat, mappings: map<nat, PTE>) returns (bound: nat)
    ensures AllBelow(MemDomain(physMemSize, mappings), bound)
    decreases mappings.Keys
  {
    if mappings.Keys == {} {
      bound := 0;
    } else {
      var b :| b in mappings.Keys;
      var rest := mappings - {b};
      assert rest.Keys < mappings.Keys;
      var inner := DomainBound(physMemSize, rest);
      bound := inner + b + mappings[b].frame.size;
      forall word | word in MemDomain(physMemSize, mappings) ensures word < bound {
        var base :| base in mappings && EntryCovers(physMemSize, word * WORD_SIZE, base, mappings[base]);
        if base != b {
          assert base in rest && rest[base] == mappings[base];
          assert word in MemDomain(physMemSize, rest);
        }
      }
    }
  }

  /** The words of memory are finitely many. */
  lemma MemoryBounded(c: Constants, s: Variables)
    requires Inv(c, s)
    ensures exists bound: nat :: AllBelow(s.mem.Keys, bound)
  {
    var bound := DomainBound(c.physMemSize, s.mappings);
    assert AllBelow(s.mem.Keys, bound);
  }

  // ----- steps

  /** A frame changes hands or is let go, and nobody else's changes. */
  lemma FrameMoves(s1: Variables, s2: Variables, from: Holder, to: Holder)
    requires FramesApart(s1) && FramesNonEmpty(s1)
    requires forall h: Holder | h != to && Held(s2, h).Some? :: h != from && Held(s2, h) == Held(s1, h)
    requires Held(s2, to).Some? ==> Held(s2, to) == Held(s1, from)
    ensures FramesApart(s2) && FramesNonEmpty(s2)
  {
  }

  lemma MapStartInv(c: Constants, s1: Variables, s2: Variables, thread: nat, vaddr: nat, pte: PTE)
    requires Inv(c, s1) && StepMapStart(c, s1, s2, thread, vaddr, pte) && s2.sound
    ensures Inv(c, s2)
  {
    assert forall h: Holder | h != Call(thread) :: Held(s2, h) == Held(s1, h);
    forall h: Holder | h != Call(thread) && Held(s1, h).Some?
      ensures !Overlap(pte.frame, Held(s1, h).value) && !Overlap(Held(s1, h).value, pte.frame)
    {
    }
  }

  lemma TakenOverlaps(mappings: map<nat, PTE>, vaddr: nat, pte: PTE)
    requires vaddr in mappings
    ensures OverlapsExistingVmem(mappings, vaddr, pte)
  {
  }

  lemma MappingTakesFrame(s1: Variables, s2: Variables, thread: nat, vaddr: nat, pte: PTE)
    requires FramesApart(s1) && FramesNonEmpty(s1) && vaddr !in s1.mappings
    requires thread in s1.threads && s1.threads[thread] == Map(vaddr, pte)
    requires s2.threads == s1.threads[thread := Empty] && s2.mappings == s1.mappings[vaddr := pte]
    ensures FramesApart(s2) && FramesNonEmpty(s2)
  {
    hide FramesApart, FramesNonEmpty;
    FrameMoves(s1, s2, Call(thread), Mapping(vaddr));
  }

  lemma MapEndFrames(c: Constants, s1: Variables, s2: Variables, thread: nat, result: Result<()>)
    requires Inv(c, s1) && StepMapEnd(c, s1, s2, thread, result)
    ensures FramesApart(s2) && FramesNonEmpty(s2)
  {
    hide Overlap, FramesApart, FramesNonEmpty, RangesApart, OverlapsExistingVmem, MemDomain;
    var vaddr, pte := s1.threads[thread].vaddr, s1.threads[thread].pte;
    if result.Ok? {
      if vaddr in s1.mappings { TakenOverlaps(s1.mappings, vaddr, pte); }
      MappingTakesFrame(s1, s2, thread, vaddr, pte);
    } else {
      FrameMoves(s1, s2, Call(thread), Call(thread));
    }
  }

  lemma MapEndRanges(c: Constants, s1: Variables, s2: Variables, thread: nat, result: Result<()>)
    requires Inv(c, s1) && StepMapEnd(c, s1, s2, thread, result)
    ensures RangesApart(s2)
  {
  }

  lemma MapEndInv(c: Constants, s1: Variables, s2: Variables, thread: nat, result: Result<()>)
    requires Inv(c, s1) && StepMapEnd(c, s1, s2, thread, result)
    ensures Inv(c, s2)
  {
    MapEndFrames(c, s1, s2, thread, result);
    MapEndRanges(c, s1, s2, thread, result);
    hide FramesApart, FramesNonEmpty, RangesApart, MemDomain;
  }

  lemma UnmapStartFrames(c: Constants, s1: Variables, s2: Variables, thread: nat, vaddr: nat)
    requires Inv(c, s1) && StepUnmapStart(c, s1, s2, thread, vaddr) && s2.sound
    ensures FramesApart(s2) && FramesNonEmpty(s2)
  {
    hide Overlap, FramesApart, FramesNonEmpty, RangesApart, UnmapSound, UnmapEnabled, MemDomain;
    FrameMoves(s1, s2, Mapping(vaddr), Call(thread));
  }

  lemma UnmapStartInv(c: Constants, s1: Variables, s2: Variables, thread: nat, vaddr: nat)
    requires Inv(c, s1) && StepUnmapStart(c, s1, s2, thread, vaddr) && s2.sound
    ensures Inv(c, s2)
  {
    UnmapStartFrames(c, s1, s2, thread, vaddr);
    hide FramesApart, FramesNonEmpty, Overlap, UnmapSound, UnmapEnabled, MemDomain;
  }

  lemma UnmapEndInv(c: Constants, s1: Variables, s2: Variables, thread: nat, result: Result<()>)
    requires Inv(c, s1) && StepUnmapEnd(c, s1, s2, thread, result)
    ensures Inv(c, s2)
  {
    FrameMoves(s1, s2, Call(thread), Call(thread));
  }

  lemma ReadWriteInv(c: Constants, s1: Variables, s2: Variables,
                     thread: nat, vaddr: nat, op: RWOp, entry: Option<(nat, PTE)>)
    requires Inv(c, s1) && StepReadWrite(c, s1, s2, thread, vaddr, op, entry)
    ensures Inv(c, s2)
  {
    assert forall h: Holder :: Held(s2, h) == Held(s1, h);
    if s2.mem != s1.mem {
      assert EntryCovers(c.physMemSize, WordIndex(vaddr) * WORD_SIZE, entry.value.0, entry.value.1);
      assert WordIndex(vaddr) in MemDomain(c.physMemSize, s1.mappings);
      assert s2.mem.Keys == s1.mem.Keys;
    }
  }

  lemma NextInv(c: Constants, s1: Variables, s2: Variables, step: Step)
    requires NextStep(c, s1, s2, step) && (s1.sound ==> Inv(c, s1))
    ensures s2.sound ==> Inv(c, s2)
  {
    hide Inv, StepReadWrite, StepMapStart, StepMapEnd, StepUnmapStart, StepUnmapEnd;
    if s1.sound && s2.sound {
      match step
      case ReadWrite(thread, vaddr, op, entry) => ReadWriteInv(c, s1, s2, thread, vaddr, op, entry);
      case MapStart(thread, vaddr, pte) => MapStartInv(c, s1, s2, thread, vaddr, pte);
      case MapEnd(thread, result) => MapEndInv(c, s1, s2, thread, result);
      case UnmapStart(thread, vaddr) => UnmapStartInv(c, s1, s2, thread, vaddr);
      case UnmapEnd(thread, result) => UnmapEndInv(c, s1, s2, thread, result);
      case Stutter =>
    }
  }

  lemma InitInv(c: Constants, s: Variables)
    requires Init(c, s)
    ensures Inv(c, s)
  {
  }

  /** In every sound state of every run the invariant holds and memory is finite. */
  lemma {:induction false} RunInv(c: Constants, states: seq<Variables>, steps: seq<Step>, i: nat)
    requires ValidRun(c, states, steps) && Init(c, states[0]) && i < |states|
    ensures states[i].sound ==> Inv(c, states[i]) && exists bound: nat :: AllBelow(states[i].mem.Keys, bound)
  {
    hide AllBelow, Init, Inv, NextStep;
    if i == 0 {
      InitInv(c, states[0]);
    } else {
      RunInv(c, states, steps, i - 1);
      NextInv(c, states[i - 1], states[i], steps[i - 1]);
    }
    if states[i].sound {
      MemoryBounded(c, states[i]);
    }
  }
}
