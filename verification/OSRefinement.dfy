/** Every step of the operating system is a step of the high-level machine. */
module OSRefinement {
  import opened Definitions
  import opened Indexing
  import opened OS
  import opened OSInvariant
  import Hardware
  import HighLevel

  // ----- memory behind the effective mappings

  lemma PageMultiple(addr: nat, size: nat)
    requires PageSize(size) && Aligned(addr, size)
    ensures addr % 4096 == 0 && size % 4096 == 0
  {
    MultipleOf(addr, size, 4096);
  }

  /** At most one page table entry covers an address. */
  lemma CoverUnique(s: Variables, vaddr: nat, a: nat, b: nat)
    requires PtInv(s)
    requires a in s.Pt() && Between(vaddr, a, a + s.Pt()[a].frame.size)
    requires b in s.Pt() && Between(vaddr, b, b + s.Pt()[b].frame.size)
    ensures a == b
  {
  }

  predicate MemSized(c: Constants, s: Variables) {
    |s.hw.mem| == c.hw.physMemSize
  }

  function Word(base: nat, pte: PTE, vaddr: nat): nat
    requires base <= vaddr
  {
    WordIndex(pte.frame.base + (vaddr - base))
  }

  /** The effective mapping at `base` backs virtual word `word` with existing memory. */
  ghost predicate Backs(c: Constants, s: Variables, base: nat, word: nat) {
    base in EffectiveMappings(s) && HighLevel.EntryCovers(c.hw.physMemSize, word * WORD_SIZE, base, s.Pt()[base])
  }

  /** The number of the physical word behind virtual word `word`. */
  ghost function Behind(c: Constants, s: Variables, base: nat, word: nat): nat
    requires Backs(c, s, base, word)
  {
    Word(base, s.Pt()[base], word * WORD_SIZE)
  }

  lemma MemAt(c: Constants, s: Variables, word: nat, base: nat)
    requires MemSized(c, s) && PtInv(s) && Backs(c, s, base, word)
    ensures word in InterpMem(c, s)
    ensures InterpMem(c, s)[word] == s.hw.mem[Behind(c, s, base, word)]
  {
    hide *;
    var mappings, vaddr := EffectiveMappings(s), word * WORD_SIZE;
    BacksFacts(c, s, base, word);
    MemIs(c, s, word);
    forall b | b in mappings && Between(vaddr, b, b + mappings[b].frame.size) ensures b == base {
      OneEffective(s, vaddr, b, base);
    }
    WordBehindIs(s.hw.mem, mappings, vaddr, base);
  }

  lemma BacksFacts(c: Constants, s: Variables, base: nat, word: nat)
    requires MemSized(c, s) && Backs(c, s, base, word)
    ensures
      var mappings, vaddr := EffectiveMappings(s), word * WORD_SIZE;
      && base in mappings && base <= vaddr && Between(vaddr, base, base + mappings[base].frame.size)
      && HighLevel.InMemDomain(c.hw.physMemSize, word, mappings)
      && Behind(c, s, base, word) == WordIndex(mappings[base].frame.base + (vaddr - base)) < |s.hw.mem|
  {
    hide UnmapInFlight;
  }

  lemma MemIs(c: Constants, s: Variables, word: nat)
    requires HighLevel.InMemDomain(c.hw.physMemSize, word, EffectiveMappings(s))
    ensures Covered(EffectiveMappings(s), word * WORD_SIZE) && word in InterpMem(c, s)
    ensures InterpMem(c, s)[word] == WordBehind(s.hw.mem, EffectiveMappings(s), word * WORD_SIZE)
  {
    hide EffectiveMappings, WordBehind;
  }

  lemma WordBehindIs(mem: seq<nat>, mappings: map<nat, PTE>, vaddr: nat, base: nat)
    requires base in mappings && Between(vaddr, base, base + mappings[base].frame.size)
    requires forall b | b in mappings && Between(vaddr, b, b + mappings[b].frame.size) :: b == base
    requires WordIndex(mappings[base].frame.base + (vaddr - base)) < |mem|
    ensures WordBehind(mem, mappings, vaddr) == mem[WordIndex(mappings[base].frame.base + (vaddr - base))]
  {
  }

  lemma OneEffective(s: Variables, vaddr: nat, a: nat, b: nat)
    requires PtInv(s) && a in EffectiveMappings(s) && b in EffectiveMappings(s)
    requires Between(vaddr, a, a + EffectiveMappings(s)[a].frame.size)
    requires Between(vaddr, b, b + EffectiveMappings(s)[b].frame.size)
    ensures a == b
  {
    hide PtInv, UnmapInFlight;
    CoverUnique(s, vaddr, a, b);
  }

  lemma MemFrom(c: Constants, s: Variables, word: nat) returns (base: nat)
    requires MemSized(c, s) && PtInv(s) && word in InterpMem(c, s)
    ensures Backs(c, s, base, word)
    ensures InterpMem(c, s)[word] == s.hw.mem[Behind(c, s, base, word)]
  {
    base :| base in EffectiveMappings(s)
            && HighLevel.EntryCovers(c.hw.physMemSize, word * WORD_SIZE, base, EffectiveMappings(s)[base]);
    MemAt(c, s, word, base);
  }

  /** Where two states agree on the mapping behind a word, they agree on the word. */
  lemma MemKept(c: Constants, s1: Variables, s2: Variables, word: nat)
    requires MemSized(c, s1) && PtInv(s1) && MemSized(c, s2) && PtInv(s2) && s2.hw.mem == s1.hw.mem
    requires word in InterpMem(c, s1)
    requires forall b :: Backs(c, s1, b, word) ==> b in EffectiveMappings(s2) && s2.Pt()[b] == s1.Pt()[b]
    ensures word in InterpMem(c, s2) && InterpMem(c, s2)[word] == InterpMem(c, s1)[word]
  {
    var base := MemFrom(c, s1, word);
    MemAt(c, s2, word, base);
  }

  lemma MemKeys(c: Constants, s: Variables)
    ensures InterpMem(c, s).Keys == HighLevel.MemDomain(c.hw.physMemSize, EffectiveMappings(s))
    ensures Interp(c, s).mappings == EffectiveMappings(s)
  {
  }

  lemma MemSame(c: Constants, s1: Variables, s2: Variables)
    requires s2.hw.mem == s1.hw.mem && EffectiveMappings(s2) == EffectiveMappings(s1)
    ensures InterpMem(c, s2) == InterpMem(c, s1)
  {
  }

  lemma InterpSame(c: Constants, s1: Variables, s2: Variables)
    requires s2.hw.mem == s1.hw.mem && s2.sound == s1.sound
    requires EffectiveMappings(s2) == EffectiveMappings(s1)
    requires forall id :: id in c.threadCore ==> InterpThread(c, s2, id) == InterpThread(c, s1, id)
    ensures Interp(c, s2) == Interp(c, s1)
  {
  }

  lemma EffectiveSame(s1: Variables, s2: Variables)
    requires s2.Pt() == s1.Pt()
    requires forall va :: va in s1.Pt() ==> (UnmapInFlight(s2, va) <==> UnmapInFlight(s1, va))
    ensures EffectiveMappings(s2) == EffectiveMappings(s1)
  {
  }

  // ----- loads and stores

  /** Pages are word aligned, so a word of a page lies in one physical word. */
  lemma WordAddress(base: nat, pte: PTE, word: nat)
    requires ValidMapping(base, pte) && base <= word * WORD_SIZE
    ensures Word(base, pte, word * WORD_SIZE) * WORD_SIZE == pte.frame.base + (word * WORD_SIZE - base)
  {
    PageMultiple(base, pte.frame.size);
    PageMultiple(pte.frame.base, pte.frame.size);
    hide ValidMapping;
    WordSum(pte.frame.base, base, word);
  }

  lemma WordSum(frame: nat, base: nat, word: nat)
    requires frame % 4096 == 0 && base % 4096 == 0 && base <= word * WORD_SIZE
    ensures WordIndex(frame + (word * WORD_SIZE - base)) * WORD_SIZE == frame + (word * WORD_SIZE - base)
  {
    var x, y := frame / 4096, base / 4096;
    var at, q: nat := frame + (word * 8 - base), x * 512 + word - y * 512;
    assert frame == x * 4096 && base == y * 4096;
    assert at == q * 8;
    IndexOfUnique(0, at, 8, q);
    hide EntryBase;
  }

  /** Words of disjoint page frames are different, and so are words of different offsets in one. */
  lemma WordsDistinct(base1: nat, pte1: PTE, word1: nat, base2: nat, pte2: PTE, word2: nat)
    requires ValidMapping(base1, pte1) && ValidMapping(base2, pte2)
    requires Between(word1 * WORD_SIZE, base1, base1 + pte1.frame.size)
    requires Between(word2 * WORD_SIZE, base2, base2 + pte2.frame.size)
    requires if base1 == base2 && pte1 == pte2 then word1 != word2 else !Overlap(pte1.frame, pte2.frame)
    ensures Word(base1, pte1, word1 * WORD_SIZE) != Word(base2, pte2, word2 * WORD_SIZE)
  {
    WordAddress(base1, pte1, word1);
    WordAddress(base2, pte2, word2);
  }

  /** `pte` at `base` clashes with no effective mapping, in virtual or physical memory. */
  ghost predicate Isolated(s: Variables, base: nat, pte: PTE) {
    && ValidMapping(base, pte)
    && forall other :: other in EffectiveMappings(s) ==>
         if base == other then pte == s.Pt()[other]
         else !Overlap(Range(base, pte), Range(other, s.Pt()[other])) && !Overlap(pte.frame, s.Pt()[other].frame)
  }

  lemma EntryIsolated(s: Variables, base: nat)
    requires PtInv(s) && FramesDisjoint(s) && base in s.Pt()
    ensures Isolated(s, base, s.Pt()[base])
  {
    forall other | other in EffectiveMappings(s) && other != base
      ensures !Overlap(s.Pt()[base].frame, s.Pt()[other].frame)
    {
      assert HeldFrame(s, Entry(base)) == Some(s.Pt()[base].frame);
      assert HeldFrame(s, Entry(other)) == Some(s.Pt()[other].frame);
    }
  }

  lemma RemovedIsolated(s: Variables, core: Core, base: nat, pte: PTE)
    requires RemovedInv(s) && FramesDisjoint(s)
    requires core in s.cores && Removes(s.cores[core], base, pte)
    ensures Isolated(s, base, pte)
  {
    forall other | other in EffectiveMappings(s) ensures !Overlap(pte.frame, s.Pt()[other].frame) {
      assert HeldFrame(s, Op(core)) == Some(pte.frame);
      assert HeldFrame(s, Entry(other)) == Some(s.Pt()[other].frame);
    }
  }

  lemma CachedIsolated(c: Constants, s: Variables, core: Core, base: nat)
    requires PtInv(s) && RemovedInv(s) && TlbCoherent(s) && FramesDisjoint(s)
    requires core in s.hw.tlbs && base in s.hw.tlbs[core]
    ensures Isolated(s, base, s.hw.tlbs[core][base])
    ensures base in EffectiveMappings(s) ==> s.Pt()[base] == s.hw.tlbs[core][base]
  {
    var pte := s.hw.tlbs[core][base];
    if base in s.Pt() && s.Pt()[base] == pte {
      EntryIsolated(s, base);
    } else {
      assert BeingRemoved(s, base, pte);
      var h :| h in s.cores && Removes(s.cores[h], base, pte);
      RemovedIsolated(s, h, base, pte);
    }
  }

  lemma SameDomain(c: Constants, s1: Variables, s2: Variables)
    requires s2.Pt() == s1.Pt() && s2.cores == s1.cores
    ensures EffectiveMappings(s2) == EffectiveMappings(s1)
    ensures InterpMem(c, s2).Keys == InterpMem(c, s1).Keys
    ensures forall base, word :: Backs(c, s1, base, word) ==>
      Backs(c, s2, base, word) && Behind(c, s2, base, word) == Behind(c, s1, base, word)
  {
  }

  /** A store that misses every physical word behind an effective mapping leaves virtual memory alone. */
  lemma StoreUnseen(c: Constants, s1: Variables, s2: Variables)
    requires MemSized(c, s1) && PtInv(s1) && MemSized(c, s2) && s2.Pt() == s1.Pt() && s2.cores == s1.cores
    requires forall base, word :: Backs(c, s1, base, word) ==>
               s2.hw.mem[Behind(c, s1, base, word)] == s1.hw.mem[Behind(c, s1, base, word)]
    ensures InterpMem(c, s2) == InterpMem(c, s1)
  {
    hide *;
    SameDomain(c, s1, s2);
    PtInvSame(s1, s2);
    forall word | word in InterpMem(c, s1) ensures InterpMem(c, s2)[word] == InterpMem(c, s1)[word] {
      var base := MemFrom(c, s1, word);
      MemAt(c, s2, word, base);
    }
  }

  lemma BehindDistinct(c: Constants, s: Variables, base: nat, word: nat, base': nat, word': nat)
    requires PtInv(s) && Backs(c, s, base, word) && Backs(c, s, base', word') && word != word'
    requires Isolated(s, base, s.Pt()[base])
    ensures Behind(c, s, base, word) != Behind(c, s, base', word')
  {
    WordsDistinct(base, s.Pt()[base], word, base', s.Pt()[base'], word');
  }

  lemma StoreKeepsSize(c: Constants, s1: Variables, s2: Variables, i: nat, value: nat)
    requires MemSized(c, s1) && i < |s1.hw.mem| && s2.hw.mem == s1.hw.mem[i := value]
    ensures MemSized(c, s2)
  {
  }

  /** A store through an effective mapping changes the one virtual word it is addressed to. */
  lemma StoreSeen(c: Constants, s1: Variables, s2: Variables, base: nat, word: nat, value: nat)
    requires MemSized(c, s1) && PtInv(s1) && PtInv(s2) && s2.Pt() == s1.Pt() && s2.cores == s1.cores
    requires Backs(c, s1, base, word) && Isolated(s1, base, s1.Pt()[base])
    requires s2.hw.mem == s1.hw.mem[Behind(c, s1, base, word) := value]
    ensures InterpMem(c, s2) == InterpMem(c, s1)[word := value]
  {
    StoreKeepsSize(c, s1, s2, Behind(c, s1, base, word), value);
    TargetWordStored(c, s1, s2, base, word, value);
    forall other | other in InterpMem(c, s1) && other != word
      ensures other in InterpMem(c, s2) && InterpMem(c, s2)[other] == InterpMem(c, s1)[other]
    {
      OtherWordKept(c, s1, s2, base, word, value, other);
    }
    assert InterpMem(c, s2).Keys == InterpMem(c, s1).Keys by {
      SameDomain(c, s1, s2);
    }
    SingleUpdate(InterpMem(c, s1), InterpMem(c, s2), word, value);
  }

  lemma SingleUpdate(m1: imap<nat, nat>, m2: imap<nat, nat>, key: nat, value: nat)
    requires m2.Keys == m1.Keys && key in m2 && m2[key] == value
    requires forall k :: k in m1 && k != key ==> k in m2 && m2[k] == m1[k]
    ensures m2 == m1[key := value]
  {
  }

  lemma TargetWordStored(c: Constants, s1: Variables, s2: Variables, base: nat, word: nat, value: nat)
    requires MemSized(c, s1) && PtInv(s1) && MemSized(c, s2) && PtInv(s2) && s2.Pt() == s1.Pt() && s2.cores == s1.cores
    requires Backs(c, s1, base, word)
    requires s2.hw.mem == s1.hw.mem[Behind(c, s1, base, word) := value]
    ensures word in InterpMem(c, s2) && InterpMem(c, s2)[word] == value
  {
    SameDomain(c, s1, s2);
    MemAt(c, s2, word, base);
  }

  lemma BackedAlike(c: Constants, s1: Variables, s2: Variables, base: nat, word: nat)
    requires s2.Pt() == s1.Pt() && s2.cores == s1.cores && Backs(c, s1, base, word)
    ensures Backs(c, s2, base, word) && Behind(c, s2, base, word) == Behind(c, s1, base, word)
  {
    SameDomain(c, s1, s2);
    hide EffectiveMappings;
  }

  lemma BehindInside(c: Constants, s: Variables, base: nat, word: nat)
    requires MemSized(c, s) && Backs(c, s, base, word)
    ensures Behind(c, s, base, word) < |s.hw.mem|
  {
    hide EffectiveMappings;
  }

  lemma OtherWordKept(c: Constants, s1: Variables, s2: Variables, base: nat, word: nat, value: nat, other: nat)
    requires MemSized(c, s1) && PtInv(s1) && MemSized(c, s2) && PtInv(s2) && s2.Pt() == s1.Pt() && s2.cores == s1.cores
    requires Backs(c, s1, base, word) && Isolated(s1, base, s1.Pt()[base])
    requires s2.hw.mem == s1.hw.mem[Behind(c, s1, base, word) := value]
    requires other in InterpMem(c, s1) && other != word
    ensures other in InterpMem(c, s2) && InterpMem(c, s2)[other] == InterpMem(c, s1)[other]
  {
    hide *;
    var b := MemFrom(c, s1, other);
    BehindDistinct(c, s1, base, word, b, other);
    BehindInside(c, s1, base, word);
    BehindInside(c, s1, b, other);
    BackedAlike(c, s1, s2, b, other);
    MemAt(c, s2, other, b);
  }

  /** An isolated entry that is not effective reaches no word behind an effective mapping. */
  lemma DeadEntryMisses(c: Constants, s: Variables, base: nat, pte: PTE, vaddr: nat)
    requires MemSized(c, s) && PtInv(s)
    requires Isolated(s, base, pte) && base !in EffectiveMappings(s)
    requires Aligned(vaddr, WORD_SIZE) && Between(vaddr, base, base + pte.frame.size)
    ensures WordIndex(vaddr) !in HighLevel.MemDomain(c.hw.physMemSize, EffectiveMappings(s))
    ensures forall b, word :: Backs(c, s, b, word) ==> Behind(c, s, b, word) != Word(base, pte, vaddr)
  {
    var word := WordIndex(vaddr);
    assert word * WORD_SIZE == vaddr;
    forall b, other | Backs(c, s, b, other) ensures Behind(c, s, b, other) != Word(base, pte, vaddr) {
      WordsDistinct(base, pte, word, b, s.Pt()[b], other);
    }
  }

  lemma ThreadsSame(c: Constants, s1: Variables, s2: Variables)
    requires s2.Pt() == s1.Pt() && s2.cores == s1.cores
    ensures Interp(c, s2).threads == Interp(c, s1).threads
  {
  }

  /** What an access through an effective mapping reads and leaves in the virtual memory. */
  lemma LiveMemory(c: Constants, s1: Variables, s2: Variables, thread: nat,
                   vaddr: nat, paddr: nat, op: Hardware.RWOp, entry: (nat, PTE), core: Core)
    requires MemSized(c, s1) && PtInv(s1)
    requires StepHW(c, s1, s2, thread, Hardware.ReadWrite(vaddr, paddr, op, Some(entry), core))
    requires entry.0 in EffectiveMappings(s1) && s1.Pt()[entry.0] == entry.1
    requires Isolated(s1, entry.0, entry.1)
    ensures WordIndex(paddr) < c.hw.physMemSize ==>
      WordIndex(vaddr) in InterpMem(c, s1) && InterpMem(c, s1)[WordIndex(vaddr)] == s1.hw.mem[WordIndex(paddr)]
    ensures InterpMem(c, s2) ==
      if op.Store? && op.stored.StoreOk? then InterpMem(c, s1)[WordIndex(vaddr) := op.newValue] else InterpMem(c, s1)
  {
    hide *;
    LiveFacts(c, s1, s2, thread, vaddr, paddr, op, entry, core);
    PtInvSame(s1, s2);
    if WordIndex(paddr) < c.hw.physMemSize {
      MemAt(c, s1, WordIndex(vaddr), entry.0);
    }
    if op.Store? && op.stored.StoreOk? {
      StoreSeen(c, s1, s2, entry.0, WordIndex(vaddr), op.newValue);
    } else {
      StoreUnseen(c, s1, s2);
    }
  }

  lemma LiveFacts(c: Constants, s1: Variables, s2: Variables, thread: nat,
                  vaddr: nat, paddr: nat, op: Hardware.RWOp, entry: (nat, PTE), core: Core)
    requires MemSized(c, s1) && StepHW(c, s1, s2, thread, Hardware.ReadWrite(vaddr, paddr, op, Some(entry), core))
    requires entry.0 in EffectiveMappings(s1) && s1.Pt()[entry.0] == entry.1
    ensures s2.Pt() == s1.Pt() && s2.cores == s1.cores && MemSized(c, s2)
    ensures WordIndex(paddr) < c.hw.physMemSize ==>
      Backs(c, s1, entry.0, WordIndex(vaddr)) && Behind(c, s1, entry.0, WordIndex(vaddr)) == WordIndex(paddr)
    ensures
      if op.Store? && op.stored.StoreOk?
      then WordIndex(paddr) < |s1.hw.mem| == c.hw.physMemSize &&
           s2.hw.mem == s1.hw.mem[WordIndex(paddr) := op.newValue]
      else s2.hw.mem == s1.hw.mem
  {
    hide EffectiveMappings;
    assert WordIndex(vaddr) * WORD_SIZE == vaddr;
  }

  lemma LiveAccess(c: Constants, s1: Variables, s2: Variables, thread: nat,
                   vaddr: nat, paddr: nat, op: Hardware.RWOp, entry: (nat, PTE), core: Core)
    requires |s1.hw.mem| == c.hw.physMemSize
    requires StepHW(c, s1, s2, thread, Hardware.ReadWrite(vaddr, paddr, op, Some(entry), core))
    requires entry.0 in Interp(c, s1).mappings && Interp(c, s1).mappings[entry.0] == entry.1
    requires Interp(c, s2) == Interp(c, s1).(mem := Interp(c, s2).mem)
    requires thread in Interp(c, s1).threads && Interp(c, s1).threads[thread].Empty?
    requires WordIndex(paddr) < c.hw.physMemSize ==>
      WordIndex(vaddr) in Interp(c, s1).mem && Interp(c, s1).mem[WordIndex(vaddr)] == s1.hw.mem[WordIndex(paddr)]
    requires Interp(c, s2).mem ==
      if op.Store? && op.stored.StoreOk? then Interp(c, s1).mem[WordIndex(vaddr) := op.newValue] else Interp(c, s1).mem
    ensures HighLevel.StepReadWrite(InterpConstants(c), Interp(c, s1), Interp(c, s2), thread, vaddr,
                                    InterpOp(op, true), Some(entry))
  {
  }

  /** Through an entry that is being unmapped, or none, a process sees and changes nothing. */
  lemma DeadAccess(c: Constants, s1: Variables, s2: Variables, thread: nat,
                   vaddr: nat, paddr: nat, op: Hardware.RWOp, entry: Option<(nat, PTE)>, core: Core)
    requires MemSized(c, s1) && PtInv(s1)
    requires StepHW(c, s1, s2, thread, Hardware.ReadWrite(vaddr, paddr, op, entry, core))
    requires entry.Some? ==> entry.value.0 !in EffectiveMappings(s1) && Isolated(s1, entry.value.0, entry.value.1)
    ensures HighLevel.StepReadWrite(InterpConstants(c), Interp(c, s1), Interp(c, s2), thread, vaddr,
                                    InterpOp(op, false), None)
  {
    var word := WordIndex(vaddr);
    assert word * WORD_SIZE == vaddr;
    SameDomain(c, s1, s2);
    ThreadsSame(c, s1, s2);
    assert Interp(c, s1).threads[thread].Empty?;
    if entry.Some? {
      DeadEntryMisses(c, s1, entry.value.0, entry.value.1, vaddr);
    }
    StoreUnseen(c, s1, s2);
  }

  lemma AccessRefines(c: Constants, s1: Variables, s2: Variables, thread: nat, step: Hardware.Step)
    requires MemSized(c, s1) && PtInv(s1) && RemovedInv(s1) && TlbCoherent(s1) && FramesDisjoint(s1) && s1.sound
    requires step.ReadWrite? && StepHW(c, s1, s2, thread, step)
    ensures HighLevel.NextStep(InterpConstants(c), Interp(c, s1), Interp(c, s2), InterpStep(s1, HW(thread, step)))
  {
    var ReadWrite(vaddr, paddr, op, entry, core) := step;
    if entry.Some? {
      CachedIsolated(c, s1, core, entry.value.0);
    }
    if entry.Some? && entry.value.0 in EffectiveMappings(s1) {
      LiveMemory(c, s1, s2, thread, vaddr, paddr, op, entry.value, core);
      SameDomain(c, s1, s2);
      ThreadsSame(c, s1, s2);
      LiveAccess(c, s1, s2, thread, vaddr, paddr, op, entry.value, core);
    } else {
      DeadAccess(c, s1, s2, thread, vaddr, paddr, op, entry, core);
    }
  }

  // ----- requests: both levels see the same claims

  ghost predicate ThreadsKnown(c: Constants, s: Variables) {
    && (forall id :: id in c.threadCore ==> id < c.threadNo && c.threadCore[id] in s.cores)
    && (forall core :: core in s.cores && !s.cores[core].Idle? ==>
          s.cores[core].thread in c.threadCore && c.threadCore[s.cores[core].thread] == core)
  }

  lemma SameClaims(c: Constants, s: Variables, core: Core, thread: nat)
    requires core in s.cores && thread in c.threadCore && c.threadCore[thread] == core
    ensures !InterpThread(c, s, thread).Empty? <==> !s.cores[core].Idle? && s.cores[core].thread == thread
    ensures !InterpThread(c, s, thread).Empty? ==>
      && HighLevel.ArgumentsRange(InterpThread(c, s, thread)) == ClaimedRange(s.cores[core], s.Pt())
      && HighLevel.ArgumentsFrame(InterpThread(c, s, thread)) == ClaimedFrame(s.cores[core], s.Pt())
  {
  }

  lemma InflightVmemSame(c: Constants, s: Variables, r: MemRegion)
    requires ThreadsKnown(c, s)
    ensures HighLevel.OverlapsInflightVmem(Interp(c, s).threads, r) <==> OverlapsInflightVmem(s.Pt(), s.cores, r)
  {
    var threads := Interp(c, s).threads;
    if HighLevel.OverlapsInflightVmem(threads, r) {
      var t :| t in threads && !threads[t].Empty? && Overlap(HighLevel.ArgumentsRange(threads[t]), r);
      SameClaims(c, s, c.threadCore[t], t);
    }
    if OverlapsInflightVmem(s.Pt(), s.cores, r) {
      var core :| core in s.cores && !s.cores[core].Idle? && Overlap(ClaimedRange(s.cores[core], s.Pt()), r);
      SameClaims(c, s, core, s.cores[core].thread);
      assert s.cores[core].thread in threads;
    }
  }

  lemma InflightPmemSame(c: Constants, s: Variables, pte: PTE)
    requires ThreadsKnown(c, s)
    ensures HighLevel.OverlapsInflightPmem(Interp(c, s).threads, pte) <==> OverlapsInflightPmem(s.Pt(), s.cores, pte)
  {
    var threads := Interp(c, s).threads;
    if HighLevel.OverlapsInflightPmem(threads, pte) {
      var t :| t in threads && HighLevel.ArgumentsFrame(threads[t]).Some?
               && Overlap(pte.frame, HighLevel.ArgumentsFrame(threads[t]).value);
      SameClaims(c, s, c.threadCore[t], t);
    }
    if OverlapsInflightPmem(s.Pt(), s.cores, pte) {
      var core :| core in s.cores && ClaimedFrame(s.cores[core], s.Pt()).Some?
                  && Overlap(pte.frame, ClaimedFrame(s.cores[core], s.Pt()).value);
      SameClaims(c, s, core, s.cores[core].thread);
      assert s.cores[core].thread in threads;
    }
  }

  /** A frame taken out of sight by a waiting unmap still counts, as that unmap's. */
  lemma MapSoundSame(c: Constants, s: Variables, vaddr: nat, pte: PTE)
    requires ThreadsKnown(c, s) && RemovedInv(s)
    ensures HighLevel.MapSound(Interp(c, s).mappings, Interp(c, s).threads, vaddr, pte) <==> MapSound(s, vaddr, pte)
  {
    InflightVmemSame(c, s, Range(vaddr, pte));
    InflightPmemSame(c, s, pte);
    if OverlapsExistingPmem(s.Pt(), pte) {
      var b :| b in s.Pt() && Overlap(pte.frame, s.Pt()[b].frame);
      if UnmapInFlight(s, b) {
        var core :| core in s.cores && s.cores[core].Unmapping() && s.cores[core].vaddr == b;
        assert s.cores[core].UnmapWaiting? ==> ClaimedFrame(s.cores[core], s.Pt()) == Some(s.Pt()[b].frame);
      } else {
        assert b in EffectiveMappings(s);
      }
    }
  }

  // ----- map

  /** A request that starts on an idle core shows up as its thread's arguments, and nothing else. */
  lemma ThreadStarts(c: Constants, s1: Variables, s2: Variables, core: Core, thread: nat)
    requires ThreadsKnown(c, s1) && s2.Pt() == s1.Pt()
    requires thread in c.threadCore && c.threadCore[thread] == core && core in s2.cores
    requires s1.cores[core].Idle? && s2.cores == s1.cores[core := s2.cores[core]]
    requires !s2.cores[core].Idle? && s2.cores[core].thread == thread
    ensures Interp(c, s1).threads[thread].Empty?
    ensures Interp(c, s2).threads == Interp(c, s1).threads[thread := InterpThread(c, s2, thread)]
  {
  }

  lemma NoUnmapMoves(s1: Variables, s2: Variables, core: Core)
    requires s2.Pt() == s1.Pt() && core in s1.cores && core in s2.cores && s2.cores == s1.cores[core := s2.cores[core]]
    requires !s1.cores[core].Unmapping() && !s2.cores[core].Unmapping()
    ensures EffectiveMappings(s2) == EffectiveMappings(s1)
  {
    forall va ensures UnmapInFlight(s2, va) <==> UnmapInFlight(s1, va) {
      if UnmapInFlight(s1, va) {
        var other :| other in s1.cores && s1.cores[other].Unmapping() && s1.cores[other].vaddr == va;
        assert other in s2.cores && s2.cores[other] == s1.cores[other];
      }
    }
  }

  lemma MapStartRefines(c: Constants, s1: Variables, s2: Variables, thread: nat, vaddr: nat, pte: PTE)
    requires ThreadsKnown(c, s1) && RemovedInv(s1) && StepMapStart(c, s1, s2, thread, vaddr, pte) && s1.sound
    ensures HighLevel.StepMapStart(InterpConstants(c), Interp(c, s1), Interp(c, s2), thread, vaddr, pte)
  {
    var core := c.threadCore[thread];
    MapSoundSame(c, s1, vaddr, pte);
    ThreadStarts(c, s1, s2, core, thread);
    NoUnmapMoves(s1, s2, core);
    assert InterpMem(c, s2) == InterpMem(c, s1);
  }

  /** Whoever waits to unmap keeps seeing the same entry when `s1` goes to `s2`. */
  ghost predicate WaitersUndisturbed(s1: Variables, s2: Variables) {
    forall core ::
      core in s1.cores && s1.cores[core].UnmapWaiting? && core in s2.cores && s2.cores[core] == s1.cores[core] ==>
      var va := s1.cores[core].vaddr;
      (va in s2.Pt() <==> va in s1.Pt()) && (va in s1.Pt() ==> s2.Pt()[va] == s1.Pt()[va])
  }

  lemma ThreadEnds(c: Constants, s1: Variables, s2: Variables, core: Core)
    requires ThreadsKnown(c, s1) && core in s1.cores && !s1.cores[core].Idle?
    requires s2.cores == s1.cores[core := Idle] && WaitersUndisturbed(s1, s2)
    ensures Interp(c, s2).threads == Interp(c, s1).threads[s1.cores[core].thread := HighLevel.Empty]
  {
    forall id | id in c.threadCore && id != s1.cores[core].thread
      ensures InterpThread(c, s2, id) == InterpThread(c, s1, id)
    {
    }
    hide InterpMem, EffectiveMappings, WaitersUndisturbed;
    assert InterpThread(c, s2, s1.cores[core].thread) == HighLevel.Empty;
  }

  lemma MapEndWaiters(c: Constants, s1: Variables, s2: Variables, core: Core, result: Result<()>)
    requires InflightRangesDisjoint(s1) && StepMapEnd(c, s1, s2, core, result)
    ensures WaitersUndisturbed(s1, s2)
    ensures forall other ::
      other in s1.cores && s1.cores[other].UnmapWaiting? ==> s1.cores[other].vaddr != s1.cores[core].vaddr
  {
  }

  /** The only entries that the high level no longer sees belong to unmaps that keep clear of the map. */
  lemma MapOverlapSame(s: Variables, core: Core)
    requires InflightRangesDisjoint(s) && RemovedInv(s)
    requires core in s.cores && s.cores[core].MapExecuting?
    ensures OverlapsExistingVmem(EffectiveMappings(s), s.cores[core].vaddr, s.cores[core].pte)
            <==> OverlapsExistingVmem(s.Pt(), s.cores[core].vaddr, s.cores[core].pte)
  {
    var vaddr, pte := s.cores[core].vaddr, s.cores[core].pte;
    if OverlapsExistingVmem(s.Pt(), vaddr, pte) {
      var b :| b in s.Pt() && Overlap(Range(vaddr, pte), Range(b, s.Pt()[b]));
      forall other | other in s.cores && s.cores[other].Unmapping() ensures s.cores[other].vaddr != b {
        assert !Overlap(ClaimedRange(s.cores[core], s.Pt()), ClaimedRange(s.cores[other], s.Pt()));
      }
      assert b in EffectiveMappings(s);
    }
  }

  /** Operations that are in flight in `s2` for addresses of its page table were so in `s1`, and back. */
  lemma UnmapsSame(s1: Variables, s2: Variables, core: Core, va: nat)
    requires core in s1.cores && core in s2.cores && s2.cores == s1.cores[core := s2.cores[core]]
    requires s1.cores[core].Unmapping() && s1.cores[core].vaddr == va ==>
      s2.cores[core].Unmapping() && s2.cores[core].vaddr == va
    requires s2.cores[core].Unmapping() && s2.cores[core].vaddr == va ==>
      s1.cores[core].Unmapping() && s1.cores[core].vaddr == va
    ensures UnmapInFlight(s2, va) <==> UnmapInFlight(s1, va)
  {
    if UnmapInFlight(s1, va) {
      var other :| other in s1.cores && s1.cores[other].Unmapping() && s1.cores[other].vaddr == va;
      assert other in s2.cores && s2.cores[other].Unmapping() && s2.cores[other].vaddr == va;
    }
  }

  lemma MapEndEffective(c: Constants, s1: Variables, s2: Variables, core: Core, result: Result<()>)
    requires InflightRangesDisjoint(s1) && ThreadsKnown(c, s1) && RemovedInv(s1)
    requires LockHeldBy(s1, core) && StepMapEnd(c, s1, s2, core, result)
    ensures EffectiveMappings(s2) ==
      if result.Ok? then EffectiveMappings(s1)[s1.cores[core].vaddr := s1.cores[core].pte] else EffectiveMappings(s1)
  {
    MapEndWaiters(c, s1, s2, core, result);
    forall va ensures UnmapInFlight(s2, va) <==> UnmapInFlight(s1, va) {
      UnmapsSame(s1, s2, core, va);
    }
    assert !UnmapInFlight(s1, s1.cores[core].vaddr);
  }

  ghost predicate LockHeldBy(s: Variables, core: Core) {
    forall other :: other in s.cores && s.cores[other].HoldsLock() ==> other == core
  }

  lemma MapEndRefines(c: Constants, s1: Variables, s2: Variables, core: Core, result: Result<()>)
    requires MemSized(c, s1) && ThreadsKnown(c, s1) && PtInv(s1) && PtInv(s2) && RemovedInv(s1)
    requires InflightRangesDisjoint(s1) && LockHeldBy(s1, core) && StepMapEnd(c, s1, s2, core, result)
    ensures HighLevel.StepMapEnd(InterpConstants(c), Interp(c, s1), Interp(c, s2), s1.cores[core].thread, result)
  {
    MapOverlapSame(s1, core);
    MapEndWaiters(c, s1, s2, core, result);
    ThreadEnds(c, s1, s2, core);
    MapEndEffective(c, s1, s2, core, result);
    if result.Ok? {
      MapEndMemory(c, s1, s2, core, result);
      MemKeys(c, s2);
    } else {
      assert InterpMem(c, s2) == InterpMem(c, s1);
    }
  }

  /** What a finished map leaves alone: every effective mapping, and physical memory. */
  lemma MapEndKeeps(c: Constants, s1: Variables, s2: Variables, core: Core, result: Result<()>)
    requires MemSized(c, s1) && ThreadsKnown(c, s1) && RemovedInv(s1)
    requires InflightRangesDisjoint(s1) && LockHeldBy(s1, core) && StepMapEnd(c, s1, s2, core, result) && result.Ok?
    ensures MemSized(c, s2) && s2.hw.mem == s1.hw.mem
    ensures forall b | b in EffectiveMappings(s1) :: b in EffectiveMappings(s2) && s2.Pt()[b] == s1.Pt()[b]
  {
    MapEndEffective(c, s1, s2, core, result);
    hide EffectiveMappings, RemovedInv, ThreadsKnown, InflightRangesDisjoint, LockHeldBy;
    var vaddr, pte := s1.cores[core].vaddr, s1.cores[core].pte;
    assert vaddr !in s1.Pt() by {
      assert vaddr in s1.Pt() ==> Overlap(Range(vaddr, pte), Range(vaddr, s1.Pt()[vaddr]));
    }
  }

  lemma MapEndMemory(c: Constants, s1: Variables, s2: Variables, core: Core, result: Result<()>)
    requires MemSized(c, s1) && ThreadsKnown(c, s1) && PtInv(s1) && PtInv(s2) && RemovedInv(s1)
    requires InflightRangesDisjoint(s1) && LockHeldBy(s1, core) && StepMapEnd(c, s1, s2, core, result) && result.Ok?
    ensures forall word :: word in InterpMem(c, s1) ==>
      word in InterpMem(c, s2) && InterpMem(c, s2)[word] == InterpMem(c, s1)[word]
  {
    MapEndKeeps(c, s1, s2, core, result);
    forall word | word in InterpMem(c, s1)
      ensures word in InterpMem(c, s2) && InterpMem(c, s2)[word] == InterpMem(c, s1)[word]
    {
      hide InterpMem, EffectiveMappings, PtInv, RemovedInv, ThreadsKnown, InflightRangesDisjoint, StepMapEnd, MemSized;
      MemKept(c, s1, s2, word);
    }
  }

  // ----- unmap

  lemma UnmapStartEffective(c: Constants, s1: Variables, s2: Variables, thread: nat, vaddr: nat)
    requires StepUnmapStart(c, s1, s2, thread, vaddr)
    ensures EffectiveMappings(s2) == EffectiveMappings(s1) - {vaddr}
  {
    var core := c.threadCore[thread];
    forall va | va != vaddr ensures UnmapInFlight(s2, va) <==> UnmapInFlight(s1, va) {
      UnmapsSame(s1, s2, core, va);
    }
    assert core in s2.cores && s2.cores[core].Unmapping() && s2.cores[core].vaddr == vaddr;
  }

  /** Of two unmaps of one address the second is unsound at both levels. */
  lemma UnmapSoundSame(c: Constants, s: Variables, vaddr: nat)
    requires ThreadsKnown(c, s)
    ensures var removed := EffectiveMappings(s);
      HighLevel.UnmapSound(Interp(c, s).threads, vaddr, if vaddr in removed then removed[vaddr].frame.size else 0)
      <==> UnmapSound(s, vaddr)
    ensures UnmapSound(s, vaddr) && vaddr in s.Pt() ==> vaddr in EffectiveMappings(s)
  {
    var size := if vaddr in s.Pt() then s.Pt()[vaddr].frame.size else 0;
    InflightVmemSame(c, s, MemRegion(vaddr, size));
    InflightVmemSame(c, s, MemRegion(vaddr, 0));
    if UnmapInFlight(s, vaddr) {
      var core :| core in s.cores && s.cores[core].Unmapping() && s.cores[core].vaddr == vaddr;
      assert Overlap(ClaimedRange(s.cores[core], s.Pt()), MemRegion(vaddr, size));
      assert Overlap(ClaimedRange(s.cores[core], s.Pt()), MemRegion(vaddr, 0));
    }
  }

  /** Taking mappings away takes their words away and leaves the others. */
  lemma MemoryShrinks(c: Constants, s1: Variables, s2: Variables)
    requires MemSized(c, s1) && PtInv(s1) && MemSized(c, s2) && PtInv(s2) && s2.hw.mem == s1.hw.mem &&
      s2.Pt() == s1.Pt()
    requires forall b :: b in EffectiveMappings(s2) ==> b in EffectiveMappings(s1)
    ensures forall word :: word in InterpMem(c, s2) ==>
      word in InterpMem(c, s1) && InterpMem(c, s2)[word] == InterpMem(c, s1)[word]
  {
    hide InterpMem, PtInv, EffectiveMappings, MemSized;
    forall word | word in InterpMem(c, s2)
      ensures word in InterpMem(c, s1) && InterpMem(c, s2)[word] == InterpMem(c, s1)[word]
    {
      MemKept(c, s2, s1, word);
    }
  }

  lemma UnmapStartKeeps(c: Constants, s1: Variables, s2: Variables, thread: nat, vaddr: nat)
    requires MemSized(c, s1) && PtInv(s1) && StepUnmapStart(c, s1, s2, thread, vaddr)
    ensures s2.hw == s1.hw && s2.Pt() == s1.Pt() && MemSized(c, s2) && PtInv(s2)
  {
    hide PtInv;
    PtInvSame(s1, s2);
  }

  lemma UnmapStartMemory(c: Constants, s1: Variables, s2: Variables, thread: nat, vaddr: nat)
    requires MemSized(c, s1) && PtInv(s1) && StepUnmapStart(c, s1, s2, thread, vaddr)
    ensures InterpMem(c, s2).Keys == HighLevel.MemDomain(c.hw.physMemSize, Interp(c, s2).mappings)
    ensures forall word :: word in InterpMem(c, s2) ==>
      word in InterpMem(c, s1) && InterpMem(c, s2)[word] == InterpMem(c, s1)[word]
    ensures vaddr !in EffectiveMappings(s1) ==> InterpMem(c, s2) == InterpMem(c, s1)
  {
    hide *;
    UnmapStartKeeps(c, s1, s2, thread, vaddr);
    UnmapStartEffective(c, s1, s2, thread, vaddr);
    MemKeys(c, s2);
    MemoryShrinks(c, s1, s2);
    if vaddr !in EffectiveMappings(s1) {
      assert EffectiveMappings(s2) == EffectiveMappings(s1);
      MemSame(c, s1, s2);
    }
  }

  lemma UnmapStartRefines(c: Constants, s1: Variables, s2: Variables, thread: nat, vaddr: nat)
    requires MemSized(c, s1) && ThreadsKnown(c, s1) && PtInv(s1) && StepUnmapStart(c, s1, s2, thread, vaddr) && s1.sound
    ensures HighLevel.StepUnmapStart(InterpConstants(c), Interp(c, s1), Interp(c, s2), thread, vaddr)
  {
    UnmapSoundSame(c, s1, vaddr);
    ThreadStarts(c, s1, s2, c.threadCore[thread], thread);
    UnmapStartEffective(c, s1, s2, thread, vaddr);
    UnmapStartMemory(c, s1, s2, thread, vaddr);
  }

  lemma UnmapOpStartEffective(c: Constants, s1: Variables, s2: Variables, core: Core, result: Result<()>)
    requires StepUnmapOpStart(c, s1, s2, core, result)
    ensures EffectiveMappings(s2) == EffectiveMappings(s1)
  {
    forall va ensures UnmapInFlight(s2, va) <==> UnmapInFlight(s1, va) {
      UnmapsSame(s1, s2, core, va);
    }
    assert UnmapInFlight(s1, s1.cores[core].vaddr);
  }

  /** The entry leaves the page table unseen: the request already took it out of the high level. */
  lemma UnmapOpStartRefines(c: Constants, s1: Variables, s2: Variables, core: Core, result: Result<()>)
    requires ThreadsKnown(c, s1) && InflightRangesDisjoint(s1) && StepUnmapOpStart(c, s1, s2, core, result)
    ensures Interp(c, s2) == Interp(c, s1)
  {
    UnmapOpStartEffective(c, s1, s2, core, result);
    hide EffectiveMappings, UnmapInFlight;
    forall id | id in c.threadCore ensures InterpThread(c, s2, id) == InterpThread(c, s1, id) {
      var other := c.threadCore[id];
      if other != core && s1.cores[other].UnmapWaiting? {
        assert !Overlap(ClaimedRange(s1.cores[core], s1.Pt()), ClaimedRange(s1.cores[other], s1.Pt()));
      }
    }
    InterpSame(c, s1, s2);
  }

  lemma UnmapEndRefines(c: Constants, s1: Variables, s2: Variables, core: Core)
    requires ThreadsKnown(c, s1) && RemovedInv(s1) && StepUnmapEnd(c, s1, s2, core)
    ensures HighLevel.StepUnmapEnd(InterpConstants(c), Interp(c, s1), Interp(c, s2), s1.cores[core].thread,
                                   if s1.cores[core].result.Ok? then Ok(()) else Err)
  {
    ThreadEnds(c, s1, s2, core);
    forall va | va in s1.Pt() ensures UnmapInFlight(s2, va) <==> UnmapInFlight(s1, va) {
      UnmapsSame(s1, s2, core, va);
    }
    EffectiveSame(s1, s2);
    assert InterpMem(c, s2) == InterpMem(c, s1);
  }

  /** A core moves on within one operation: its kind, thread and address stay, and nothing else changes. */
  ghost predicate MovesOn(c: Constants, s1: Variables, s2: Variables, core: Core) {
    && core in s1.cores && core in s2.cores && s2.cores == s1.cores[core := s2.cores[core]]
    && s2.hw.mem == s1.hw.mem && s2.sound == s1.sound && s2.Pt() == s1.Pt()
    && s2.cores[core].Unmapping() == s1.cores[core].Unmapping()
    && (s1.cores[core].Unmapping() ==> s2.cores[core].vaddr == s1.cores[core].vaddr)
    && (forall id :: id in c.threadCore ==> InterpThread(c, s2, id) == InterpThread(c, s1, id))
  }

  lemma MapOpStartMovesOn(c: Constants, s1: Variables, s2: Variables, core: Core)
    requires StepMapOpStart(c, s1, s2, core)
    ensures MovesOn(c, s1, s2, core)
  {
  }

  lemma UnmapOpEndMovesOn(c: Constants, s1: Variables, s2: Variables, core: Core)
    requires StepUnmapOpEnd(c, s1, s2, core)
    ensures MovesOn(c, s1, s2, core)
  {
  }

  lemma ShootdownMovesOn(c: Constants, s1: Variables, s2: Variables, core: Core)
    requires StepUnmapInitiateShootdown(c, s1, s2, core)
    ensures MovesOn(c, s1, s2, core)
  {
  }

  lemma PhaseRefines(c: Constants, s1: Variables, s2: Variables, step: Step)
    requires step.MapOpStart? || step.UnmapOpEnd? || step.UnmapInitiateShootdown?
    requires NextStep(c, s1, s2, step)
    ensures Interp(c, s2) == Interp(c, s1)
  {
    var core := step.core;
    assert MovesOn(c, s1, s2, core) by {
      hide EffectiveMappings, Interp, InterpThread, MovesOn, StepAckShootdownIPI, StepHW, StepMapEnd,
           StepMapOpStart, StepMapStart, StepUnmapEnd, StepUnmapInitiateShootdown, StepUnmapOpEnd,
           StepUnmapOpStart, StepUnmapStart, StepViewStutter, UnmapInFlight;
      match step
      case MapOpStart(_) => MapOpStartMovesOn(c, s1, s2, core);
      case UnmapOpEnd(_) => UnmapOpEndMovesOn(c, s1, s2, core);
      case UnmapInitiateShootdown(_) => ShootdownMovesOn(c, s1, s2, core);
    }

    forall va ensures UnmapInFlight(s2, va) <==> UnmapInFlight(s1, va) {
      UnmapsSame(s1, s2, core, va);
    }
    EffectiveSame(s1, s2);
    InterpSame(c, s1, s2);
  }

  /** Steps that change neither operations nor mappings nor memory are invisible. */
  lemma IdleRefines(c: Constants, s1: Variables, s2: Variables, step: Step)
    requires (step.HW? && !step.hwStep.ReadWrite?) || step.AckShootdownIPI? || step.ViewStutter?
    requires NextStep(c, s1, s2, step)
    ensures Interp(c, s2) == Interp(c, s1)
  {
    EffectiveSame(s1, s2);
    InterpSame(c, s1, s2);
  }

  // ----- the refinement

  ghost predicate Simulates(c: Constants, s1: Variables, s2: Variables, step: Step) {
    HighLevel.NextStep(InterpConstants(c), Interp(c, s1), Interp(c, s2), InterpStep(s1, step))
  }

  /** A request or a return, seen by the high level as a step of the same kind. */
  lemma CallSimulates(c: Constants, s1: Variables, s2: Variables, step: Step)
    requires Interp(c, s1).sound
    requires match step
      case MapStart(thread, vaddr, pte) =>
        HighLevel.StepMapStart(InterpConstants(c), Interp(c, s1), Interp(c, s2), thread, vaddr, pte)
      case MapEnd(core, result) =>
        core in s1.cores && !s1.cores[core].Idle?
        && HighLevel.StepMapEnd(InterpConstants(c), Interp(c, s1), Interp(c, s2), s1.cores[core].thread, result)
      case UnmapStart(thread, vaddr) =>
        HighLevel.StepUnmapStart(InterpConstants(c), Interp(c, s1), Interp(c, s2), thread, vaddr)
      case UnmapEnd(core) =>
        core in s1.cores && s1.cores[core].Removed()
        && HighLevel.StepUnmapEnd(InterpConstants(c), Interp(c, s1), Interp(c, s2), s1.cores[core].thread,
                                  if s1.cores[core].result.Ok? then Ok(()) else Err)
      case HW(_, hwStep) => !hwStep.ReadWrite? && Interp(c, s2) == Interp(c, s1)
      case _ => Interp(c, s2) == Interp(c, s1)
    ensures Simulates(c, s1, s2, step)
  {
    hide Interp, InterpConstants, HighLevel.StepMapStart, HighLevel.StepMapEnd, HighLevel.StepUnmapStart,
         HighLevel.StepUnmapEnd, HighLevel.StepReadWrite;
  }

  lemma MapEndFrom(c: Constants, s1: Variables, s2: Variables, core: Core, result: Result<()>)
    requires StepMapEnd(c, s1, s2, core, result)
    ensures core in s1.cores && !s1.cores[core].Idle?
  {
  }

  lemma UnmapEndFrom(c: Constants, s1: Variables, s2: Variables, core: Core)
    requires StepUnmapEnd(c, s1, s2, core)
    ensures core in s1.cores && s1.cores[core].Removed()
  {
  }

  lemma SoundSame(c: Constants, s: Variables)
    ensures Interp(c, s).sound == s.sound
  {
  }

  lemma SoundStepRefines(c: Constants, s1: Variables, s2: Variables, step: Step)
    requires MemSized(c, s1) && ThreadsKnown(c, s1) && PtInv(s1) && RemovedInv(s1) && TlbCoherent(s1)
    requires InflightRangesDisjoint(s1) && FramesDisjoint(s1) && s1.sound
    requires step.MapEnd? ==> LockHeldBy(s1, step.core)
    requires PtInv(s2) && NextStep(c, s1, s2, step)
    ensures Simulates(c, s1, s2, step)
  {
    SoundSame(c, s1);
    hide FramesDisjoint, HighLevel.NextStep, HighLevel.StepMapEnd, HighLevel.StepMapStart, HighLevel.StepUnmapEnd,
         HighLevel.StepUnmapStart, InflightRangesDisjoint, Interp, InterpConstants, InterpStep, LockHeldBy,
         MemSized, PtInv, RemovedInv, StepAckShootdownIPI, StepHW, StepMapEnd, StepMapOpStart, StepMapStart,
         StepUnmapEnd, StepUnmapInitiateShootdown, StepUnmapOpEnd, StepUnmapOpStart, StepUnmapStart,
         StepViewStutter, ThreadsKnown, TlbCoherent;
    match step
    case HW(thread, hwStep) =>
      if hwStep.ReadWrite? {
        AccessRefines(c, s1, s2, thread, hwStep);
      } else {
        IdleRefines(c, s1, s2, step);
        CallSimulates(c, s1, s2, step);
      }
    case MapStart(thread, vaddr, pte) =>
      MapStartRefines(c, s1, s2, thread, vaddr, pte);
      CallSimulates(c, s1, s2, step);
    case MapEnd(core, result) =>
      MapEndFrom(c, s1, s2, core, result);
      MapEndRefines(c, s1, s2, core, result);
      CallSimulates(c, s1, s2, step);
    case UnmapStart(thread, vaddr) =>
      UnmapStartRefines(c, s1, s2, thread, vaddr);
      CallSimulates(c, s1, s2, step);
    case UnmapEnd(core) =>
      UnmapEndFrom(c, s1, s2, core);
      UnmapEndRefines(c, s1, s2, core);
      CallSimulates(c, s1, s2, step);
    case UnmapOpStart(core, result) =>
      UnmapOpStartRefines(c, s1, s2, core, result);
      CallSimulates(c, s1, s2, step);
    case AckShootdownIPI(_) =>
      IdleRefines(c, s1, s2, step);
      CallSimulates(c, s1, s2, step);
    case ViewStutter(_) =>
      IdleRefines(c, s1, s2, step);
      CallSimulates(c, s1, s2, step);
    case _ =>
      PhaseRefines(c, s1, s2, step);
      CallSimulates(c, s1, s2, step);
  }

  lemma LockKept(c: Constants, s1: Variables, s2: Variables, step: Step)
    requires WF(c, s1) && NextStep(c, s1, s2, step)
    ensures ThreadsKnown(c, s1) && MemSized(c, s1)
    ensures step.MapEnd? ==> LockHeldBy(s1, step.core)
  {
  }

  /** Every step from every reachable state is the high-level step that it stands for. */
  lemma StepRefines(c: Constants, s1: Variables, s2: Variables, step: Step)
    requires Inv(c, s1) && NextStep(c, s1, s2, step)
    ensures HighLevel.NextStep(InterpConstants(c), Interp(c, s1), Interp(c, s2), InterpStep(s1, step))
  {
    if s1.sound {
      LockKept(c, s1, s2, step);
      PtInvPreserved(c, s1, s2, step);
      SoundStepRefines(c, s1, s2, step);
    } else {
      assert s2.sound ==> s1.sound by {
        if s2.sound {
          SoundBefore(c, s1, s2, step);
        }
      }
    }
  }

  lemma InitRefines(c: Constants, s: Variables)
    requires Init(c, s)
    ensures HighLevel.Init(InterpConstants(c), Interp(c, s))
  {
  }

  /** What a run looks like to the processes. */
  ghost function InterpRun(c: Constants, states: seq<Variables>): seq<HighLevel.Variables> {
    seq(|states|, i requires 0 <= i < |states| => Interp(c, states[i]))
  }

  function InterpSteps(states: seq<Variables>, steps: seq<Step>): seq<HighLevel.Step>
    requires |states| == |steps| + 1
  {
    seq(|steps|, i requires 0 <= i < |steps| => InterpStep(states[i], steps[i]))
  }

  lemma {:induction false} RunInv(c: Constants, states: seq<Variables>, steps: seq<Step>, i: nat)
    requires ValidRun(c, states, steps) && Init(c, states[0]) && i < |states|
    ensures Inv(c, states[i])
  {
    if i == 0 {
      InitInv(c, states[0]);
    } else {
      RunInv(c, states, steps, i - 1);
      NextInv(c, states[i - 1], states[i], steps[i - 1]);
    }
  }

  /** Every run of the operating system is a run of the high-level machine. */
  lemma RunRefines(c: Constants, states: seq<Variables>, steps: seq<Step>)
    requires ValidRun(c, states, steps) && Init(c, states[0])
    ensures HighLevel.Init(InterpConstants(c), InterpRun(c, states)[0])
    ensures HighLevel.ValidRun(InterpConstants(c), InterpRun(c, states), InterpSteps(states, steps))
  {
    InitRefines(c, states[0]);
    forall i | 0 <= i < |steps|
      ensures HighLevel.NextStep(InterpConstants(c),
        Interp(c, states[i]), Interp(c, states[i + 1]), InterpStep(states[i], steps[i]))
    {
      RunInv(c, states, steps, i);
      StepRefines(c, states[i], states[i + 1], steps[i]);
    }
  }
}
