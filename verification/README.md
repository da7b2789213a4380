# Virtual memory and node replication: a verified model

The repository builds a verified operating system kernel's page table and the node-replication
library it is meant to run on. This project models its four state-rich parts and proves what they
promise, including the steps that the repository's own proofs leave assumed.

- **The multi-core machine** (`Hardware`, `OS`, `PageTableSpec`, `HighLevel`). Cores run threads and
  translate through private TLBs. Map and unmap system calls go through phases under one kernel lock,
  and an unmap ends with a TLB shootdown. Processes are promised one flat memory. `OSInvariant` finds the
  inductive invariant, `OSRefinement` shows that every run of the machine is a run of the flat memory, and
  `OSProperties` and `OSPages` draw the consequences: TLB coherence, separation, release of the lock, free pages.
  `OSHistory` tells from the steps of a run alone what loads return, what is mapped, and what calls and accesses are
  answered. `HighLevelInvariant` is the process-level machine's own invariant.
- **The page table** (`Words`, `PageEntries`, `EntryWords`, `PageTables`, `PageTableWrites`, `PageTableMemory`,
  `PageTableUse`, `PageTableSteps`, `PageTableRuns`, `MmuWalk`, `FlatMap`, `DirectoryTree`, `DirectoryRefinement`,
  `MemoryTree`). A class keeps pages of 64-bit words and changes them in place; every memory state that a
  call goes through is recorded, so that what the hardware sees between two writes can be stated. The same
  table is a tree over any layering of entry sizes, and a flat map.
- **The range mapper** (`RangeMapping`, `RangeObstacles`, `VSpace`). A class that maps ranges with 1 GiB,
  2 MiB and 4 KiB pages, by loops over entries and recursion.
- **The concurrency protocols of node replication** (`RwLock`, `RwLockHistory`, `FlatCombiner`, `ThreadContext`).
  Threads with program counters take one atomic action at a time, in any order. `RwLockHistory` says which value the
  lock shows from the actions alone.

`dafny verify dfyconfig.toml` checks the whole project.

## How the model reads the source

- The soundness flag: os.rs:620 and os.rs:733 compare `s2.sound` with `s1.sound` and conjoin the check of the
  request, which would make an unsound request impossible rather than unsound. The comment at os.rs:38 and the
  proof at os_refinement.rs:695-698 show what is meant, `s2.sound == (s1.sound && check)`. The model has that form;
  it admits every step of the printed one.
- The TLB invariant printed at os.rs:250-274 forgets the phase in which the entry is already gone and the removal
  is not yet reported (`UnmapOpExecuting`), and speaks of addresses only. It is false of reachable states:
  `OSProperties.PrintedFormFails` gives the run, `OSProperties.PrintedFormExactly` says in which states it holds, and
  `OSInvariant.TlbCoherent` is the form that every step keeps.
- `|hw.mem| == phys_mem_size`, used at os_refinement.rs:553, is part of the initial state here.
- NUMA nodes hold cores, and cores hold TLBs, in the source; here TLBs are one map keyed by core.
- In the multi-core machine the page table is the map that the MMU reads out of it and a count of free pages:
  that is all os.rs uses. `PageTableSteps` ties the class to that view: a whole call made by a core that waits for
  the lock is a run of the machine, state by state. `PageTableRuns` puts calls together into runs from the beginning.
- os.rs:591 checks for three free pages when a map is requested, not when it takes the lock, and nothing reserves
  them: `OSPages.PagesNotReserved` is a run that gets to the lock without pages. `OSPages.PagesExactly` says when
  waiting maps find theirs, and `OSPages.RequestExactly` which check at the request would do. The machine's steps leave
  open what a map takes; there a map may take three pages from when it has the lock until it ends, an unmap none,
  which is what the page table does (`PageTableSteps.MapOnCore`, `PageTableSteps.UnmapOnCore`).
- The physical address width is a parameter between 32 and 52 bits (definitions_t.rs:31-54).
- In `RwLock` the keys of `pcs` are acquisitions, each with the guard it leads to. The source lets a thread acquire
  again while it keeps earlier guards, at the same index; such a thread is several keys with that index.
- In `MmuWalk`, a read of a page that is not allocated gives no entry. `PageTables.NoDangling`, which every memory
  state of every call satisfies, says that the walk never gets to one.
- In `DirectoryTree` the layering is a parameter, and an error carries no tree. The claim that the tree form is
  canonical fails for layerings with one-entry tables below the top, so it is proved exactly
  (`DirectoryRefinement.CanonicalExactly`); the x86-64 layering meets the condition.
- In `VSpace` a failing assertion of the code is an outcome of its own, `Panicked`, and the physical address of a
  table is its offset in the region set aside for tables, 0 standing for the boxed top table. The entry types of
  the x86 crate are a datatype. The one body of `map_generic` is split at its table boundaries into `MapGeneric`,
  `MapInPdpt`, `MapInPd` and `MapInPt`, its loops into methods of their own, and its tail calls into `MapRest`.
  The kernel variants of `MapAction` set the user bit and the user variants do not; `Rights` keeps what the code does.
- Where the combiner appends operations to the shared log and finds their results, `ThreadContext` has a map from
  request identifiers to operations and results.

## Model

| member | source | states |
|---|---|---|
| `OSInvariant.InitInv` | page-table/spec_t/os.rs:1042-1065 | the initial state satisfies the invariant |
| `OSInvariant.NextInv` | page-table/spec_t/os_invariant.rs:39-76 | every step of every core keeps the whole invariant: well-formedness with at most one lock holder, page table, removals, TLB coherence, shootdown, and separation while sound |
| `OSInvariant.PtInvPreserved` | page-table/spec_t/os.rs:319-327 | page table entries stay aligned, of a page size, and never overlap each other, whatever calls are in flight |
| `OSInvariant.RemovedInvPreserved` | page-table/spec_t/os.rs:741-891 | from its removal until its unmap ends, nothing comes to be mapped where the entry was |
| `OSInvariant.TlbPreserved` | page-table/spec_t/os_invariant.rs:119-205 | a cached pair stays either an entry of the page table with the same contents or the pair that an unfinished unmap took out; the step the source admits is proved |
| `OSInvariant.TlbMapEnd` | page-table/spec_t/os_invariant.rs:156-164 | finishing a map keeps TLBs coherent: it holds the lock, so no removal is unfinished that the new entry could hide |
| `OSInvariant.ShootdownPreserved` | page-table/spec_t/os.rs:229-248 | a core that has acknowledged does not cache the address of the waiting unmap, in any later state until that unmap ends |
| `OSInvariant.RangesPreserved` | page-table/spec_t/os_invariant.rs:207-411 | on sound steps the virtual ranges of calls in flight on different cores stay disjoint, through every phase change |
| `OSInvariant.RangesMapEnd` | page-table/spec_t/os_invariant.rs:254-298 | the same for a map that finishes, where an entry may appear under a waiting unmap |
| `OSInvariant.FramesPreserved` | page-table/spec_t/os.rs:460-487 | on sound steps no physical frame comes to be held by two of: entries, maps in flight, unmaps that removed their entry |
| `OSRefinement.InitRefines` | page-table/impl_u/os_refinement.rs:327-345 | the initial state is an initial state of the flat memory |
| `OSRefinement.StepRefines` | page-table/impl_u/os_refinement.rs:347-436 | from a state with the invariant, every step is the high-level step its interpretation names, or a stutter |
| `OSRefinement.AccessRefines` | page-table/impl_u/os_refinement.rs:438-622 | a load or store through a TLB, stale or not, is a high-level access; through a pair being removed it is an undefined access that changes no virtual word |
| `OSRefinement.StoreSeen` | page-table/impl_u/os_refinement.rs:549-614 | a store through an effective mapping changes exactly the one virtual word it is addressed to |
| `OSRefinement.DeadEntryMisses` | page-table/impl_u/os_refinement.rs:549-614 | an entry being removed reaches no physical word behind an effective mapping, and its addresses are outside the high-level memory |
| `OSRefinement.MapStartRefines` | page-table/impl_u/os_refinement.rs:624-699 | a map request starts the high-level map, sound or not alike |
| `OSRefinement.MapEndRefines` | page-table/impl_u/os_refinement.rs:701-1084 | a finished map has the high-level result, adds the same mapping and keeps the value of every virtual word |
| `OSRefinement.UnmapStartRefines` | page-table/impl_u/os_refinement.rs:1086-1322 | requesting an unmap already takes the mapping and its words from the high-level memory, and no other |
| `OSRefinement.UnmapOpStartRefines` | page-table/impl_u/os_refinement.rs:1324-1442 | taking the entry out of the page table is invisible at the high level |
| `OSRefinement.UnmapEndRefines` | page-table/impl_u/os_refinement.rs:1444-1525 | a finished unmap is the high-level end, with the result found at removal |
| `OSRefinement.PhaseRefines` | page-table/impl_u/os_refinement.rs:358-436 | taking the lock, reporting a removal and starting a shootdown are invisible at the high level |
| `OSRefinement.IdleRefines` | page-table/impl_u/os_refinement.rs:358-436 | so are TLB fills and evictions, acknowledgements, and page table writes that the hardware does not see |
| `OSRefinement.MapSoundSame` | page-table/impl_u/os_refinement.rs:172-236 | the machine finds a map request sound if and only if the high-level machine does |
| `OSRefinement.UnmapSoundSame` | page-table/impl_u/os_refinement.rs:238-252 | the same for unmap requests |
| `OSRefinement.RunRefines` | page-table/spec_t/os.rs:935-1036 | every run from an initial state, interpreted state by state and step by step, is a run of the flat memory from an initial state |
| `OSProperties.CachedPairs` | page-table/spec_t/os.rs:266-289 | a cached pair is in the page table with the same contents, or is the address and result of the one core that holds the lock for an unmap past its removal |
| `OSProperties.UnmapEndLeavesNoTrace` | page-table/spec_t/os.rs:866-891 | once an unmap ends, no core caches its address and the page table does not have it |
| `OSProperties.PrintedFormExactly` | page-table/spec_t/os.rs:250-274 | the printed TLB invariant holds in a reachable state if and only if no unmap that is executing finds its address cached |
| `OSProperties.PrintedFormFails` | page-table/spec_t/os.rs:250-274 | a run of six steps on one core into a state where the printed invariant is false |
| `OSProperties.SoundRunsKeepApart` | page-table/spec_t/os.rs:303-334 | in every state of every run entries do not overlap, and while sound neither do calls in flight nor held frames |
| `OSProperties.ProcessesSeeInvariant` | page-table/spec_t/hlspec.rs:572-583 | in every sound state of every run the interpretation satisfies the process-level invariant and its memory is finite |
| `OSProperties.DischargeShootdown` | page-table/spec_t/os.rs:838-864 | open shootdown requests can be discharged by evicting and acknowledging core by core, in at most two steps each, leaving all cores as they are |
| `OSProperties.LockCanBeReleased` | page-table/spec_t/os.rs:131-142 | from every reachable state where a core holds the kernel lock there is a run of at most 2·cores + 3 steps after which the lock is free and only that core has moved |
| `OSHistory.ReadsLastStore` | page-table/spec_t/hardware.rs:575-637 | in a sound run from an initial state, a load that is answered with a value through an effective mapping gets the value that the latest such store to the same virtual word wrote, if the word stays mapped in between: whichever threads and cores the two run on, and whatever maps, unmaps, TLB fills and stale translations come in between |
| `OSHistory.LedgerIsPt` | page-table/spec_t/os.rs:594-805 | in every state of every run the page table holds exactly the mappings of the maps answered with success that no removal answered with success took away since, told from the steps alone, and a core in a call is in the one requested last on it |
| `OSHistory.CallsAnswered` | page-table/spec_t/os.rs:656-778 | in every run a map is answered with success if and only if what was requested overlaps no mapping of that ledger, and a removal if and only if the requested address is in it |
| `OSHistory.AccessesChecked` | page-table/spec_t/hardware.rs:575-637 | in every run, whatever the TLBs hold, an access through a mapping of that ledger goes to the physical word at the same offset and succeeds if and only if the word exists and the mapping allows user access, and writing for a store, execution for a fetch; a store changes that word only; an access without translation happens only where no mapping of the ledger covers the address, faults, and changes nothing |
| `OSHistory.AccessPossible` | page-table/spec_t/hardware.rs:575-699 | and it is possible: from every state with the invariant a thread whose core is idle accesses any word in at most two steps, through the one mapping that covers it and with the answer that it allows, or with a fault if none does |
| `OSHistory.MapRequestable` | page-table/spec_t/os.rs:577-627 | a thread whose core is idle can request a map if and only if its page has 4 KiB, 2 MiB or 1 GiB, is aligned on both sides, begins at a physical address and ends below 2^48, and three pages are free |
| `OSHistory.UnmapRequestable` | page-table/spec_t/os.rs:697-735 | it can request an unmap if and only if the address is a multiple of 4096 below 2^48: the larger alignments add nothing |
| `OSHistory.MapSoundExactly` | page-table/spec_t/os.rs:566-627 | a map request leaves the run sound if and only if after it no two calls in flight claim a common address and no frame is held twice |
| `OSHistory.UnmapSoundExactly` | page-table/spec_t/os.rs:688-735 | the same for an unmap request, of the addresses |
| `OSPages.ProvidedKept` | page-table/spec_t/os.rs:594-678 | a step keeps three free pages for every map that waits, and what the executing map may still take, if a map request leaves room for the maps before it |
| `OSPages.RoomIsEnough` | page-table/spec_t/os.rs:581-650 | if in a run every map request finds three pages for each map that waits and one more, and what the executing map may still take, then every map that takes the lock finds three |
| `OSPages.PagesExactly` | page-table/spec_t/os.rs:581-650 | from a reachable state, whoever holds the lock, every run without new map requests lets each map find three pages when it takes the lock, if and only if none waits or there are three for each that waits and as many more as the executing map may still take |
| `OSPages.RequestExactly` | page-table/spec_t/os.rs:581-627 | so a map request is safe for all runs after it if and only if it leaves that room, which can be checked before it is made; while no map executes the state alone tells |
| `OSPages.RunsOut` | page-table/spec_t/os.rs:594-678 | with fewer pages than that and the lock free, waiting maps can use up the pages, three each, until any chosen one of them takes the lock with fewer than three left |
| `OSPages.PagesNotReserved` | page-table/spec_t/os.rs:577-650 | a sound run on two cores in which both map requests pass the check for three free pages, the first uses all three, and the second takes the lock with none left: the failing instance of `OSPages.PagesExactly` |
| `Hardware.ValidCores` | page-table/spec_t/hardware.rs:672-684 | the set of cores a shootdown addresses holds exactly the valid ones, as many as nodes times cores per node |
| `HighLevelInvariant.NextInv` | page-table/spec_t/hlspec.rs:593-632 | every sound step of the process-level machine keeps: no frame held twice by mappings and unfinished calls, mappings disjoint, and memory holding exactly the words that mappings reach |
| `HighLevelInvariant.MapStartInv` | page-table/spec_t/hlproof.rs:400-427 | a sound map request keeps it, including what the source assumes at hlproof.rs:312 |
| `HighLevelInvariant.MapEndInv` | page-table/spec_t/hlproof.rs:429-459 | handing the frame from the call to the new mapping keeps it |
| `HighLevelInvariant.UnmapStartInv` | page-table/spec_t/hlproof.rs:365-398 | handing the frame from the mapping to the call keeps it, and memory loses exactly the words of the mapping |
| `HighLevelInvariant.ReadWriteInv` | page-table/spec_t/hlspec.rs:192-256 | no access changes which words there are |
| `HighLevelInvariant.MemoryBounded` | page-table/spec_t/hlproof.rs:122-145 | the memory domain of finitely many mappings is finite |
| `HighLevelInvariant.RunInv` | page-table/spec_t/hlspec.rs:585-634 | every sound state of every run satisfies the invariant and has finite memory |
| `PageEntries.BuildAndRead` | page-table/impl_u/l2_impl.rs:368-418 | for every width from 32 to 52 bits, layer, aligned address and combination of flags, the hardware reads the kind, address and flags back out of a fresh entry, the write-through and cache-disable bits are as asked, and all reserved bits are zero; which bits these are is stated in `EntryWords` |
| `PageEntries.PageEntryReadsBack` | page-table/impl_u/l2_impl.rs:317-341 | the entry built for an aligned, addressable frame is seen by the hardware as that frame with those flags |
| `PageEntries.DirEntryReadsBack` | page-table/impl_u/l2_impl.rs:343-366 | the entry built for a directory page is seen as that directory, restricting nothing |
| `PageEntries.KernelReads` | page-table/impl_u/l2_impl.rs:420-495 | on words the kernel built, its own accessors agree with the hardware's view: present or not, page or directory, address, flags; the one address mask it uses for all layers suffices |
| `PageEntries.ZeroIsEmpty` | page-table/impl_u/l2_impl.rs:133-145 | a zero word is no entry, at every layer |
| `EntryWords.NewEntryBits` | page-table/impl_u/l2_impl.rs:368-418 | of every entry that the kernel builds: bit 0 is set, bit 1 if and only if writable, 2 if not supervisor, 3 if write-through, 4 if cache-disable, 7 if it is a page above the lowest layer, 63 if execute-disable; bits 12 to 62 are the address and no other bit is set |
| `EntryWords.NewEntryValue` | page-table/impl_u/l2_impl.rs:240-315 | so as a number it is its address plus one power of two for each flag |
| `EntryWords.PageEntryWord` | page-table/impl_u/l2_impl.rs:317-341 | the number written for a frame: its address, 1, 2 if writable, 4 if not supervisor, 128 above the lowest layer, 2^63 if execute-disable |
| `EntryWords.DirEntryWord` | page-table/impl_u/l2_impl.rs:343-366 | the number written for a table is its address plus 7 |
| `EntryWords.FlagsOfBits` | page-table/spec_t/hardware.rs:222-336 | in any word the hardware takes bit 1 for writable, bit 2 clear for supervisor, and bit 63 for execute-disable |
| `EntryWords.ViewIs` | page-table/spec_t/hardware.rs:222-377 | for any word, layer and width the hardware's view in numbers: empty exactly if bit 0 is clear or one of the listed reserved bits is set, else a page or table as layer and bit 7 say, its address by division and remainder |
| `Definitions.OverlapShares` | page-table/definitions_t.rs:194-201 | regions overlap if and only if they have an address in common, an empty region counting as its one address |
| `Definitions.ExistingShares` | page-table/definitions_t.rs:99-113 | a new mapping overlaps the existing ones if and only if some address is in it and in one of them |
| `Words.ValInjective` | page-table/spec_t/hardware.rs:542-548 | words and the numbers below 2^64 correspond one to one |
| `Words.Field` | page-table/spec_t/hardware.rs:438-447 | shifting is dividing by a power of two and masking is the remainder, for every word and width |
| `MmuWalk.MmuAgrees` | page-table/impl_u/l2_refinement.rs:16-40 | the walk driven by bits 47:39, 38:30, 29:21 and 20:12, with flags combined along the path, finds for every word what walking by division finds |
| `MmuWalk.InterpMemoryAgrees` | page-table/spec_t/hardware.rs:542-559 | so both denote the same map of all addresses below the end of the translated space |
| `Indexing.IndexOfBounds` | page-table/impl_u/indexing.rs:161-201 | an address lies in the range of the entry that its index names, for any base and entry size |
| `Indexing.IndexInTable` | page-table/impl_u/indexing.rs:161-201 | an address inside a table's range has an index below its number of entries |
| `Indexing.IndexOfUnique` | page-table/impl_u/indexing.rs:47-159 | an address inside the range of entry i has index i, and no other: the ranges of entries are disjoint |
| `Indexing.IndexOfAligned` | page-table/impl_u/l2_refinement.rs:42-246 | in an aligned table, dividing and reducing the whole address finds the same entry as dividing its offset |
| `PageTables.HitIsMapped` | page-table/spec_t/hardware.rs:438-540 | every translated address lies in exactly the mapping of its walk |
| `PageTables.MappedIsHit` | page-table/spec_t/hardware.rs:438-540 | every address of every mapping is translated through it |
| `PageTables.MappingsDisjoint` | page-table/impl_u/l0.rs:82-90 | no address is in two mappings, whatever the memory holds |
| `PageTables.PathFlags` | page-table/spec_t/hardware.rs:438-540 | a translation allows writing if and only if every entry on its path does, and forbids user access or execution if and only if one of them does |
| `PageTables.WalkAgrees` | page-table/impl_u/l2_impl.rs:712-741 | changing one entry and adding tables leaves every walk that does not use the entry as it was |
| `PageTables.HangsNoDangling` | page-table/impl_u/l2_impl.rs:570-610 | from a memory whose tables form a tree, the walk never reads outside allocated pages |
| `PageTableWrites.StorePageInserts` | page-table/impl_u/l2_impl.rs:1269-1335 | writing a page into an empty entry inserts exactly that mapping, where none was, and keeps the tree of tables |
| `PageTableWrites.StoreEmptyRemoves` | page-table/impl_u/l2_impl.rs:2098-2160 | clearing a page's entry removes exactly its mapping and keeps the tree |
| `PageTableWrites.InsertHangs` | page-table/impl_u/l2_impl.rs:1737-1846 | hooking a fresh empty page into an empty entry keeps the tree: each table is reached once, and only allocated ones |
| `PageTableWrites.EmptyTableInvisible` | page-table/impl_u/l2_impl.rs:1737-1846 | and the hardware does not see it |
| `PageTableWrites.RemoveHangs` | page-table/impl_u/l2_impl.rs:1929-1990 | unhooking and freeing an empty table keeps the tree |
| `PageTableWrites.RemoveInvisible` | page-table/impl_u/l2_impl.rs:1929-1990 | and the hardware sees neither the unhooking nor the freeing |
| `PageTableImpl.PageTableMemory.constructor` | page-table/impl_u/spec_pt.rs:126-131 | a zeroed root is a page table that maps nothing |
| `PageTableImpl.PageTableMemory.AllocPage` | page-table/spec_t/mem.rs:85-106 | hands out a free page, zeroed; no other page changes |
| `PageTableImpl.PageTableMemory.DeallocPage` | page-table/spec_t/mem.rs:108-123 | takes a page back; no other page changes |
| `PageTableImpl.PageTableMemory.Read` | page-table/spec_t/mem.rs:148-165 | reads a word of a table |
| `PageTableImpl.PageTableMemory.Write` | page-table/spec_t/mem.rs:125-146 | changes one word of one page and records the new memory state |
| `PageTableImpl.PageTableMemory.InsertEmptyDirectory` | page-table/impl_u/l2_impl.rs:1737-1846 | one page is used, both memory states on the way denote the same map and lead nowhere outside allocated pages |
| `PageTableImpl.PageTableMemory.MapFrameAux` | page-table/impl_u/l2_impl.rs:947-1562 | from any table down: refused exactly on overlap and then nothing is touched; else every state but the last denotes the old map and the last the map with the new entry; at most 3 - layer pages used |
| `PageTableImpl.PageTableMemory.IsDirectoryEmpty` | page-table/impl_u/l2_impl.rs:1712-1735 | true exactly if all 512 entries are empty to the hardware |
| `PageTableImpl.PageTableMemory.RemoveEmptyDirectory` | page-table/impl_u/l2_impl.rs:1929-1990 | clearing the entry of an empty directory and freeing its page: both memory states denote the same map, and just that page is freed |
| `PageTableImpl.PageTableMemory.UnmapAux` | page-table/impl_u/l2_impl.rs:1848-2173 | from any table down: refused exactly if nothing is mapped at the address and then nothing is touched; else the first and all later states denote the map without the entry, and no table below stays empty |
| `PageTableImpl.PageTableMemory.ResolveAux` | page-table/impl_u/l2_impl.rs:851-922 | returns the one mapping that covers the address, or an error exactly if none does |
| `PageTableImpl.PageTableMemory.Resolve` | page-table/impl_u/l2_impl.rs:924-939 | the same from the root |
| `PageTableImpl.PageTableMemory.MapFrame` | page-table/impl_u/l2_impl.rs:1683-1710 | does what mapping in the flat map does, in the write order that spec_pt.rs promises, with no empty table left; the pages that become tables are exactly those that stop being free, at most three |
| `PageTableImpl.PageTableMemory.Unmap` | page-table/impl_u/l2_impl.rs:2175-2204 | does what unmapping in the flat map does, the first write taking the mapping away and all others invisible; a table is freed if and only if no mapping in its range is left, and the freed tables are exactly the pages that become free |
| `PageTableImpl.PageTableMemory.Perform` | page-table/impl_u/l0.rs:118-193 | one accepted call answers as the flat map does and leaves memory denoting the map after it; a map asks for three free pages and uses at most three, an unmap asks for none |
| `PageTableImpl.PageTableMemory.Replay` | page-table/impl_u/l0.rs:118-193 | any sequence of accepted calls, of any length, gives the answers of the flat map and leaves memory denoting it; the only thing that can end it early is a map that finds fewer than three pages free |
| `PageTableUse.TablesAreNeeded` | page-table/impl_u/l2_impl.rs:590-655 | in every memory that the calls produce there is a table for an aligned range if and only if some mapping needs that range divided, and never two: nothing leaks and nothing is shared |
| `PageTableUse.OneTablePerRange` | page-table/impl_u/l2_impl.rs:631-655 | no range has two tables |
| `PageTableUse.ExactlyEmptiedGo` | page-table/impl_u/l2_impl.rs:1858-1874 | when mappings and tables only go away and no empty table is left, a table stays if and only if it is the root or a mapping that is left lies in its range |
| `PageTableSteps.MapIsRun` | page-table/impl_u/spec_pt.rs:25-30 | taking the lock, any writes that the hardware does not see, and a last write that maps, or none and a refusal, are a run of the machine |
| `PageTableSteps.UnmapIsRun` | page-table/impl_u/spec_pt.rs:25-30 | so are taking the lock with the write that unmaps, or with none and a refusal, any writes that the hardware does not see, and the report of the result |
| `PageTableSteps.MapCall` | page-table/spec_t/os.rs:594-650 | whatever a map call answers, the memory states it went through, each with the number of pages free then, are the page tables of a run by the core that took the lock, and the run ends with the call's answer |
| `PageTableSteps.UnmapCall` | page-table/spec_t/os.rs:741-805 | the same for an unmap call; the result that the machine keeps is the mapping that was removed, or an error exactly if there was none |
| `PageTableSteps.MapOnCore` | page-table/impl_u/l2_impl.rs:1683-1710 | a core that waits for the free lock with an enabled request calls the page table on memory that the machine sees: answered or refused, the call is such a run, up to the memory and the free pages afterwards; pages only ever get fewer during it, by at most three |
| `PageTableSteps.UnmapOnCore` | page-table/impl_u/l2_impl.rs:2175-2204 | the same for a core that waits with an unmap; pages only ever get more during it |
| `PageTableSteps.RunRequestsEnabled` | page-table/spec_t/os.rs:580-627 | in every state of every run, the request that a core waits with is one that the page table accepts |
| `PageTableRuns.CallMap` | page-table/impl_u/l2_impl.rs:1683-1710 | in a run from an initial state whose requests left room, a map call needs no promise of free pages: the three it asks for are there, and the run goes on through the call |
| `PageTableRuns.CallUnmap` | page-table/impl_u/l2_impl.rs:2175-2204 | an unmap call continues such a run through removal, shootdown and the release of the lock |
| `PageTableRuns.Serve` | page-table/spec_t/os.rs:935-1036 | any list of map and unmap requests by threads and of calls by the cores that wait, in any order, up to the first whose core is not ready for it or, for a map request, that finds too little room: the states that the page table class goes through are one run of the machine from its initial state, with these requests, calls and answers; every map finds its pages; and the run is one of the flat memory |
| `DirectoryTree.InterpFromAt` | page-table/impl_u/l1.rs:277-301 | the union of what the entries denote has an address exactly if indexing down the tree finds a mapping that starts there |
| `DirectoryTree.MapFrameInv` | page-table/impl_u/l1.rs:984-1077 | mapping keeps the tree in shape and leaves no empty directory |
| `DirectoryTree.MapFrameAt` | page-table/impl_u/l1.rs:1272-1411 | mapping adds the new mapping and leaves all others |
| `DirectoryTree.MapFrameErr` | page-table/impl_u/l1.rs:1272-1411 | mapping is refused if and only if the new mapping overlaps one that is there |
| `DirectoryTree.UnmapInv` | page-table/impl_u/l1.rs:1468-1507 | unmapping keeps the tree in shape, dropping directories that become empty |
| `DirectoryTree.UnmapAt` | page-table/impl_u/l1.rs:1556-1642 | unmapping succeeds exactly if a mapping starts at the address, and takes away that mapping only |
| `DirectoryRefinement.MapFrameRefines` | page-table/impl_u/l1.rs:1272-1411 | for any layering, mapping in the tree is mapping in the flat map, success and failure alike |
| `DirectoryRefinement.UnmapRefines` | page-table/impl_u/l1.rs:1556-1642 | the same for unmapping |
| `DirectoryRefinement.ResolveRefines` | page-table/impl_u/l1.rs:713-792 | the tree's lookup answers for the flat map: the unique covering mapping, or an error exactly if there is none |
| `DirectoryRefinement.Canonical` | page-table/impl_u/l1.rs:153-163 | two trees in shape, of one layer and base, that denote the same map are equal, if no lower layer has one-entry tables |
| `DirectoryRefinement.OneEntryTablesAmbiguous` | page-table/definitions_t.rs:288-306 | with a layer of one-entry tables two different trees denote one map |
| `DirectoryRefinement.CanonicalExactly` | page-table/impl_u/l1.rs:153-163 | so for every layering the form is canonical if and only if no lower layer has one-entry tables |
| `DirectoryRefinement.MapThenUnmap` | page-table/impl_u/l1.rs:880-917 | unmapping what was just mapped gives back the identical tree |
| `MemoryTree.TreeDenotesMemory` | page-table/impl_u/l2_impl.rs:657-710 | the tree read out of memory is in shape for x86-64 and denotes what the hardware sees |
| `MemoryTree.MapMovesTree` | page-table/impl_u/l2_impl.rs:947-1562 | if memory goes from one map to the other by a map call, its tree goes where mapping in the tree goes |
| `MemoryTree.UnmapMovesTree` | page-table/impl_u/l2_impl.rs:1848-2173 | the same for an unmap call, down to the identical tree |
| `RangeMapping.MapsRangeTwice` | verified-node-replication/benchmarks/verified/src/vnr_vspace.rs:486-498 | two adjacent ranges mapped one after the other are one mapped range |
| `RangeMapping.StorePageMaps` | verified-node-replication/benchmarks/verified/src/vnr_vspace.rs:468-484 | writing a page of any size over an entry that leads to no table translates exactly the entry's addresses, and no walk elsewhere changes |
| `RangeObstacles.TableKeepsObstacles` | verified-node-replication/benchmarks/verified/src/vnr_vspace.rs:657-670 | adding an empty table puts nothing in the way of larger pages behind the start of its range |
| `RangeObstacles.EntryInUse` | verified-node-replication/benchmarks/verified/src/vnr_vspace.rs:468-541 | an entry in use is in the way of a page that would start there |
| `VSpaceModule.VSpace.AllocateOnePage` | verified-node-replication/benchmarks/verified/src/vnr_vspace.rs:627-655 | takes the next page of the region, zeroed, moving the counter by two pages, or fails exactly when the region is used up |
| `VSpaceModule.VSpace.MapHugePages` | verified-node-replication/benchmarks/verified/src/vnr_vspace.rs:464-484 | the 1 GiB loop: what it filled is mapped, by 1 GiB pages throughout, nothing else changed, and it stops short only at an entry that was in use before |
| `VSpaceModule.VSpace.MapLargePages` | verified-node-replication/benchmarks/verified/src/vnr_vspace.rs:534-557 | the same for the 2 MiB loop |
| `VSpaceModule.VSpace.MapBasePages` | verified-node-replication/benchmarks/verified/src/vnr_vspace.rs:595-608 | the 4 KiB loop maps over whatever was there, by 4 KiB pages |
| `VSpaceModule.VSpace.MapGeneric` | verified-node-replication/benchmarks/verified/src/vnr_vspace.rs:419-624 | terminates; misaligned requests panic and touch nothing; when done every address of the range goes to its counterpart and is writable exactly for the four ReadWrite actions, not executable exactly for the four without Execute, supervisor-only exactly for the User actions, and none was covered by a larger page before; whatever the outcome no address outside walks differently; a refusal or panic is explained by what was in the range before or by a used-up region; where a 1 GiB page or else a 2 MiB page can start the range and its entry is unused, that is the page there, and a request for just one adds just the tables above it; where larger pages cannot be used, 4 KiB pages are, and the outcome and the use of memory are determined exactly |
| `VSpaceModule.VSpace.MapInPdpt` | verified-node-replication/benchmarks/verified/src/vnr_vspace.rs:450-521 | the same for the part below a 512 GiB slot: a 1 GiB page if one fits and its entry is unused, else one level down |
| `VSpaceModule.VSpace.MapInPd` | verified-node-replication/benchmarks/verified/src/vnr_vspace.rs:522-593 | the same for the part below a 1 GiB slot |
| `VSpaceModule.VSpace.MapInPt` | verified-node-replication/benchmarks/verified/src/vnr_vspace.rs:595-623 | the same for the part below a 2 MiB slot |
| `VSpaceModule.VSpace.MapRest` | verified-node-replication/benchmarks/verified/src/vnr_vspace.rs:486-503 | what a loop left over is mapped by the recursive call, what happens there is what happens to the whole request, and what the loop filled stays as it was |
| `VSpaceModule.VSpace.NewTable` | verified-node-replication/benchmarks/verified/src/vnr_vspace.rs:657-670 | hooks a fresh empty table into an unused entry without changing any walk, or fails exactly when the region is used up |
| `VSpaceModule.VSpace.Default` | verified-node-replication/benchmarks/verified/src/vnr_vspace.rs:367-400 | mapping the first 512 GiB to themselves page by page never fails an assertion, fits the region, makes every page writable and executable, and changes nothing outside |
| `VSpaceModule.ExplainedLater` | verified-node-replication/benchmarks/verified/src/vnr_vspace.rs:486-503 | what explains the failure of the recursive call explains that of the caller, in terms of the memory before it |
| `VSpaceModule.FreshRangeSucceeds` | verified-node-replication/benchmarks/verified/src/vnr_vspace.rs:419-624 | a range without page directories is mapped, unless the region gets used up |
| `VSpaceModule.SmallPagesExactly` | verified-node-replication/benchmarks/verified/src/vnr_vspace.rs:419-624 | a range in which larger pages cannot be used is mapped if and only if no larger page covers one of its addresses and the region has room for the missing tables: those for its first address, and where each further page table begins those that the address before does not share; each of them uses up two pages |
| `VSpaceModule.ResolveIsWalk` | verified-node-replication/benchmarks/verified/src/vnr_vspace.rs:693-733 | resolving an address finds what the hardware would for 4 KiB pages, and for nothing else |
| `VSpaceModule.ResolvesMapped` | verified-node-replication/benchmarks/verified/src/vnr_vspace.rs:693-733 | so every address of a range mapped by 4 KiB pages resolves to its counterpart |
| `RwLock.DoKeeps` | verified-node-replication/verified-node-replication/src/spec/rwlock.rs:167-206 | every atomic action of every thread keeps the invariant |
| `RwLock.AcquireWriteKeeps` | verified-node-replication/verified-node-replication/src/exec/rwlock.rs:276-347 | each action of the write loops keeps it |
| `RwLock.AcquireReadKeeps` | verified-node-replication/verified-node-replication/src/exec/rwlock.rs:349-450 | each action of the read loop keeps it, retries and withdrawals included |
| `RwLock.Exclusion` | verified-node-replication/verified-node-replication/src/spec/rwlock.rs:179-206 | in every interleaving: a writer that has the value excludes all read guards, at most one thread is past the flag, and every read guard shows the value last put into the cell, which `RwLockHistory.ShowsLastReleased` tells from the actions |
| `RwLock.Accounting` | verified-node-replication/verified-node-replication/src/spec/rwlock.rs:208-218 | each counter equals the number of acquisitions that count at its index, for any number of acquisitions and retries, and never exceeds its limit; whoever will decrement it finds it positive |
| `RwLock.NoUnderflow` | verified-node-replication/verified-node-replication/src/exec/rwlock.rs:482-496 | a thread about to decrement its counter finds it positive |
| `RwLock.NeverStuck` | verified-node-replication/verified-node-replication/src/exec/rwlock.rs:360-375 | while no index has more guards and pending acquisitions together than the counter's limit, whoever they belong to, no acquisition runs into the endless loop behind the overflow warning |
| `RwLock.LoadSticks` | verified-node-replication/verified-node-replication/src/exec/rwlock.rs:357-375 | a load runs into the loop if and only if as many guards and pending readers count at its index as the counter can hold |
| `RwLock.CanStick` | verified-node-replication/verified-node-replication/src/exec/rwlock.rs:349-375 | with more acquisitions than the limit there is a run that ends in the loop, all other acquisitions being guards by then or not begun: one thread that keeps its guards is enough |
| `RwLock.StuckExactly` | verified-node-replication/verified-node-replication/src/exec/rwlock.rs:349-375 | from an initial state some run ends in the loop if and only if more acquisitions can be made than the counter's limit |
| `RwLockHistory.ShowsLastReleased` | verified-node-replication/verified-node-replication/src/exec/rwlock.rs:276-480 | in every interleaving, what a read guard shows, what a writer holds and what is in the cell is the argument of the latest release, or the value that the lock was made with: told from the actions alone, so nothing that a writer releases is lost |
| `RwLockHistory.RunHasEvents` | verified-node-replication/verified-node-replication/src/spec/rwlock.rs:63-165 | every run of the lock is the run of a list of actions |
| `RwLockHistory.IndexKept` | verified-node-replication/verified-node-replication/src/exec/rwlock.rs:349-450 | a reader counts, retries and holds its guard at the index it began with |
| `RwLockHistory.NobodyIsHalted` | verified-node-replication/verified-node-replication/src/exec/rwlock.rs:276-496 | in every reachable state an idle thread may begin, a waiting one may try again, and a holder may release, with any value that keeps the user's invariant |
| `RwLockHistory.WriterGetsIn` | verified-node-replication/verified-node-replication/src/exec/rwlock.rs:276-347 | a writer that finds the flag clear and no reader counted has the value after one action for the flag, one for each counter and one for the cell, if nobody comes in between |
| `RwLockHistory.ReaderGetsIn` | verified-node-replication/verified-node-replication/src/exec/rwlock.rs:349-450 | a reader that finds the flag clear has a guard with the value after three actions, counted once |
| `RwLockHistory.ReaderBacksOff` | verified-node-replication/verified-node-replication/src/exec/rwlock.rs:402-450 | a reader that finds the flag set has withdrawn its count after four actions and is back where it began |
| `RwLock.Lock.constructor` | verified-node-replication/verified-node-replication/src/exec/rwlock.rs:138-274 | a new lock is in an initial state with its value in the cell |
| `RwLock.Lock.StepAcquireWrite` | verified-node-replication/verified-node-replication/src/exec/rwlock.rs:276-347 | one action of the acquire loop; when it yields the value, that is the value last released, and the user's invariant holds of it |
| `RwLock.Lock.StepAcquireRead` | verified-node-replication/verified-node-replication/src/exec/rwlock.rs:349-450 | one action of the acquire loop; the guard shows the value last released |
| `RwLock.Lock.Borrow` | verified-node-replication/verified-node-replication/src/exec/rwlock.rs:452-462 | for as long as a guard lives it shows the value last released |
| `RwLock.Lock.StepReleaseWrite` | verified-node-replication/verified-node-replication/src/exec/rwlock.rs:464-480 | puts the released value into the cell, then in a second action clears the flag; nothing else changes |
| `RwLock.Lock.ReleaseReadGuard` | verified-node-replication/verified-node-replication/src/exec/rwlock.rs:482-496 | decrements the counter by exactly one |
| `FlatCombiner.DoKeeps` | verified-node-replication/verified-node-replication/src/spec/flat_combiner.rs:103-174 | every transition keeps the invariant |
| `FlatCombiner.Asserted` | verified-node-replication/verified-node-replication/src/spec/flat_combiner.rs:231-345 | the facts that transitions assert hold whenever they may be taken |
| `FlatCombiner.CombinerNeverStuck` | verified-node-replication/verified-node-replication/src/spec/flat_combiner.rs:202-303 | in every reachable state exactly one combiner transition can be taken, and where the slot it has come to holds a request while it collects, it is the one that collects it |
| `FlatCombiner.SlotsCycle` | verified-node-replication/verified-node-replication/src/spec/flat_combiner.rs:202-351 | a slot only ever moves on to the next of Empty, Request, InProgress, Response, and from there to Empty, with an unchanging identifier |
| `FlatCombiner.OneOwed` | verified-node-replication/verified-node-replication/src/spec/flat_combiner.rs:202-303 | over every run a request has been collected as often as answered, plus once if it is in progress |
| `FlatCombiner.WithinPass` | verified-node-replication/verified-node-replication/src/spec/flat_combiner.rs:202-303 | at any point of a pass, a thread's request was collected in it exactly if the combiner remembers it, and answered exactly if the combiner is past it |
| `FlatCombiner.PassAnswersEach` | verified-node-replication/verified-node-replication/src/spec/flat_combiner.rs:216-303 | when a pass has gone through all threads, each request it collected was answered exactly once in that pass |
| `FlatCombiner.PassServes` | verified-node-replication/verified-node-replication/src/spec/flat_combiner.rs:202-303 | a request that is pending when a pass begins is collected and answered exactly once in that pass: by its end the slot holds the response, or its client has received it |
| `FlatCombiner.PassMovesOn` | verified-node-replication/verified-node-replication/src/spec/flat_combiner.rs:202-303 | a pass over n threads takes 2n + 2 combiner transitions, one place at a time, whatever the clients do |
| `FlatCombiner.ClientsCanAct` | verified-node-replication/verified-node-replication/src/spec/flat_combiner.rs:305-351 | in every reachable state an idle client can send, and one whose response is there can receive it |
| `FlatCombiner.PassAnswersAll` | verified-node-replication/verified-node-replication/src/spec/flat_combiner.rs:216-303 | between passes nothing is owed, and no answer comes before its collection |
| `FlatCombiner.ClientsWait` | verified-node-replication/verified-node-replication/src/spec/flat_combiner.rs:305-351 | a client waits exactly for the request it sent last and has not received |
| `FlatCombiner.SinceSent` | verified-node-replication/verified-node-replication/src/spec/flat_combiner.rs:305-351 | from sending on, the slot keeps the request's identifier, and its state tells whether the request was collected and answered since |
| `FlatCombiner.ReceivesOwnResponse` | verified-node-replication/verified-node-replication/src/spec/flat_combiner.rs:326-351 | a client receives the response to its own request, which was collected and answered exactly once in between |
| `ThreadContext.NeverRefused` | verified-node-replication/verified-node-replication/src/exec/context.rs:437-482 | whoever is to touch the cell has its permission: client, slot or combiner, and one of them only; every client and the combiner can take its next action |
| `ThreadContext.DoKeeps` | verified-node-replication/verified-node-replication/src/exec/context.rs:437-482 | every action of clients and combiner keeps the invariant over word, cell, permission and combiner state |
| `ThreadContext.SincePut` | verified-node-replication/verified-node-replication/src/exec/context.rs:236-360 | a thread that waits, waits for the operation and identifier it put in last |
| `ThreadContext.RefinesFlatCombiner` | verified-node-replication/verified-node-replication/src/exec/context.rs:236-360 | every action is one transition of the flat combiner or none |
| `ThreadContext.OneUser` | verified-node-replication/verified-node-replication/src/exec/context.rs:437-482 | in every state of every run the cell's permission has exactly one owner, and the word is 0 exactly if the slot is empty or holds a response |
| `ThreadContext.ExecutedOnce` | verified-node-replication/verified-node-replication/src/exec/context.rs:437-482 | an operation was executed once if it is done and not at all otherwise |
| `ThreadContext.DequeuesOwnResponse` | verified-node-replication/verified-node-replication/src/exec/context.rs:297-360 | what a thread takes out is the result of the operation that it enqueued, executed exactly once |
| `ThreadContext.ServedByNextPass` | verified-node-replication/verified-node-replication/src/exec/context.rs:236-360 | an operation whose word is set before a pass begins is executed exactly once by the end of that pass, and then its thread has received the response, or the word is 0 and the result is in the cell |
| `ThreadContext.CombinerActs` | verified-node-replication/verified-node-replication/src/spec/flat_combiner.rs:202-303 | in every reachable state the combiner has an action to take, and executing an operation is one of them, with whatever result, while an answer is missing |
| `ThreadContext.Contexts.constructor` | verified-node-replication/verified-node-replication/src/exec/context.rs:181-233 | all words are 0 and all cells empty |
| `ThreadContext.Contexts.EnqueuePut` | verified-node-replication/verified-node-replication/src/exec/context.rs:236-264 | puts the operation, without a response, into the thread's cell while the word is still 0; no other cell and no word changes |
| `ThreadContext.Contexts.EnqueueStore` | verified-node-replication/verified-node-replication/src/exec/context.rs:265-292 | the word becomes 1 and nothing else changes, the permission goes to the slot, and the call reports success, as it always does |
| `ThreadContext.Contexts.DequeueResponse` | verified-node-replication/verified-node-replication/src/exec/context.rs:297-360 | nothing, exactly while the word is 1, and then nothing changes; else the response to the operation this thread enqueued, no other thread's word or cell changing |

## Left out

- VSpaceModule.VSpace.MapGeneric: ranges that end beyond 48 bits are not modelled, because there the index fields wrap; for requests longer than one page that can use larger ones, which page comes first and what failures mean is stated, but not exactly when they happen, nor how many tables are added.
- Physical addresses that do not fit the address field of an entry: the entry types of the x86 crate, which reject them, are not part of this model.
- OSProperties.LockCanBeReleased: a run that releases the lock exists; that every fair run does is not stated.
- Caches, memory ordering, accessed and dirty bits, the global bit, page attribute bits set by others, several address spaces, process context identifiers.
- The unfinished atomic MMU of page-table/spec_t/atomic_mmu.rs, whose walk and invalidation are unspecified.
- The raw pointers and the linear mapping behind page table memory: pages are a map from addresses to words, and the allocator is the set of its free pages, to which a freed page returns.
- Map calls of the page table with fewer than three free pages: the source's map asks for three.
- The hardware's `PTMemOp` never happens on its own: page table writes are steps of the kernel, as in the source.
- The token-sharded specification of the lock: its transitions are the atomic actions of the threads here, and a cell is read or taken in the same action as the load that allows it.
- Spurious failures of compare-and-exchange, which would only add stuttering retries.
- The log, the replica and the cyclic buffer of node replication are not part of this model; the combiner's dealings with them are the choice of a result for an operation.
- The identifiers, tokens and thread registration of node replication, the counter example, benchmarks, topology and logging.
- Liveness under fairness.
