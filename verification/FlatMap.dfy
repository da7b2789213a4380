/** What a page table means: a flat map from the first address of each mapping to its entry. */
module FlatMap {
  import opened Definitions

  type Mappings = map<nat, PTE>

  function MapFrame(m: Mappings, base: nat, pte: PTE): Result<Mappings> {
    if OverlapsExistingVmem(m, base, pte) then Err else Ok(m[base := pte])
  }

  function Unmap(m: Mappings, base: nat): Result<Mappings> {
    if base in m then Ok(m - {base}) else Err
  }

  lemma MapFrameIs(m: Mappings, base: nat, pte: PTE)
    ensures MapFrame(m, base, pte).Ok? <==> !OverlapsExistingVmem(m, base, pte)
    ensures MapFrame(m, base, pte).Ok? ==> MapFrame(m, base, pte).value == m[base := pte]
  {
  }

  lemma UnmapIs(m: Mappings, base: nat)
    ensures Unmap(m, base).Ok? <==> base in m
    ensures Unmap(m, base).Ok? ==> Unmap(m, base).value == m - {base}
  {
  }

  predicate Covers(m: Mappings, base: nat, va: nat) {
    base in m && base <= va < base + m[base].frame.size
  }

  /** The answer to a lookup of `va`: the one mapping that covers it, or an error if there is none. */
  ghost predicate Resolves(m: Mappings, va: nat, r: Result<(nat, PTE)>) {
    match r
    case Ok((base, pte)) => Covers(m, base, va) && m[base] == pte && (forall b: nat | Covers(m, b, va) :: b == base)
    case Err => forall b: nat :: !Covers(m, b, va)
  }

  datatype Call = MapCall(base: nat, pte: PTE) | UnmapCall(base: nat)

  function Perform(m: Mappings, c: Call): Result<Mappings> {
    match c
    case MapCall(base, pte) => MapFrame(m, base, pte)
    case UnmapCall(base) => Unmap(m, base)
  }

  predicate Succeeds(m: Mappings, c: Call) {
    Perform(m, c).Ok?
  }

  /** The map after a call; a refused call leaves it alone. */
  function After(m: Mappings, c: Call): Mappings {
    if Perform(m, c).Ok? then Perform(m, c).value else m
  }

  function AfterAll(m: Mappings, calls: seq<Call>): Mappings {
    if calls == [] then m else After(AfterAll(m, calls[..|calls| - 1]), calls[|calls| - 1])
  }

  /** Which calls of a sequence succeed. */
  function Answers(m: Mappings, calls: seq<Call>): (oks: seq<bool>)
    ensures |oks| == |calls|
  {
    if calls == [] then [] else
      var earlier := calls[..|calls| - 1];
      Answers(m, earlier) + [Succeeds(AfterAll(m, earlier), calls[|calls| - 1])]
  }

  /** How many calls of a sequence are maps. */
  function Maps(calls: seq<Call>): nat {
    if calls == [] then 0 else Maps(calls[..|calls| - 1]) + if calls[|calls| - 1].MapCall? then 1 else 0
  }

  lemma OneMoreCall(m: Mappings, calls: seq<Call>, n: nat)
    requires n < |calls|
    ensures AfterAll(m, calls[..n + 1]) == After(AfterAll(m, calls[..n]), calls[n])
    ensures Answers(m, calls[..n + 1]) == Answers(m, calls[..n]) + [Succeeds(AfterAll(m, calls[..n]), calls[n])]
    ensures Maps(calls[..n + 1]) == Maps(calls[..n]) + if calls[n].MapCall? then 1 else 0
  {
    assert calls[..n + 1][..n] == calls[..n];
  }

  lemma NoCalls(m: Mappings, calls: seq<Call>)
    ensures AfterAll(m, calls[..0]) == m && Answers(m, calls[..0]) == [] && Maps(calls[..0]) == 0
  {
  }
}
