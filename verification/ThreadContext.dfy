/** Each thread's slot in memory: a word that says whether an operation is pending, and a cell that holds it.
    Clients, slots and the combiner hand the permission to use the cell to one another. */
module ThreadContext {
  import opened Definitions
  import FC = FlatCombiner

  datatype Pending<Op, Resp> = Pending(op: Op, resp: Option<Resp>)

  /** What the log knows of a request: the operation, and its result once it has been executed. */
  datatype Update<Op, Resp> = Proposed(op: Op) | Done(op: Op, ret: Resp)

  /** Where a client thread is in enqueue_op and dequeue_response. */
  datatype Pc<Op> =
    | Ready
    // enqueue_op: the operation is in the cell, the word is still 0
    | Filled(op: Op, rid: FC.ReqId)
    // the word has been set
    | Await(op: Op, rid: FC.ReqId)
    // dequeue_response: the word was 0, the response is still in the cell
    | Taking(op: Op, rid: FC.ReqId)

  /** Who holds the permission to use the cell is recorded once for each party that can hold it. */
  datatype Context<Op, Resp> =
    Context(word: nat, cell: Option<Pending<Op, Resp>>, clientHas: bool, slotHas: bool, combinerHas: bool)

  datatype State<Op, Resp> =
    State(fc: FC.State, pcs: seq<Pc<Op>>, contexts: seq<Context<Op, Resp>>, updates: map<FC.ReqId, Update<Op, Resp>>)

  datatype Action<Op, Resp> =
    // a client's atomic actions
    | Put(tid: nat, op: Op, rid: FC.ReqId)
    | StoreOne(tid: nat)
    | LoadWord(tid: nat)
    | Take(tid: nat)
    // the combiner's
    | Collect
    | StartResponding
    | Execute(tid: nat, ret: Resp)
    | SkipEmpty
    | Respond
    | FinishPass

  ghost predicate Init<Op, Resp>(s: State<Op, Resp>) {
    && FC.Init(s.fc)
    && |s.pcs| == |s.contexts| == |s.fc.clients|
    && (forall t: nat | t < |s.pcs| :: s.pcs[t] == Ready && s.contexts[t] == Context(0, None, true, false, false))
    && s.updates == map[]
  }

  predicate Sized<Op, Resp>(s: State<Op, Resp>) {
    |s.pcs| == |s.contexts| == |s.fc.clients| == |s.fc.slots|
  }

  /** When an action can be taken; nothing here asks who holds the permission. */
  predicate Enabled<Op, Resp>(s: State<Op, Resp>, a: Action<Op, Resp>)
  {
    Sized(s) &&
    match a
    case Put(t, _, rid) => t < |s.pcs| && s.pcs[t].Ready? && rid !in s.updates
    case StoreOne(t) => t < |s.pcs| && s.pcs[t].Filled? && FC.Enabled(s.fc, FC.SendRequest(t, s.pcs[t].rid))
    case LoadWord(t) => t < |s.pcs| && s.pcs[t].Await? &&
      (s.contexts[t].word == 0 ==> FC.Enabled(s.fc, FC.RecvResponse(t, s.pcs[t].rid)))
    case Take(t) => t < |s.pcs| && s.pcs[t].Taking?
    case Collect => s.fc.combiner.Collecting? && FC.At(s.fc) < |s.contexts| && FC.Enabled(s.fc, CollectStep(s))
    case StartResponding => FC.Enabled(s.fc, FC.RespondingStart)
    case Execute(t, _) =>
      && t < |s.pcs| && s.fc.slots[t].InProgress? && s.fc.slots[t].rid in s.updates &&
        s.updates[s.fc.slots[t].rid].Proposed?
      && s.contexts[t].cell.Some?
    case SkipEmpty => FC.Enabled(s.fc, FC.RespondingEmpty)
    case Respond =>
      && FC.Enabled(s.fc, FC.RespondingResult) && FC.At(s.fc) < |s.contexts|
      && s.contexts[FC.At(s.fc)].cell.Some? && s.contexts[FC.At(s.fc)].cell.value.resp.Some?
    case FinishPass => FC.Enabled(s.fc, FC.RespondingDone)
  }

  /** The combiner goes by the word alone: 0 is nothing to do, 1 is a request. */
  function CollectStep<Op, Resp>(s: State<Op, Resp>): FC.Step
    requires FC.At(s.fc) < |s.contexts|
  {
    if s.contexts[FC.At(s.fc)].word == 0 then FC.CollectEmpty else FC.CollectRequest
  }

  function Do<Op, Resp>(s: State<Op, Resp>, a: Action<Op, Resp>): State<Op, Resp>
    requires Enabled(s, a)
  {
    match a
    case Put(t, op, rid) =>
      s.(pcs := s.pcs[t := Filled(op, rid)],
         contexts := s.contexts[t := s.contexts[t].(cell := Some(Pending(op, None)))],
         updates := s.updates[rid := Proposed(op)])
    case StoreOne(t) =>
      s.(fc := FC.Do(s.fc, FC.SendRequest(t, s.pcs[t].rid)),
         pcs := s.pcs[t := Await(s.pcs[t].op, s.pcs[t].rid)],
         contexts := s.contexts[t := s.contexts[t].(word := 1, clientHas := false, slotHas := s.contexts[t].clientHas)])
    case LoadWord(t) =>
      if s.contexts[t].word == 0 then
        s.(fc := FC.Do(s.fc, FC.RecvResponse(t, s.pcs[t].rid)),
           pcs := s.pcs[t := Taking(s.pcs[t].op, s.pcs[t].rid)],
           contexts := s.contexts[t := s.contexts[t].(clientHas := s.contexts[t].slotHas, slotHas := false)])
      else s
    case Take(t) =>
      s.(pcs := s.pcs[t := Ready], contexts := s.contexts[t := s.contexts[t].(cell := None)])
    case Collect =>
      var t := FC.At(s.fc);
      s.(fc := FC.Do(s.fc, CollectStep(s)),
         contexts := if s.contexts[t].word == 0 then s.contexts
                     else s.contexts[t := s.contexts[t].(slotHas := false, combinerHas := s.contexts[t].slotHas)])
    case StartResponding => s.(fc := FC.Do(s.fc, FC.RespondingStart))
    case Execute(t, ret) =>
      var rid, op := s.fc.slots[t].rid, s.contexts[t].cell.value.op;
      s.(contexts := s.contexts[t := s.contexts[t].(cell := Some(Pending(op, Some(ret))))],
         updates := s.updates[rid := Done(op, ret)])
    case SkipEmpty => s.(fc := FC.Do(s.fc, FC.RespondingEmpty))
    case Respond =>
      var t := FC.At(s.fc);
      s.(fc := FC.Do(s.fc, FC.RespondingResult),
         contexts :=
           s.contexts[t := s.contexts[t].(word := 0, combinerHas := false, slotHas := s.contexts[t].combinerHas)])
    case FinishPass => s.(fc := FC.Do(s.fc, FC.RespondingDone))
  }

  // ----- the invariant

  /** Exactly one party holds the permission. */
  predicate OneHolder<Op, Resp>(c: Context<Op, Resp>) {
    || (c.clientHas && !c.slotHas && !c.combinerHas)
    || (!c.clientHas && c.slotHas && !c.combinerHas)
    || (!c.clientHas && !c.slotHas && c.combinerHas)
  }

  /** The word and the holder, as the slot determines them. */
  predicate WordInv<Op, Resp>(c: Context<Op, Resp>, slot: FC.SlotState) {
    && OneHolder(c)
    && (c.word == 0 || c.word == 1)
    && (c.word == 0 <==> slot.Empty? || slot.Response?)
    && (c.clientHas <==> slot.Empty?)
    && (c.slotHas <==> slot.Request? || slot.Response?)
    && (c.combinerHas <==> slot.InProgress?)
  }

  predicate HasRid<Op>(pc: Pc<Op>) {
    !pc.Ready?
  }

  /** The cell holds the thread's operation, with the result that the log has for it, if any. */
  ghost predicate CellMatches<Op, Resp>(c: Context<Op, Resp>, op: Op, rid: FC.ReqId,
      updates: map<FC.ReqId, Update<Op, Resp>>) {
    && rid in updates
    && c.cell.Some?
    && c.cell.value.op == op
    && (match updates[rid]
        case Proposed(op') => op' == op && c.cell.value.resp == None
        case Done(op', ret) => op' == op && c.cell.value.resp == Some(ret))
  }

  ghost predicate ThreadInv<Op, Resp>(pc: Pc<Op>, c: Context<Op, Resp>, client: FC.ClientState, slot: FC.SlotState,
                                      updates: map<FC.ReqId, Update<Op, Resp>>)
  {
    && WordInv(c, slot)
    && (pc.Await? <==> client.Waiting?)
    && (pc.Ready? ==> c.cell == None)
    && (HasRid(pc) ==> CellMatches(c, pc.op, pc.rid, updates))
    && (pc.Filled? ==> updates[pc.rid].Proposed?)
    && (pc.Await? ==> client == FC.Waiting(pc.rid))
    && (pc.Taking? ==> updates[pc.rid].Done?)
    && (slot.Request? ==> slot.rid in updates && updates[slot.rid].Proposed?)
    && (slot.Response? ==> slot.rid in updates && updates[slot.rid].Done?)
  }

  ghost predicate Inv<Op, Resp>(s: State<Op, Resp>) {
    && Sized(s)
    && FC.Inv(s.fc)
    && (forall t: nat | t < |s.pcs| :: ThreadInv(s.pcs[t], s.contexts[t], s.fc.clients[t], s.fc.slots[t], s.updates))
    && (forall t: nat, u: nat | t < |s.pcs| && u < |s.pcs| && HasRid(s.pcs[t]) && HasRid(s.pcs[u]) &&
        s.pcs[t].rid == s.pcs[u].rid :: t == u)
  }

  lemma InitInv<Op, Resp>(s: State<Op, Resp>)
    requires Init(s)
    ensures Inv(s)
  {
  }

  // ----- one thread at a time

  /** The log's knowledge of other requests does not matter to a thread. */
  lemma ThreadKept<Op, Resp>(pc: Pc<Op>, c: Context<Op, Resp>, client: FC.ClientState, slot: FC.SlotState,
                             u1: map<FC.ReqId, Update<Op, Resp>>, u2: map<FC.ReqId, Update<Op, Resp>>)
    requires ThreadInv(pc, c, client, slot, u1)
    requires slot != FC.Empty ==> client == FC.Waiting(slot.rid)
    requires HasRid(pc) ==> pc.rid in u2 && u2[pc.rid] == u1[pc.rid]
    ensures ThreadInv(pc, c, client, slot, u2)
  {
  }

  /** Only thread t moved, and only its request changed in the log. */
  ghost predicate OnlyThread<Op, Resp>(s: State<Op, Resp>, s': State<Op, Resp>, t: nat) {
    && Sized(s) && Sized(s') && |s'.pcs| == |s.pcs| && t < |s.pcs|
    && (forall u: nat | u < |s.pcs| && u != t ::
          s'.pcs[u] == s.pcs[u] && s'.contexts[u] == s.contexts[u] &&
          s'.fc.clients[u] == s.fc.clients[u] && s'.fc.slots[u] == s.fc.slots[u])
    && (forall u: nat | u < |s.pcs| && u != t && HasRid(s.pcs[u]) ::
          s.pcs[u].rid in s.updates ==>
            s.pcs[u].rid in s'.updates && s'.updates[s.pcs[u].rid] == s.updates[s.pcs[u].rid])
  }

  lemma OthersKept<Op, Resp>(s: State<Op, Resp>, s': State<Op, Resp>, t: nat)
    requires Inv(s) && FC.Inv(s'.fc) && OnlyThread(s, s', t)
    requires ThreadInv(s'.pcs[t], s'.contexts[t], s'.fc.clients[t], s'.fc.slots[t], s'.updates)
    requires HasRid(s'.pcs[t]) ==> forall u: nat | u < |s.pcs| && u != t && HasRid(s.pcs[u]) ::
      s.pcs[u].rid != s'.pcs[t].rid
    ensures Inv(s')
  {
    forall u: nat | u < |s'.pcs|
      ensures ThreadInv(s'.pcs[u], s'.contexts[u], s'.fc.clients[u], s'.fc.slots[u], s'.updates) {
      if u != t {
        assert ThreadInv(s.pcs[u], s.contexts[u], s.fc.clients[u], s.fc.slots[u], s.updates);
        assert FC.ClientInv(s.fc, u);
        ThreadKept(s.pcs[u], s.contexts[u], s.fc.clients[u], s.fc.slots[u], s.updates, s'.updates);
      }
    }
    hide ThreadInv, FC.Inv;
  }

  lemma ThreadFacts<Op, Resp>(s: State<Op, Resp>, t: nat)
    requires Inv(s) && t < |s.pcs|
    ensures ThreadInv(s.pcs[t], s.contexts[t], s.fc.clients[t], s.fc.slots[t], s.updates)
    ensures FC.ClientInv(s.fc, t) && FC.SlotInv(s.fc, t)
    ensures HasRid(s.pcs[t]) ==> forall u: nat | u < |s.pcs| && u != t && HasRid(s.pcs[u]) ::
      s.pcs[u].rid != s.pcs[t].rid
  {
  }

  // ----- nobody is ever refused

  /** Whoever is to act finds the permission in hand, the slot as expected, and a response where one is taken:
      no unwrapping of a missing permission or response can fail. */
  lemma NeverRefused<Op, Resp>(s: State<Op, Resp>, t: nat)
    requires Inv(s) && t < |s.pcs|
    ensures OneHolder(s.contexts[t])
    ensures s.pcs[t].Ready? ==> s.contexts[t].clientHas && s.contexts[t].cell == None
    ensures s.pcs[t].Filled? ==> s.contexts[t].clientHas && Enabled(s, StoreOne(t))
    ensures s.pcs[t].Await? ==> Enabled(s, LoadWord(t)) && (s.contexts[t].word == 0 ==> s.contexts[t].slotHas)
    ensures s.pcs[t].Ready? ==> forall op: Op, rid: FC.ReqId | rid !in s.updates :: Enabled(s, Put(t, op, rid))
    ensures s.pcs[t].Taking? ==>
      Enabled(s, Take(t)) && s.contexts[t].clientHas && s.contexts[t].cell.Some? && s.contexts[t].cell.value.resp.Some?
    ensures s.fc.combiner.Collecting? && FC.At(s.fc) == t ==>
      Enabled(s, Collect) && (s.contexts[t].word == 1 ==> s.contexts[t].slotHas)
    ensures s.fc.combiner.Responding? && FC.At(s.fc) == t && s.fc.combiner.reqs[t].Some? ==>
      s.contexts[t].combinerHas && (Enabled(s, Respond) || forall ret: Resp :: Enabled(s, Execute(t, ret)))
  {
    ThreadFacts(s, t);
  }

  /** The combiner always has an action to take; executing is one, with whatever result, while an answer is missing. */
  lemma CombinerActs<Op, Resp>(s: State<Op, Resp>, ret: Resp) returns (a: Action<Op, Resp>)
    requires Inv(s)
    ensures Enabled(s, a)
    ensures a.Collect? || a.StartResponding? || a == Execute(FC.At(s.fc), ret) || a.SkipEmpty? || a.Respond?
            || a.FinishPass?
    ensures s.fc.combiner.Responding? ==> !a.Collect? && !a.StartResponding?
  {
    var t := FC.At(s.fc);
    if t < |s.pcs| {
      ThreadFacts(s, t);
      NeverRefused(s, t);
      a := if s.fc.combiner.Collecting? then Collect
           else if s.fc.combiner.reqs[t].None? then SkipEmpty
           else if s.contexts[t].cell.value.resp.Some? then Respond else Execute(t, ret);
    } else {
      a := if s.fc.combiner.Collecting? then StartResponding else FinishPass;
    }
  }

  // ----- every action keeps the invariant

  lemma PutKeeps<Op, Resp>(s: State<Op, Resp>, t: nat, op: Op, rid: FC.ReqId)
    requires Inv(s) && Enabled(s, Put(t, op, rid))
    ensures Inv(Do(s, Put(t, op, rid)))
  {
  }

  lemma StoreOneKeeps<Op, Resp>(s: State<Op, Resp>, t: nat)
    requires Inv(s) && Enabled(s, StoreOne(t))
    ensures Inv(Do(s, StoreOne(t)))
  {
    ThreadFacts(s, t);
    FC.DoKeeps(s.fc, FC.SendRequest(t, s.pcs[t].rid));
    hide FC.Inv;
    OthersKept(s, Do(s, StoreOne(t)), t);
  }

  lemma LoadWordKeeps<Op, Resp>(s: State<Op, Resp>, t: nat)
    requires Inv(s) && Enabled(s, LoadWord(t))
    ensures Inv(Do(s, LoadWord(t)))
  {
    if s.contexts[t].word == 0 {
      ThreadFacts(s, t);
      FC.DoKeeps(s.fc, FC.RecvResponse(t, s.pcs[t].rid));
      hide FC.Inv;
      OthersKept(s, Do(s, LoadWord(t)), t);
    }
  }

  lemma TakeKeeps<Op, Resp>(s: State<Op, Resp>, t: nat)
    requires Inv(s) && Enabled(s, Take(t))
    ensures Inv(Do(s, Take(t)))
  {
  }

  lemma CollectKeeps<Op, Resp>(s: State<Op, Resp>)
    requires Inv(s) && Enabled(s, Collect)
    ensures Inv(Do(s, Collect))
  {
    var t := FC.At(s.fc);
    ThreadFacts(s, t);
    FC.DoKeeps(s.fc, CollectStep(s));
    hide FC.Inv;
    OthersKept(s, Do(s, Collect), t);
  }

  lemma ExecuteKeeps<Op, Resp>(s: State<Op, Resp>, t: nat, ret: Resp)
    requires Inv(s) && Enabled(s, Execute(t, ret))
    ensures Inv(Do(s, Execute(t, ret)))
  {
    ThreadFacts(s, t);
    hide FC.Inv;
    OthersKept(s, Do(s, Execute(t, ret)), t);
  }

  lemma RespondKeeps<Op, Resp>(s: State<Op, Resp>)
    requires Inv(s) && Enabled(s, Respond)
    ensures Inv(Do(s, Respond))
  {
    var t := FC.At(s.fc);
    ThreadFacts(s, t);
    FC.DoKeeps(s.fc, FC.RespondingResult);
    hide FC.Inv;
    OthersKept(s, Do(s, Respond), t);
  }

  /** The combiner's bookkeeping steps touch no slot. */
  lemma BookkeepingKeeps<Op, Resp>(s: State<Op, Resp>, step: FC.Step)
    requires Inv(s) && FC.Enabled(s.fc, step)
    requires step == FC.RespondingStart || step == FC.RespondingEmpty || step == FC.RespondingDone
    ensures Inv(s.(fc := FC.Do(s.fc, step)))
  {
    FC.DoKeeps(s.fc, step);
    hide FC.Inv, ThreadInv;
  }

  lemma DoKeeps<Op, Resp>(s: State<Op, Resp>, a: Action<Op, Resp>)
    requires Inv(s) && Enabled(s, a)
    ensures Inv(Do(s, a))
  {
    hide Inv;
    match a
    case Put(t, op, rid) => PutKeeps(s, t, op, rid);
    case StoreOne(t) => StoreOneKeeps(s, t);
    case LoadWord(t) => LoadWordKeeps(s, t);
    case Take(t) => TakeKeeps(s, t);
    case Collect => CollectKeeps(s);
    case StartResponding => BookkeepingKeeps(s, FC.RespondingStart);
    case Execute(t, ret) => ExecuteKeeps(s, t, ret);
    case SkipEmpty => BookkeepingKeeps(s, FC.RespondingEmpty);
    case Respond => RespondKeeps(s);
    case FinishPass => BookkeepingKeeps(s, FC.RespondingDone);
  }

  /** Every action is a step of the flat combiner, or invisible to it. */
  lemma RefinesFlatCombiner<Op, Resp>(s: State<Op, Resp>, a: Action<Op, Resp>)
    requires Inv(s) && Enabled(s, a)
    ensures Do(s, a).fc == s.fc || exists step: FC.Step :: FC.Enabled(s.fc, step) && Do(s, a).fc == FC.Do(s.fc, step)
  {
  }

  // ----- runs

  ghost predicate Run<Op, Resp>(states: seq<State<Op, Resp>>, actions: seq<Action<Op, Resp>>) {
    && |states| == |actions| + 1
    && Init(states[0])
    && forall i: nat | i < |actions| :: Enabled(states[i], actions[i]) && states[i + 1] == Do(states[i], actions[i])
  }

  lemma SameThreads<Op, Resp>(s: State<Op, Resp>, a: Action<Op, Resp>)
    requires Enabled(s, a)
    ensures |Do(s, a).pcs| == |s.pcs|
  {
  }

  lemma {:induction false} RunInv<Op, Resp>(states: seq<State<Op, Resp>>, actions: seq<Action<Op, Resp>>, k: nat)
    requires Run(states, actions) && k < |states|
    ensures Inv(states[k]) && |states[k].pcs| == |states[0].pcs|
  {
    if k == 0 {
      InitInv(states[0]);
    } else {
      RunInv(states, actions, k - 1);
      assert states[k - 1 + 1] == Do(states[k - 1], actions[k - 1]) && Enabled(states[k - 1], actions[k - 1]);
      SameThreads(states[k - 1], actions[k - 1]);
      hide *;
      DoKeeps(states[k - 1], actions[k - 1]);
    }
  }

  /** Between putting an operation and putting the next, whatever the thread is doing is about that operation. */
  lemma {:induction false} SincePut<Op, Resp>(states: seq<State<Op, Resp>>, actions: seq<Action<Op, Resp>>, i: nat,
      k: nat, t: nat, op: Op, rid: FC.ReqId)
    requires Run(states, actions) && i < k <= |actions| && actions[i] == Put(t, op, rid)
    requires forall j: nat | i < j < k :: !(actions[j].Put? && actions[j].tid == t)
    ensures t < |states[k].pcs|
    ensures HasRid(states[k].pcs[t]) ==> states[k].pcs[t].op == op && states[k].pcs[t].rid == rid
    decreases k
  {
    assert states[k - 1 + 1] == Do(states[k - 1], actions[k - 1]) && Enabled(states[k - 1], actions[k - 1]);
    if i + 1 < k {
      SincePut(states, actions, i, k - 1, t, op, rid);
      hide Run;
    }
  }

  /** How often the combiner executed request rid in the first k actions. */
  function Executed<Op, Resp>(states: seq<State<Op, Resp>>, actions: seq<Action<Op, Resp>>, k: nat, rid: FC.ReqId): nat
    requires k <= |actions| < |states|
  {
    if k == 0 then 0
    else Executed(states, actions, k - 1, rid) + if Executes(states[k - 1], actions[k - 1], rid) then 1 else 0
  }

  predicate Executes<Op, Resp>(s: State<Op, Resp>, a: Action<Op, Resp>, rid: FC.ReqId) {
    a.Execute? && a.tid < |s.fc.slots| && s.fc.slots[a.tid] == FC.InProgress(rid)
  }

  lemma {:induction false} ExecutedOnce<Op, Resp>(states: seq<State<Op, Resp>>, actions: seq<Action<Op, Resp>>,
      k: nat, rid: FC.ReqId)
    requires Run(states, actions) && k <= |actions|
    ensures Executed(states, actions, k, rid)
         == if rid in states[k].updates && states[k].updates[rid].Done? then 1 else 0
  {
    if k > 0 {
      ExecutedOnce(states, actions, k - 1, rid);
      assert states[k - 1 + 1] == Do(states[k - 1], actions[k - 1]) && Enabled(states[k - 1], actions[k - 1]);
    }
  }

  /** The response that a thread takes is the result of the operation that it put, which was executed exactly once;
      a look at the word that does not find 0 takes nothing. */
  lemma DequeuesOwnResponse<Op, Resp>(states: seq<State<Op, Resp>>, actions: seq<Action<Op, Resp>>, i: nat,
      k: nat, t: nat, op: Op, rid: FC.ReqId)
    requires Run(states, actions) && i < k < |actions| && actions[i] == Put(t, op, rid) && actions[k] == Take(t)
    requires forall j: nat | i < j < k :: !(actions[j].Put? && actions[j].tid == t)
    ensures t < |states[k].contexts| && states[k].contexts[t].cell.Some? && states[k].contexts[t].cell.value.resp.Some?
    ensures rid in states[k].updates && states[k].updates[rid] == Done(op, states[k].contexts[t].cell.value.resp.value)
    ensures Executed(states, actions, k, rid) == 1
  {
    SincePut(states, actions, i, k, t, op, rid);
    RunInv(states, actions, k);
    ExecutedOnce(states, actions, k, rid);
    assert Enabled(states[k], actions[k]);
    ThreadFacts(states[k], t);
    hide Inv, Run, Executed;
  }

  // ----- every operation is executed by the end of the next pass

  /** The look at the word that finds the response. */
  predicate Receives<Op, Resp>(s: State<Op, Resp>, a: Action<Op, Resp>, t: nat) {
    a.LoadWord? && a.tid == t && t < |s.contexts| && s.contexts[t].word == 0
  }

  /** Thread t waits for rid, which is answered, or will be in this pass if it was pending when the pass began. */
  ghost predicate InGoodHands<Op, Resp>(s: State<Op, Resp>, t: nat, op: Op, rid: FC.ReqId) {
    && t < |s.pcs| && t < |s.fc.slots| && s.pcs[t] == Await(op, rid)
    && (|| s.fc.slots[t] == FC.Response(rid)
        || (FC.OnItsWay(s.fc, t, rid) && !FC.Passed(s.fc.combiner, t)))
  }

  lemma StaysInGoodHands<Op, Resp>(s: State<Op, Resp>, a: Action<Op, Resp>, t: nat, op: Op, rid: FC.ReqId)
    requires Inv(s) && Enabled(s, a) && InGoodHands(s, t, op, rid) && !a.FinishPass? && !Receives(s, a, t)
    ensures InGoodHands(Do(s, a), t, op, rid)
  {
    ThreadFacts(s, t);
    StepFacts(s, a, t);
    var step := FcStep(s, a);
    hide Inv, Enabled, Do, ThreadInv, FC.Inv, FC.Enabled, FC.Do, FcStep;
    if step.Some? && s.fc.slots[t] != FC.Response(rid) {
      FC.StaysOnItsWay(s.fc, step.value, t, rid);
    }
  }

  /** The flat combiner's step that an action is. */
  function FcStep<Op, Resp>(s: State<Op, Resp>, a: Action<Op, Resp>): Option<FC.Step> {
    match a
    case StoreOne(t) => if t < |s.pcs| && s.pcs[t].Filled? then Some(FC.SendRequest(t, s.pcs[t].rid)) else None
    case LoadWord(t) =>
      if t < |s.pcs| && t < |s.contexts| && s.pcs[t].Await? && s.contexts[t].word == 0
      then Some(FC.RecvResponse(t, s.pcs[t].rid)) else None
    case Collect => if FC.At(s.fc) < |s.contexts| then Some(CollectStep(s)) else None
    case StartResponding => Some(FC.RespondingStart)
    case SkipEmpty => Some(FC.RespondingEmpty)
    case Respond => Some(FC.RespondingResult)
    case FinishPass => Some(FC.RespondingDone)
    case _ => None
  }

  /** What an action does to the flat combiner's state, and to a thread that waits. */
  lemma StepFacts<Op, Resp>(s: State<Op, Resp>, a: Action<Op, Resp>, t: nat)
    requires Inv(s) && Enabled(s, a) && t < |s.pcs|
    ensures FC.Inv(s.fc) && |s.fc.slots| == |s.pcs| == |Do(s, a).pcs| == |Do(s, a).fc.slots|
    ensures FcStep(s, a).None? ==> Do(s, a).fc == s.fc
    ensures FcStep(s, a).Some? ==>
      FC.Enabled(s.fc, FcStep(s, a).value) && Do(s, a).fc == FC.Do(s.fc, FcStep(s, a).value)
    ensures FcStep(s, a) == Some(FC.RespondingDone) <==> a.FinishPass?
    ensures s.pcs[t].Await? && !Receives(s, a, t) ==> Do(s, a).pcs[t] == s.pcs[t]
    ensures s.pcs[t].Await? && !Receives(s, a, t) && s.fc.slots[t].Response? ==>
      Do(s, a).fc.slots[t] == s.fc.slots[t]
  {
    ThreadFacts(s, t);
    hide ThreadInv;
  }

  lemma StepOf<Op, Resp>(states: seq<State<Op, Resp>>, actions: seq<Action<Op, Resp>>, k: nat)
    requires Run(states, actions) && 0 < k <= |actions|
    ensures |states| == |actions| + 1 && Inv(states[k - 1]) && Enabled(states[k - 1], actions[k - 1])
    ensures states[k] == Do(states[k - 1], actions[k - 1])
  {
    RunInv(states, actions, k - 1);
    assert states[k - 1 + 1] == Do(states[k - 1], actions[k - 1]);
    hide Do, Enabled, Inv;
  }

  /** From the store that sets the word on, until the response is found, the thread waits for its operation. */
  lemma {:induction false} SinceStore<Op, Resp>(states: seq<State<Op, Resp>>, actions: seq<Action<Op, Resp>>, i: nat,
      k: nat, t: nat)
    requires Run(states, actions) && i < k <= |actions| && actions[i] == StoreOne(t)
    requires forall j: nat | i < j < k :: !Receives(states[j], actions[j], t)
    ensures t < |states[i].pcs| && states[i].pcs[t].Filled? && t < |states[k].pcs|
    ensures states[k].pcs[t] == Await(states[i].pcs[t].op, states[i].pcs[t].rid)
    decreases k
  {
    hide *;
    StepOf(states, actions, k);
    if i + 1 < k {
      SinceStore(states, actions, i, k - 1, t);
      assert !Receives(states[k - 1], actions[k - 1], t);
      StepFacts(states[k - 1], actions[k - 1], t);
    } else {
      StoreWaits(states[i], t);
    }
  }

  lemma StoreWaits<Op, Resp>(s: State<Op, Resp>, t: nat)
    requires Enabled(s, StoreOne(t))
    ensures t < |s.pcs| && s.pcs[t].Filled? && t < |Do(s, StoreOne(t)).pcs|
    ensures Do(s, StoreOne(t)).pcs[t] == Await(s.pcs[t].op, s.pcs[t].rid)
  {
  }

  /** A request that waits between two passes is pending or answered. */
  lemma BetweenPasses<Op, Resp>(s: State<Op, Resp>, t: nat, op: Op, rid: FC.ReqId)
    requires Inv(s) && t < |s.pcs| && s.pcs[t] == Await(op, rid) && s.fc.combiner == FC.Collecting([])
    ensures InGoodHands(s, t, op, rid)
  {
    ThreadFacts(s, t);
  }

  lemma {:induction false} GoodHandsInPass<Op, Resp>(states: seq<State<Op, Resp>>, actions: seq<Action<Op, Resp>>,
      i: nat, k: nat, t: nat, op: Op, rid: FC.ReqId)
    requires Run(states, actions) && i <= k <= |actions| && InGoodHands(states[i], t, op, rid)
    requires forall j: nat | i <= j < k :: !actions[j].FinishPass? && !Receives(states[j], actions[j], t)
    ensures InGoodHands(states[k], t, op, rid)
    decreases k
  {
    hide *;
    if i < k {
      StepOf(states, actions, k);
      GoodHandsInPass(states, actions, i, k - 1, t, op, rid);
      assert !actions[k - 1].FinishPass? && !Receives(states[k - 1], actions[k - 1], t);
      StaysInGoodHands(states[k - 1], actions[k - 1], t, op, rid);
    }
  }

  /** Once executed, a request keeps its result. */
  lemma {:induction false} DoneStays<Op, Resp>(states: seq<State<Op, Resp>>, actions: seq<Action<Op, Resp>>, i: nat,
      k: nat, rid: FC.ReqId)
    requires Run(states, actions) && i <= k <= |actions|
    requires rid in states[i].updates && states[i].updates[rid].Done?
    ensures rid in states[k].updates && states[k].updates[rid] == states[i].updates[rid]
    decreases k
  {
    if i < k {
      DoneStays(states, actions, i, k - 1, rid);
      assert states[k - 1 + 1] == Do(states[k - 1], actions[k - 1]) && Enabled(states[k - 1], actions[k - 1]);
    }
  }

  /** Whoever waits with the word at 0 finds the result of its operation in the cell. */
  lemma AnsweredFacts<Op, Resp>(s: State<Op, Resp>, t: nat, op: Op, rid: FC.ReqId)
    requires Inv(s) && t < |s.pcs| && s.pcs[t] == Await(op, rid)
    ensures t < |s.contexts| && t < |s.fc.slots| && rid in s.updates
    ensures s.contexts[t].word == 0 <==> s.fc.slots[t] == FC.Response(rid)
    ensures s.contexts[t].word == 0 ==>
      && s.updates[rid].Done? && s.updates[rid].op == op
      && s.contexts[t].cell == Some(Pending(op, Some(s.updates[rid].ret)))
  {
    ThreadFacts(s, t);
  }

  lemma NotYetExecuted<Op, Resp>(states: seq<State<Op, Resp>>, actions: seq<Action<Op, Resp>>, i: nat, t: nat)
    requires Run(states, actions) && i < |actions| && actions[i] == StoreOne(t)
    ensures t < |states[i].pcs| && states[i].pcs[t].Filled?
    ensures Executed(states, actions, i, states[i].pcs[t].rid) == 0
  {
    RunInv(states, actions, i);
    assert Enabled(states[i], actions[i]);
    ThreadFacts(states[i], t);
    ExecutedOnce(states, actions, i, states[i].pcs[t].rid);
    hide Inv, Run, Executed;
  }

  lemma ExecutedByNow<Op, Resp>(states: seq<State<Op, Resp>>, actions: seq<Action<Op, Resp>>, j: nat, k: nat, t: nat,
      op: Op, rid: FC.ReqId)
    requires Run(states, actions) && j <= k <= |actions| && t < |states[j].pcs| && states[j].pcs[t] == Await(op, rid)
    requires t < |states[j].contexts| && states[j].contexts[t].word == 0
    ensures rid in states[k].updates && states[k].updates[rid].Done? && states[k].updates[rid].op == op
    ensures Executed(states, actions, k, rid) == 1
  {
    RunInv(states, actions, j);
    AnsweredFacts(states[j], t, op, rid);
    hide Inv, Run, Executed;
    DoneStays(states, actions, j, k, rid);
    ExecutedOnce(states, actions, k, rid);
  }

  /** An operation whose word is set before a pass begins is executed exactly once by the end of that pass: its thread
      has found the response, or the word is 0 and the result is in the cell. */
  lemma ServedByNextPass<Op, Resp>(states: seq<State<Op, Resp>>, actions: seq<Action<Op, Resp>>, q: nat, i: nat,
      k: nat, t: nat)
    requires Run(states, actions) && q < i <= k <= |actions| && actions[q] == StoreOne(t)
    requires states[i].fc.combiner == FC.Collecting([])
    requires states[k].fc.combiner.Responding? && states[k].fc.combiner.idx == |states[k].fc.clients|
    requires forall j: nat | i <= j < k :: !actions[j].FinishPass?
    ensures t < |states[q].pcs| && states[q].pcs[t].Filled? && t < |states[k].contexts| && t < |states[k].pcs|
    ensures
      var op, rid := states[q].pcs[t].op, states[q].pcs[t].rid;
      && Executed(states, actions, q, rid) == 0 && Executed(states, actions, k, rid) == 1
      && rid in states[k].updates && states[k].updates[rid].Done? && states[k].updates[rid].op == op
      && (|| (exists j: nat :: q < j < k && Receives(states[j], actions[j], t))
          || (&& states[k].pcs[t] == Await(op, rid) && states[k].contexts[t].word == 0
              && states[k].contexts[t].cell == Some(Pending(op, Some(states[k].updates[rid].ret)))))
  {
    NotYetExecuted(states, actions, q, t);
    RunInv(states, actions, q);
    RunInv(states, actions, k);
    SameSizes(states, actions, q, k);
    var op, rid := states[q].pcs[t].op, states[q].pcs[t].rid;
    hide *;
    if j: nat :| q < j < k && Receives(states[j], actions[j], t) && forall l: nat | q < l < j ::
        !Receives(states[l], actions[l], t) {
      SinceStore(states, actions, q, j, t);
      ReceivesAt(states[j], actions[j], t);
      ExecutedByNow(states, actions, j, k, t, op, rid);
    } else {
      NoFirst(states, actions, q, k, t);
      SinceStore(states, actions, q, i, t);
      RunInv(states, actions, i);
      BetweenPasses(states[i], t, op, rid);
      GoodHandsInPass(states, actions, i, k, t, op, rid);
      EndOfPass(states[k], t, op, rid);
      ExecutedByNow(states, actions, k, k, t, op, rid);
    }
  }

  lemma ReceivesAt<Op, Resp>(s: State<Op, Resp>, a: Action<Op, Resp>, t: nat)
    requires Receives(s, a, t)
    ensures t < |s.contexts| && s.contexts[t].word == 0
  {
  }

  lemma SameSizes<Op, Resp>(states: seq<State<Op, Resp>>, actions: seq<Action<Op, Resp>>, q: nat, k: nat)
    requires Run(states, actions) && q < |states| && k < |states|
    ensures |states[k].pcs| == |states[q].pcs| == |states[k].contexts|
  {
    RunInv(states, actions, q);
    RunInv(states, actions, k);
    hide Run, FC.Inv, ThreadInv;
  }

  /** If the response is found at all, it is found for a first time. */
  lemma {:induction false} NoFirst<Op, Resp>(states: seq<State<Op, Resp>>, actions: seq<Action<Op, Resp>>, q: nat,
      k: nat, t: nat)
    requires k <= |actions| < |states|
    requires forall j: nat | q < j < k && Receives(states[j], actions[j], t) ::
      exists l: nat :: q < l < j && Receives(states[l], actions[l], t)
    ensures forall j: nat | q < j < k :: !Receives(states[j], actions[j], t)
  {
    if 0 < k {
      NoFirst(states, actions, q, k - 1, t);
    }
  }

  /** When a pass has gone through all threads, whoever was in good hands is answered. */
  lemma EndOfPass<Op, Resp>(s: State<Op, Resp>, t: nat, op: Op, rid: FC.ReqId)
    requires Inv(s) && InGoodHands(s, t, op, rid)
    requires s.fc.combiner.Responding? && s.fc.combiner.idx == |s.fc.clients|
    ensures t < |s.contexts| && s.contexts[t].word == 0 && rid in s.updates && s.updates[rid].Done?
    ensures s.contexts[t].cell == Some(Pending(op, Some(s.updates[rid].ret)))
  {
    AnsweredFacts(s, t, op, rid);
    hide ThreadInv;
  }

  /** In every reachable state the cell of each thread has exactly one user, and the word tells what the slot is
      doing. */
  lemma OneUser<Op, Resp>(states: seq<State<Op, Resp>>, actions: seq<Action<Op, Resp>>, k: nat, t: nat)
    requires Run(states, actions) && k < |states| && t < |states[k].pcs|
    ensures
      var s := states[k];
      && t < |s.contexts| && t < |s.fc.slots|
      && OneHolder(s.contexts[t])
      && (s.contexts[t].word == 0 <==> s.fc.slots[t].Empty? || s.fc.slots[t].Response?)
      && (s.contexts[t].word == 1 <==> s.fc.slots[t].Request? || s.fc.slots[t].InProgress?)
  {
    RunInv(states, actions, k);
    ThreadFacts(states[k], t);
    hide Inv, Run;
  }

  // ----- the contexts in memory

  class Contexts<Op, Resp> {
    var words: seq<nat>
    var cells: seq<Option<Pending<Op, Resp>>>
    ghost var state: State<Op, Resp>

    /** The words and cells in memory are those of a state that the protocol can be in. */
    ghost predicate Valid()
      reads this
    {
      && Inv(state)
      && |words| == |cells| == |state.contexts|
      && (forall t: nat | t < |words| :: words[t] == state.contexts[t].word && cells[t] == state.contexts[t].cell)
    }

    constructor (threads: nat)
      ensures Valid() && Init(state) && |words| == threads
    {
      words := seq(threads, (_: nat) => 0);
      cells := seq(threads, (_: nat) => None);
      var fc := FC.State(seq(threads, (_: nat) => FC.Idle), seq(threads, (_: nat) => FC.Empty), FC.Collecting([]));
      state := State(fc, seq(threads, (_: nat) => Ready),
          seq(threads, (_: nat) => Context(0, None, true, false, false)), map[]);
      new;
      InitInv(state);
    }

    /** enqueue_op, first action: the operation goes into the cell. */
    method EnqueuePut(t: nat, op: Op, ghost rid: FC.ReqId)
      requires Valid() && Enabled(state, Put(t, op, rid))
      modifies this
      ensures Valid() && state == Do(old(state), Put(t, op, rid))
      ensures words == old(words) && t < |old(cells)| && cells == old(cells)[t := Some(Pending(op, None))]
    {
      PutKeeps(state, t, op, rid);
      hide Inv;
      cells := cells[t := Some(Pending(op, None))];
      state := Do(state, Put(t, op, rid));
    }

    /** enqueue_op, second action: the word tells the combiner. */
    method EnqueueStore(t: nat) returns (enqueued: bool)
      requires Valid() && t < |words| && |state.pcs| == |words| && state.pcs[t].Filled?
      modifies this
      ensures Valid() && Enabled(old(state), StoreOne(t)) && state == Do(old(state), StoreOne(t)) && enqueued
      ensures words == old(words)[t := 1] && cells == old(cells)
    {
      NeverRefused(state, t);
      StoreOneKeeps(state, t);
      hide Inv;
      words := words[t := 1];
      state := Do(state, StoreOne(t));
      enqueued := true;
    }

    /** dequeue_response: nothing while the word is set, and else the response to the operation that the thread put. */
    method DequeueResponse(t: nat) returns (r: Option<Resp>)
      requires Valid() && t < |words| && |state.pcs| == |words| && state.pcs[t].Await?
      modifies this
      ensures Valid() && |state.pcs| == |old(state).pcs| && |words| == |cells| == |old(words)| == |old(cells)|
      ensures r.None? <==> old(words[t]) == 1
      ensures r.None? ==> state == old(state) && words == old(words) && cells == old(cells)
      ensures r.Some? ==>
        var op, rid := old(state).pcs[t].op, old(state).pcs[t].rid;
        && state.pcs[t] == Ready && rid in state.updates && state.updates[rid] == Done(op, r.value)
        && old(cells[t]) == Some(Pending(op, r)) && words == old(words) && cells == old(cells)[t := None]
    {
      NeverRefused(state, t);
      ThreadFacts(state, t);
      LoadWordKeeps(state, t);
      if words[t] != 0 {
        return None;
      }
      ghost var loaded := Do(state, LoadWord(t));
      NeverRefused(loaded, t);
      ThreadFacts(loaded, t);
      TakeKeeps(loaded, t);
      hide Inv;
      r := cells[t].value.resp;
      cells := cells[t := None];
      state := Do(loaded, Take(t));
    }
  }
}
