/** Flat combining: clients post requests in slots, and one combiner collects and answers them in passes. */
module FlatCombiner {
  import opened Definitions

  type ReqId = nat

  datatype ClientState = Idle | Waiting(rid: ReqId)

  datatype SlotState = Empty | Request(rid: ReqId) | InProgress(rid: ReqId) | Response(rid: ReqId)

  datatype Combiner =
    | Collecting(reqs: seq<Option<ReqId>>)
    | Responding(reqs: seq<Option<ReqId>>, idx: nat)

  /** Threads are 0 to |clients| - 1. */
  datatype State = State(clients: seq<ClientState>, slots: seq<SlotState>, combiner: Combiner)

  datatype Step =
    | CollectEmpty | CollectRequest
    | RespondingStart | RespondingEmpty | RespondingResult | RespondingDone
    | SendRequest(tid: nat, rid: ReqId)
    | RecvResponse(tid: nat, rid: ReqId)

  predicate Init(s: State) {
    && |s.slots| == |s.clients|
    && (forall t: nat | t < |s.clients| :: s.clients[t] == Idle && s.slots[t] == Empty)
    && s.combiner == Collecting([])
  }

  /** The thread whose slot the combiner looks at next. */
  function At(s: State): nat {
    if s.combiner.Collecting? then |s.combiner.reqs| else s.combiner.idx
  }

  predicate Enabled(s: State, step: Step) {
    match step
    case CollectEmpty =>
      s.combiner.Collecting? && At(s) < |s.slots| && (s.slots[At(s)].Empty? || s.slots[At(s)].Response?)
    case CollectRequest => s.combiner.Collecting? && At(s) < |s.slots| && s.slots[At(s)].Request?
    case RespondingStart => s.combiner.Collecting? && |s.combiner.reqs| == |s.clients|
    case RespondingEmpty =>
      s.combiner.Responding? && At(s) < |s.clients| && At(s) < |s.combiner.reqs| && s.combiner.reqs[At(s)].None?
    case RespondingResult =>
      && s.combiner.Responding? && At(s) < |s.clients| && At(s) < |s.combiner.reqs| && s.combiner.reqs[At(s)].Some?
      && At(s) < |s.slots| && s.slots[At(s)].InProgress?
    case RespondingDone => s.combiner.Responding? && s.combiner.idx == |s.clients|
    case SendRequest(t, _) => t < |s.clients| && t < |s.slots| && s.clients[t].Idle? && s.slots[t].Empty?
    case RecvResponse(t, rid) =>
      t < |s.clients| && t < |s.slots| && s.clients[t] == Waiting(rid) && s.slots[t] == Response(rid)
  }

  function Do(s: State, step: Step): State
    requires Enabled(s, step)
  {
    match step
    case CollectEmpty => s.(combiner := Collecting(s.combiner.reqs + [None]))
    case CollectRequest =>
      var rid := s.slots[At(s)].rid;
      s.(slots := s.slots[At(s) := InProgress(rid)], combiner := Collecting(s.combiner.reqs + [Some(rid)]))
    case RespondingStart => s.(combiner := Responding(s.combiner.reqs, 0))
    case RespondingEmpty => s.(combiner := Responding(s.combiner.reqs, s.combiner.idx + 1))
    case RespondingResult =>
      s.(slots := s.slots[At(s) := Response(s.slots[At(s)].rid)],
          combiner := Responding(s.combiner.reqs, s.combiner.idx + 1))
    case RespondingDone => s.(combiner := Collecting([]))
    case SendRequest(t, rid) => s.(clients := s.clients[t := Waiting(rid)], slots := s.slots[t := Request(rid)])
    case RecvResponse(t, _) => s.(clients := s.clients[t := Idle], slots := s.slots[t := Empty])
  }

  // ----- the invariant

  /** What thread t's slot and client agree on. */
  predicate ClientInv(s: State, t: nat)
    requires t < |s.clients| && t < |s.slots|
  {
    && (s.clients[t].Idle? <==> s.slots[t].Empty?)
    && (s.clients[t].Waiting? ==> s.slots[t] != Empty && s.slots[t].rid == s.clients[t].rid)
  }

  /** Thread t's request as the combiner remembers it: collected in this pass, and not answered yet. */
  function Taken(c: Combiner, t: nat): Option<ReqId> {
    match c
    case Collecting(reqs) => if t < |reqs| then reqs[t] else None
    case Responding(reqs, idx) => if idx <= t < |reqs| then reqs[t] else None
  }

  /** A slot is in progress exactly if the combiner has its request and still owes the answer. */
  predicate SlotInv(s: State, t: nat)
    requires t < |s.slots|
  {
    match Taken(s.combiner, t)
    case None => !s.slots[t].InProgress?
    case Some(rid) => s.slots[t] == InProgress(rid)
  }

  predicate Inv(s: State) {
    && |s.slots| == |s.clients|
    && (match s.combiner
        case Collecting(reqs) => |reqs| <= |s.clients|
        case Responding(reqs, idx) => |reqs| == |s.clients| && idx <= |reqs|)
    && (forall t: nat | t < |s.clients| :: ClientInv(s, t))
    && (forall t: nat | t < |s.slots| :: SlotInv(s, t))
  }

  lemma InitInv(s: State)
    requires Init(s)
    ensures Inv(s)
  {
  }

  lemma DoKeeps(s: State, step: Step)
    requires Inv(s) && Enabled(s, step)
    ensures Inv(Do(s, step))
  {
    var s' := Do(s, step);
    forall t: nat | t < |s'.clients| ensures ClientInv(s', t) && SlotInv(s', t) {
      assert ClientInv(s, t) && SlotInv(s, t);
    }
  }

  /** The conditions that the protocol asserts: what the combiner finds when it collects and responds,
      and what a client finds when it sends and receives. */
  lemma Asserted(s: State, t: nat)
    requires Inv(s) && t < |s.clients|
    ensures s.combiner.Collecting? && t == At(s) ==> !s.slots[t].InProgress?
    ensures s.combiner.Responding? && t == At(s) && s.combiner.reqs[t].Some? ==>
      s.slots[t] == InProgress(s.combiner.reqs[t].value)
    ensures s.clients[t].Idle? ==> s.slots[t].Empty?
    ensures s.clients[t].Waiting? ==> s.slots[t] != Empty && s.slots[t].rid == s.clients[t].rid
  {
    assert ClientInv(s, t) && SlotInv(s, t);
  }

  /** In every state the combiner has exactly one step that it can take. */
  lemma CombinerNeverStuck(s: State) returns (step: Step)
    requires Inv(s)
    ensures Enabled(s, step) && !step.SendRequest? && !step.RecvResponse?
    ensures s.combiner.Collecting? && At(s) < |s.slots| && s.slots[At(s)].Request? ==> step == CollectRequest
    ensures forall other: Step | Enabled(s, other) && !other.SendRequest? && !other.RecvResponse? :: other == step
  {
    if At(s) < |s.slots| {
      assert SlotInv(s, At(s));
    }
    match s.combiner
    case Collecting(reqs) =>
      step := if |reqs| == |s.clients| then RespondingStart
              else if s.slots[|reqs|].Request? then CollectRequest else CollectEmpty;
    case Responding(reqs, idx) =>
      step := if idx == |reqs| then RespondingDone
              else if reqs[idx].Some? then RespondingResult else RespondingEmpty;
  }

  /** A client that is idle can send, and one whose response is there can receive it. */
  lemma ClientsCanAct(s: State, t: nat, rid: ReqId)
    requires Inv(s) && t < |s.clients|
    ensures s.clients[t].Idle? ==> Enabled(s, SendRequest(t, rid))
    ensures s.slots[t].Response? ==> Enabled(s, RecvResponse(t, s.slots[t].rid))
  {
    assert ClientInv(s, t);
  }

  /** A slot only moves one place along Empty, Request, InProgress, Response, Empty, and its id stays. */
  predicate Cycles(before: SlotState, after: SlotState) {
    || after == before
    || (before.Empty? && after.Request?)
    || (before.Request? && after == InProgress(before.rid))
    || (before.InProgress? && after == Response(before.rid))
    || (before.Response? && after.Empty?)
  }

  lemma SlotsCycle(s: State, step: Step, t: nat)
    requires Inv(s) && Enabled(s, step) && t < |s.slots|
    ensures |Do(s, step).slots| == |s.slots| && Cycles(s.slots[t], Do(s, step).slots[t])
  {
  }

  // ----- runs

  /** `states` is visited by taking `steps`. */
  predicate Run(states: seq<State>, steps: seq<Step>) {
    && |states| == |steps| + 1
    && Init(states[0])
    && forall i: nat | i < |steps| :: Enabled(states[i], steps[i]) && states[i + 1] == Do(states[i], steps[i])
  }

  lemma {:induction false} RunInv(states: seq<State>, steps: seq<Step>, k: nat)
    requires Run(states, steps) && k < |states|
    ensures Inv(states[k]) && |states[k].clients| == |states[0].clients|
  {
    if k == 0 {
      InitInv(states[0]);
    } else {
      RunInv(states, steps, k - 1);
      DoKeeps(states[k - 1], steps[k - 1]);
      assert states[k - 1 + 1] == Do(states[k - 1], steps[k - 1]);
    }
  }

  predicate Collects(s: State, step: Step, t: nat, rid: ReqId) {
    step.CollectRequest? && Enabled(s, step) && At(s) == t && s.slots[t].rid == rid
  }

  predicate Responds(s: State, step: Step, t: nat, rid: ReqId) {
    step.RespondingResult? && Enabled(s, step) && At(s) == t && s.slots[t].rid == rid
  }

  /** How often, in the first k steps, the combiner collected request rid from thread t. */
  function Collected(states: seq<State>, steps: seq<Step>, k: nat, t: nat, rid: ReqId): nat
    requires k <= |steps| < |states|
  {
    if k == 0 then 0
    else Collected(states, steps, k - 1, t, rid) + if Collects(states[k - 1], steps[k - 1], t, rid) then 1 else 0
  }

  /** How often, in the first k steps, the combiner answered request rid of thread t. */
  function Responded(states: seq<State>, steps: seq<Step>, k: nat, t: nat, rid: ReqId): nat
    requires k <= |steps| < |states|
  {
    if k == 0 then 0
    else Responded(states, steps, k - 1, t, rid) + if Responds(states[k - 1], steps[k - 1], t, rid) then 1 else 0
  }

  lemma CountStep(states: seq<State>, steps: seq<Step>, k: nat, t: nat, rid: ReqId)
    requires 0 < k <= |steps| < |states|
    ensures Collected(states, steps, k, t, rid)
         == Collected(states, steps, k - 1, t, rid) + if Collects(states[k - 1], steps[k - 1], t, rid) then 1 else 0
    ensures Responded(states, steps, k, t, rid)
         == Responded(states, steps, k - 1, t, rid) + if Responds(states[k - 1], steps[k - 1], t, rid) then 1 else 0
  {
  }

  lemma {:induction false} OneOwed(states: seq<State>, steps: seq<Step>, k: nat, t: nat, rid: ReqId)
    requires Run(states, steps) && k <= |steps| && t < |states[0].clients|
    ensures |states[k].slots| == |states[0].clients|
    ensures Collected(states, steps, k, t, rid)
         == Responded(states, steps, k, t, rid) + if states[k].slots[t] == InProgress(rid) then 1 else 0
  {
    RunInv(states, steps, k);
    if k > 0 {
      OneOwed(states, steps, k - 1, t, rid);
      RunInv(states, steps, k - 1);
      var s, step := states[k - 1], steps[k - 1];
      assert states[k - 1 + 1] == Do(s, step);
      assert ClientInv(s, t) && SlotInv(s, t);
      hide Inv, Run;
    }
  }

  /** Between passes nothing is owed: a request is answered as often as it was collected,
      and an answer never comes before its request was collected. */
  lemma PassAnswersAll(states: seq<State>, steps: seq<Step>, i: nat, j: nat, t: nat, rid: ReqId)
    requires Run(states, steps) && i <= j <= |steps| && t < |states[0].clients|
    requires states[i].combiner == Collecting([]) && states[j].combiner == Collecting([])
    ensures Collected(states, steps, j, t, rid) - Collected(states, steps, i, t, rid)
         == Responded(states, steps, j, t, rid) - Responded(states, steps, i, t, rid)
    ensures forall k: nat | k <= |steps| ::
      Responded(states, steps, k, t, rid) <= Collected(states, steps, k, t, rid)
        <= Responded(states, steps, k, t, rid) + 1
  {
    OneOwed(states, steps, i, t, rid);
    OneOwed(states, steps, j, t, rid);
    RunInv(states, steps, i);
    RunInv(states, steps, j);
    assert SlotInv(states[i], t) && SlotInv(states[j], t);
    forall k: nat | k <= |steps|
      ensures Responded(states, steps, k, t, rid) <= Collected(states, steps, k, t, rid)
        <= Responded(states, steps, k, t, rid) + 1
    {
      OneOwed(states, steps, k, t, rid);
    }
  }

  function Reqs(c: Combiner): seq<Option<ReqId>> {
    c.reqs
  }

  /** The combiner got as far as thread t's answer in this pass. */
  predicate Passed(c: Combiner, t: nat) {
    c.Responding? && t < c.idx
  }

  predicate Has(c: Combiner, t: nat, rid: ReqId) {
    t < |Reqs(c)| && Reqs(c)[t] == Some(rid)
  }

  /** How one step within a pass changes what the combiner remembers of thread t, and what it counts for. */
  lemma PassStep(s: State, step: Step, t: nat, rid: ReqId)
    requires Inv(s) && Enabled(s, step) && t < |s.slots| && step != RespondingDone
    ensures
      var c, c' := s.combiner, Do(s, step).combiner;
      && (Collects(s, step, t, rid) <==> Has(c', t, rid) && !Has(c, t, rid))
      && (Has(c, t, rid) ==> Has(c', t, rid))
      && (Responds(s, step, t, rid) <==> Has(c', t, rid) && Passed(c', t) && !Passed(c, t))
      && (Passed(c, t) ==> Passed(c', t) && (Has(c', t, rid) ==> Has(c, t, rid)))
      && (Passed(c', t) ==> (Has(c', t, rid) ==> Has(c, t, rid)))
  {
    assert SlotInv(s, t);
  }

  lemma StepOf(states: seq<State>, steps: seq<Step>, k: nat)
    requires Run(states, steps) && 0 < k <= |steps|
    ensures |states| == |steps| + 1 && Inv(states[k - 1]) && Enabled(states[k - 1], steps[k - 1])
    ensures states[k] == Do(states[k - 1], steps[k - 1]) && |states[k - 1].slots| == |states[0].clients|
  {
    RunInv(states, steps, k - 1);
    assert states[k - 1 + 1] == Do(states[k - 1], steps[k - 1]);
    hide Do, Enabled;
  }

  /** Within one pass, thread t's request rid was collected once if the combiner remembers it and else not at all,
      and answered once if the combiner is past t and else not at all. */
  lemma {:induction false} WithinPass(states: seq<State>, steps: seq<Step>, i: nat, k: nat, t: nat, rid: ReqId)
    requires Run(states, steps) && i <= k <= |steps| && t < |states[0].clients|
    requires states[i].combiner == Collecting([])
    requires forall j: nat | i <= j < k :: steps[j] != RespondingDone
    ensures
      var c := states[k].combiner;
      && Collected(states, steps, k, t, rid) == Collected(states, steps, i, t, rid) + (if Has(c, t, rid) then 1 else 0)
      && Responded(states, steps, k, t, rid)
         == Responded(states, steps, i, t, rid) + (if Has(c, t, rid) && Passed(c, t) then 1 else 0)
    decreases k
  {
    if i < k {
      hide *;
      StepOf(states, steps, k);
      var s, step := states[k - 1], steps[k - 1];
      assert step != RespondingDone;
      CountStep(states, steps, k, t, rid);
      WithinPass(states, steps, i, k - 1, t, rid);
      PassStep(s, step, t, rid);
    } else {
      hide Run;
    }
  }

  /** When a pass has gone through all threads, every request it collected has been answered exactly once in it. */
  lemma PassAnswersEach(states: seq<State>, steps: seq<Step>, i: nat, k: nat, t: nat, rid: ReqId)
    requires Run(states, steps) && i <= k <= |steps| && t < |states[0].clients|
    requires states[i].combiner == Collecting([])
    requires states[k].combiner.Responding? && states[k].combiner.idx == |states[0].clients|
    requires forall j: nat | i <= j < k :: steps[j] != RespondingDone
    ensures
      var collected := Collected(states, steps, k, t, rid) - Collected(states, steps, i, t, rid);
      var answered := Responded(states, steps, k, t, rid) - Responded(states, steps, i, t, rid);
      collected == answered <= 1
  {
    WithinPass(states, steps, i, k, t, rid);
    hide Run;
  }

  // ----- every pending request is served

  /** Thread t's request, pending when the pass began: it waits until the combiner gets to it, then is remembered. */
  predicate OnItsWay(s: State, t: nat, rid: ReqId)
    requires t < |s.slots|
  {
    if t < |Reqs(s.combiner)| then Has(s.combiner, t, rid) else s.slots[t] == Request(rid)
  }

  lemma StaysOnItsWay(s: State, step: Step, t: nat, rid: ReqId)
    requires Inv(s) && Enabled(s, step) && t < |s.slots| && step != RespondingDone && OnItsWay(s, t, rid)
    ensures |Do(s, step).slots| == |s.slots| && OnItsWay(Do(s, step), t, rid)
    ensures Passed(s.combiner, t) ==> Passed(Do(s, step).combiner, t)
    ensures !Passed(s.combiner, t) && Passed(Do(s, step).combiner, t) ==> Do(s, step).slots[t] == Response(rid)
    ensures s.slots[t] == Response(rid) && step != RecvResponse(t, rid) ==> Do(s, step).slots[t] == Response(rid)
  {
    assert SlotInv(s, t) && ClientInv(s, t);
  }

  /** Until the combiner is past t the request is on its way; from then on it is answered, or has been received. */
  lemma {:induction false} PassKeeps(states: seq<State>, steps: seq<Step>, i: nat, k: nat, t: nat, rid: ReqId)
    requires Run(states, steps) && i <= k <= |steps| && t < |states[0].clients|
    requires states[i].combiner == Collecting([]) && t < |states[i].slots| && states[i].slots[t] == Request(rid)
    requires forall j: nat | i <= j < k :: steps[j] != RespondingDone
    ensures |states[k].slots| == |states[0].clients| && OnItsWay(states[k], t, rid)
    ensures Passed(states[k].combiner, t) ==>
      states[k].slots[t] == Response(rid) || exists j: nat :: i <= j < k && steps[j] == RecvResponse(t, rid)
    decreases k
  {
    if i < k {
      hide *;
      StepOf(states, steps, k);
      assert steps[k - 1] != RespondingDone;
      PassKeeps(states, steps, i, k - 1, t, rid);
      StaysOnItsWay(states[k - 1], steps[k - 1], t, rid);
    } else {
      RunInv(states, steps, i);
      hide Run;
    }
  }

  /** A request that is pending when a pass begins is collected and answered in it, once: by the end of the pass its
      slot holds the response, or the client has received it. */
  lemma PassServes(states: seq<State>, steps: seq<Step>, i: nat, k: nat, t: nat, rid: ReqId)
    requires Run(states, steps) && i <= k <= |steps| && t < |states[0].clients|
    requires states[i].combiner == Collecting([]) && t < |states[i].slots| && states[i].slots[t] == Request(rid)
    requires states[k].combiner.Responding? && states[k].combiner.idx == |states[0].clients|
    requires forall j: nat | i <= j < k :: steps[j] != RespondingDone
    ensures |states[k].slots| == |states[0].clients|
    ensures states[k].slots[t] == Response(rid) || exists j: nat :: i <= j < k && steps[j] == RecvResponse(t, rid)
    ensures Collected(states, steps, k, t, rid) == Collected(states, steps, i, t, rid) + 1
    ensures Responded(states, steps, k, t, rid) == Responded(states, steps, i, t, rid) + 1
  {
    RunInv(states, steps, k);
    assert Passed(states[k].combiner, t) && t < |Reqs(states[k].combiner)|;
    PassKeeps(states, steps, i, k, t, rid);
    assert Has(states[k].combiner, t, rid);
    hide Run, Inv, Collected, Responded;
    WithinPass(states, steps, i, k, t, rid);
  }

  /** How far the combiner is in its pass. */
  function Progress(s: State): nat {
    match s.combiner
    case Collecting(reqs) => |reqs|
    case Responding(_, idx) => |s.clients| + 1 + idx
  }

  /** A pass takes the combiner 2n + 2 steps for n threads, one place at a time, whatever the clients do. */
  lemma PassMovesOn(s: State, step: Step)
    requires Inv(s) && Enabled(s, step)
    ensures step.SendRequest? || step.RecvResponse? ==> Progress(Do(s, step)) == Progress(s)
    ensures step == RespondingDone ==> Progress(s) == 2 * |s.clients| + 1 && Progress(Do(s, step)) == 0
    ensures !step.SendRequest? && !step.RecvResponse? && step != RespondingDone ==>
      Progress(Do(s, step)) == Progress(s) + 1 <= 2 * |s.clients| + 1
  {
  }

  // ----- the clients' side

  /** The request of thread t that is sent and not yet answered to it, after k steps. */
  function Outstanding(steps: seq<Step>, k: nat, t: nat): Option<ReqId>
    requires k <= |steps|
  {
    if k == 0 then None
    else
      match steps[k - 1]
      case SendRequest(u, rid) => if u == t then Some(rid) else Outstanding(steps, k - 1, t)
      case RecvResponse(u, _) => if u == t then None else Outstanding(steps, k - 1, t)
      case _ => Outstanding(steps, k - 1, t)
  }

  lemma {:induction false} ClientsWait(states: seq<State>, steps: seq<Step>, k: nat, t: nat)
    requires Run(states, steps) && k <= |steps| && t < |states[0].clients|
    ensures |states[k].clients| == |states[0].clients|
    ensures states[k].clients[t] == match Outstanding(steps, k, t) case None => Idle case Some(rid) => Waiting(rid)
  {
    if k > 0 {
      ClientsWait(states, steps, k - 1, t);
      assert states[k - 1 + 1] == Do(states[k - 1], steps[k - 1]);
    }
  }

  /** How one step moves thread t's slot along, with rid in it, and what it counts for. */
  lemma SlotStep(s: State, step: Step, t: nat, rid: ReqId)
    requires Inv(s) && Enabled(s, step) && t < |s.slots| && s.slots[t] != Empty && s.slots[t].rid == rid
    requires !(step.RecvResponse? && step.tid == t)
    ensures
      var after := Do(s, step).slots[t];
      && after != Empty && after.rid == rid
      && (Collects(s, step, t, rid) <==> s.slots[t].Request? && !after.Request?)
      && (Responds(s, step, t, rid) <==> !s.slots[t].Response? && after.Response?)
      && (after.Request? ==> s.slots[t].Request?) && (s.slots[t].Response? ==> after.Response?)
      && (s.slots[t].Request? ==> !after.Response?)
  {
  }

  /** From the step that sends rid on, until it is received, the slot carries rid, and the combiner has
      collected and answered it as often as the slot says. */
  lemma {:induction false} SinceSent(states: seq<State>, steps: seq<Step>, i: nat, k: nat, t: nat, rid: ReqId)
    requires Run(states, steps) && i < k <= |steps| && t < |states[0].clients|
    requires steps[i] == SendRequest(t, rid)
    requires forall j: nat | i < j < k :: !(steps[j].RecvResponse? && steps[j].tid == t)
    ensures |states[k].slots| == |states[0].clients|
    ensures
      var slot := states[k].slots[t];
      && slot != Empty && slot.rid == rid
      && Collected(states, steps, k, t, rid) == Collected(states, steps, i, t, rid) + (if slot.Request? then 0 else 1)
      && Responded(states, steps, k, t, rid) == Responded(states, steps, i, t, rid) + (if slot.Response? then 1 else 0)
    decreases k
  {
    assert |states| == |steps| + 1;
    hide *;
    RunInv(states, steps, k - 1);
    StepTaken(states, steps, k - 1);
    CountStep(states, steps, k, t, rid);
    if i + 1 < k {
      SinceSent(states, steps, i, k - 1, t, rid);
      SlotStep(states[k - 1], steps[k - 1], t, rid);
    } else {
      SendStep(states[i], t, rid);
    }
  }

  lemma SendStep(s: State, t: nat, rid: ReqId)
    requires Inv(s) && Enabled(s, SendRequest(t, rid))
    ensures t < |s.slots| && Do(s, SendRequest(t, rid)).slots == s.slots[t := Request(rid)]
    ensures !Collects(s, SendRequest(t, rid), t, rid) && !Responds(s, SendRequest(t, rid), t, rid)
  {
  }

  lemma StepTaken(states: seq<State>, steps: seq<Step>, k: nat)
    requires Run(states, steps) && k < |steps| && Inv(states[k])
    ensures Enabled(states[k], steps[k]) && states[k + 1] == Do(states[k], steps[k])
    ensures |states[k + 1].slots| == |states[k].slots| == |states[k].clients|
  {
  }

  /** A response that a client receives answers the request it sent last,
      and that request was collected once and answered once in between. */
  lemma ReceivesOwnResponse(states: seq<State>, steps: seq<Step>, i: nat, k: nat, t: nat, rid: ReqId, received: ReqId)
    requires Run(states, steps) && i < k < |steps| && t < |states[0].clients|
    requires steps[i] == SendRequest(t, rid) && steps[k] == RecvResponse(t, received)
    requires forall j: nat | i < j < k :: !(steps[j].RecvResponse? && steps[j].tid == t)
    ensures received == rid && Outstanding(steps, k, t) == Some(rid)
    ensures Collected(states, steps, k, t, rid) == Collected(states, steps, i, t, rid) + 1
    ensures Responded(states, steps, k, t, rid) == Responded(states, steps, i, t, rid) + 1
  {
    SinceSent(states, steps, i, k, t, rid);
    ClientsWait(states, steps, k, t);
    assert Enabled(states[k], steps[k]);
    hide Collected, Responded;
  }
}
