/**
 A whole aging pass, with or without offloading: each flow meets the fate that its own visits give it, whatever
 the other flows of the table do.
 */
module FlowPasses {
  import opened Words
  import opened FlowKeys
  import opened FlowModel
  import opened FlowSafety
  import opened FlowAging

  /** What can become of a flow: it is live with these references, it has been freed, or it has been freed and is
      used again. */
  datatype Fate = Alive(aged: bool, slots: seq<Option<CtxId>>, rules: set<CtxId>) | Freed | Misused

  predicate Sized(x: Fate) {
    x.Alive? ==> |x.slots| == SLOTS
  }

  /** The software timeout of one visit. */
  function Expire(x: Fate, timedOut: bool): Fate
    requires x.Alive?
  {
    if !timedOut || x.aged then x else if x.rules == {} then Freed else x.(aged := true)
  }

  /** One visit, on the references of the visited flow alone; `asks` says that the hardware is asked first. */
  function VisitFate(x: Fate, asks: bool, timedOut: bool, answers: seq<Answer>): (r: Fate)
    requires x.Alive? && Sized(x) && |answers| == SLOTS
    ensures Sized(r)
  {
    if !asks then Expire(x, timedOut)
    else
      var left := x.rules - Idled(x.slots, answers, 0);
      if x.aged && left == {} then Misused
      else Expire(Alive(x.aged, Cleared(x.slots, answers, 0), left), timedOut)
  }

  /** The visits of a pass to the positions whose keys lead to one flow. */
  function PassFate(x: Fate, keys: set<FlowKey>, offload: bool, timedOut: bool, order: seq<FlowKey>,
      answers: seq<seq<Answer>>)
      : Fate
    requires Sized(x) && AnswersFit(order, answers)
    decreases |order|
  {
    if order == [] || !x.Alive? then x
    else
      var y := if order[0] in keys then VisitFate(x, offload && order[0].proto == TCP, timedOut, answers[0]) else x;
      PassFate(y, keys, offload, timedOut, order[1..], answers[1..])
  }

  lemma Settled(x: Fate, keys: set<FlowKey>, offload: bool, timedOut: bool, order: seq<FlowKey>,
      answers: seq<seq<Answer>>)
    requires !x.Alive? && AnswersFit(order, answers)
    ensures PassFate(x, keys, offload, timedOut, order, answers) == x
  {
  }

  // ----- One flow of the table -----

  ghost function FateOf(w: World, id: FlowId): Fate {
    if id in w.flows then Alive(w.flows[id].refs.aged, w.flows[id].refs.slots, RulesOf(w.ctxs, id)) else Freed
  }

  /** The keys under which the table leads to flow `id`. */
  ghost function Leads(w: World, id: FlowId): set<FlowKey> {
    set k | k in w.table && w.table[k] == id
  }

  /** The fate of flow `id` in a pass over state `w`, from its own references and visits. */
  ghost function FateIn(cfg: Config, w: World, order: seq<FlowKey>, now: uint64, hz: uint64, answers: seq<seq<Answer>>,
      id: FlowId)
      : Fate
    requires Inv(w) && id in w.flows && AnswersFit(order, answers)
  {
    SlotsAreCounted(w, id);
    PassFate(FateOf(w, id), Leads(w, id), cfg.offload, TimedOut(w.flows[id], now, hz), order, answers)
  }

  /** Aging a flow out, as its fate sees it. */
  lemma AgeOutIsExpire(w: World, id: FlowId)
    requires Inv(w) && id in w.flows && !w.flows[id].refs.aged
    ensures FateOf(AgeOut(w, id), id) == Expire(FateOf(w, id), true)
    ensures AgeOut(w, id).ctxs == w.ctxs
  {
    AgeOutKeepsInv(w, id);
  }

  /** The query stage of a visit that does not use a freed flow. */
  lemma QueryStageEffect(cfg: Config, w: World, key: FlowKey, answers: seq<Answer>)
    requires Inv(w) && key in w.table && |answers| == SLOTS && !DropsLastReference(cfg, w, key, answers)
    ensures var id, o := w.table[key], QueryStage(cfg, w, key.proto, w.table[key], answers);
            && |w.flows[id].refs.slots| == SLOTS
            && o.Done? && id in o.w.flows && o.w.flows[id].refs.aged == w.flows[id].refs.aged
            && (if cfg.offload && key.proto == TCP then
                  && o.w.ctxs == w.ctxs - Idled(w.flows[id].refs.slots, answers, 0)
                  && RulesOf(o.w.ctxs, id) == RulesOf(w.ctxs, id) - Idled(w.flows[id].refs.slots, answers, 0)
                  && o.w.flows[id].refs.slots == Cleared(w.flows[id].refs.slots, answers, 0)
                else o.w == w)
  {
    var id := w.table[key];
    SlotsAreCounted(w, id);
    if cfg.offload && key.proto == TCP { QueryEffect(w, id, answers, 0); }
  }

  /** The visited flow meets the fate of that visit. */
  lemma OwnVisit(cfg: Config, w: World, key: FlowKey, now: uint64, hz: uint64, answers: seq<Answer>)
    requires Inv(w) && key in w.table && |answers| == SLOTS
    ensures var id, o := w.table[key], AgeVisit(cfg, w, key, now, hz, answers);
            && Sized(FateOf(w, id))
            && VisitFate(FateOf(w, id), cfg.offload && key.proto == TCP, TimedOut(w.flows[id], now, hz), answers)
               == if o.UsesFreed? then Misused else FateOf(o.w, id)
  {
    var id := w.table[key];
    SlotsAreCounted(w, id);
    VisitSafeIff(cfg, w, key, now, hz, answers);
    NothingLeftIff(RulesOf(w.ctxs, id), Idled(w.flows[id].refs.slots, answers, 0));
    if !DropsLastReference(cfg, w, key, answers) { OwnSafeVisit(cfg, w, key, now, hz, answers); }
  }

  lemma NothingLeftIff(rules: set<CtxId>, idled: set<CtxId>)
    ensures rules - idled == {} <==> rules <= idled
  {
    if rules - idled == {} {
      forall c | c in rules ensures c in idled { assert c !in rules - idled; }
    }
  }

  /** The fate of the visited flow after the query stage. */
  ghost function AfterQuery(w: World, id: FlowId, asks: bool, answers: seq<Answer>): Fate
    requires id in w.flows && |w.flows[id].refs.slots| == |answers| == SLOTS
  {
    var x, r := FateOf(w, id), w.flows[id].refs;
    if asks then Alive(r.aged, Cleared(r.slots, answers, 0), x.rules - Idled(r.slots, answers, 0)) else x
  }

  lemma OwnSafeVisit(cfg: Config, w: World, key: FlowKey, now: uint64, hz: uint64, answers: seq<Answer>)
    requires Inv(w) && key in w.table && |answers| == SLOTS && !DropsLastReference(cfg, w, key, answers)
    ensures var id, o := w.table[key], AgeVisit(cfg, w, key, now, hz, answers);
            && o.Done? && |w.flows[id].refs.slots| == SLOTS
            && FateOf(o.w, id)
               == Expire(AfterQuery(w, id, cfg.offload && key.proto == TCP, answers), TimedOut(w.flows[id], now, hz))
  {
    var id := w.table[key];
    QueryFate(cfg, w, key, answers);
    var v := VisitShape(cfg, w, key, now, hz, answers);
    SameTimeout(w.flows[id], v.flows[id], now, hz);
    if !v.flows[id].refs.aged { AgeOutIsExpire(v, id); }
  }

  lemma SameTimeout(f: Flow, g: Flow, now: uint64, hz: uint64)
    requires f.track == g.track
    ensures TimedOut(f, now, hz) == TimedOut(g, now, hz)
  {
  }

  lemma QueryFate(cfg: Config, w: World, key: FlowKey, answers: seq<Answer>)
    requires Inv(w) && key in w.table && |answers| == SLOTS && !DropsLastReference(cfg, w, key, answers)
    ensures var id, o := w.table[key], QueryStage(cfg, w, key.proto, w.table[key], answers);
            && o.Done? && |w.flows[id].refs.slots| == SLOTS
            && FateOf(o.w, id) == AfterQuery(w, id, cfg.offload && key.proto == TCP, answers)
  {
    QueryStageEffect(cfg, w, key, answers);
  }

  // ----- The other flows -----

  /** What a visit leaves of the other flows: everything. */
  ghost predicate Untouched(w: World, v: World, id: FlowId) {
    && id in w.flows && id in v.flows && v.flows[id].track == w.flows[id].track
    && v.flows[id].org == w.flows[id].org && v.flows[id].reply == w.flows[id].reply
    && Leads(v, id) == Leads(w, id)
  }

  lemma OtherRulesStay(w: World, idled: set<CtxId>, j: FlowId, id: FlowId)
    requires id != j && idled <= RulesOf(w.ctxs, j)
    ensures RulesOf(w.ctxs - idled, id) == RulesOf(w.ctxs, id)
  {
    forall c | c in RulesOf(w.ctxs, id) ensures c !in idled {}
  }

  /** Freeing a flow takes no entry of another flow away if none has been taken over. */
  lemma AgeOutLeavesOthers(w: World, j: FlowId, id: FlowId)
    requires Unshared(w) && Owned(w) && j in w.flows && id in w.flows && id != j
    ensures var v := AgeOut(w, j);
            id in v.flows && v.flows[id] == w.flows[id] && Leads(v, id) == Leads(w, id) && v.ctxs == w.ctxs
  {
    var v := AgeOut(w, j);
    forall k ensures k in Leads(v, id) <==> k in Leads(w, id) {
      if k in Leads(w, id) { assert k != w.flows[j].org && k != w.flows[j].reply; }
    }
  }

  lemma OtherVisit(cfg: Config, w: World, key: FlowKey, now: uint64, hz: uint64, answers: seq<Answer>, id: FlowId)
    requires Inv(w) && Unshared(w) && key in w.table && |answers| == SLOTS
    requires id in w.flows && id != w.table[key] && !DropsLastReference(cfg, w, key, answers)
    ensures var o := AgeVisit(cfg, w, key, now, hz, answers);
            o.Done? && Untouched(w, o.w, id) && FateOf(o.w, id) == FateOf(w, id)
  {
    var j := w.table[key];
    QueryStageEffect(cfg, w, key, answers);
    SlotsAreCounted(w, j);
    IdledFrom(w.ctxs, j, w.flows[j], answers, 0);
    OtherRulesStay(w, Idled(w.flows[j].refs.slots, answers, 0), j, id);
    var v := VisitShape(cfg, w, key, now, hz, answers);
    DroppedIsUnshared(w, v, j);
    AgeOutLeavesOthers(v, j, id);
  }

  lemma DroppedIsUnshared(w: World, v: World, j: FlowId)
    requires Unshared(w) && j in w.flows && OnlyRulesDropped(w, v, j)
    ensures Unshared(v) && v.flows.Keys == w.flows.Keys
  {
  }

  /** A visit adds no flow and keeps entries unshared; if the visited flow stays, so do its entries. */
  lemma VisitKeepsUnshared(cfg: Config, w: World, key: FlowKey, now: uint64, hz: uint64, answers: seq<Answer>)
    requires Inv(w) && Unshared(w) && key in w.table && |answers| == SLOTS
    requires !DropsLastReference(cfg, w, key, answers)
    ensures var o := AgeVisit(cfg, w, key, now, hz, answers);
            && o.Done? && Unshared(o.w) && o.w.flows.Keys <= w.flows.Keys
            && (w.table[key] in o.w.flows ==> Untouched(w, o.w, w.table[key]))
  {
    var v := VisitShape(cfg, w, key, now, hz, answers);
    DroppedIsUnshared(w, v, w.table[key]);
    AgeOutKeepsUnshared(v, w.table[key]);
  }

  lemma AgeOutKeepsUnshared(w: World, j: FlowId)
    requires Unshared(w) && j in w.flows
    ensures var v := AgeOut(w, j);
            && Unshared(v) && v.flows.Keys <= w.flows.Keys && (j in v.flows ==> Untouched(w, v, j))
  {
    var v := AgeOut(w, j);
    forall k, id | k in v.table && id in v.flows && (k == v.flows[id].org || k == v.flows[id].reply)
      ensures v.table[k] == id
    {
      assert k in w.table && w.table[k] == v.table[k] && id in w.flows;
      assert w.flows[id].org == v.flows[id].org && w.flows[id].reply == v.flows[id].reply;
    }
  }

  // ----- The pass -----

  /** The outcome of a pass is that some flow is misused, or that every flow has met its own fate. */
  ghost predicate AllFatesMet(cfg: Config, w: World, order: seq<FlowKey>, now: uint64, hz: uint64,
      answers: seq<seq<Answer>>, o: Outcome)
    requires Inv(w) && AnswersFit(order, answers)
  {
    if o.UsesFreed? then exists id :: id in w.flows && FateIn(cfg, w, order, now, hz, answers, id) == Misused
    else
      && o.w.flows.Keys <= w.flows.Keys
      && forall id :: id in w.flows ==> FateIn(cfg, w, order, now, hz, answers, id) == FateOf(o.w, id)
  }

  /** The first visit of a pass, seen from one flow. */
  lemma FirstVisit(cfg: Config, w: World, v: World, order: seq<FlowKey>, now: uint64, hz: uint64,
      answers: seq<seq<Answer>>, id: FlowId)
    requires Inv(w) && Unshared(w) && order != [] && AnswersFit(order, answers) && id in w.flows
    requires order[0] in w.table && AgeVisit(cfg, w, order[0], now, hz, answers[0]) == Done(v) && Inv(v)
    ensures FateIn(cfg, w, order, now, hz, answers, id)
            == if id in v.flows then FateIn(cfg, v, order[1..], now, hz, answers[1..], id) else Freed
  {
    VisitSafeIff(cfg, w, order[0], now, hz, answers[0]);
    SlotsAreCounted(w, id);
    if id == w.table[order[0]] {
      OwnVisit(cfg, w, order[0], now, hz, answers[0]);
      VisitKeepsUnshared(cfg, w, order[0], now, hz, answers[0]);
      assert order[0] in Leads(w, id);
    } else {
      OtherVisit(cfg, w, order[0], now, hz, answers[0], id);
      assert order[0] !in Leads(w, id);
    }
    if id in v.flows {
      SlotsAreCounted(v, id);
      NextVisits(cfg, w, v, order, now, hz, answers, id);
    } else {
      Settled(Freed, Leads(w, id), cfg.offload, TimedOut(w.flows[id], now, hz), order[1..], answers[1..]);
    }
  }

  lemma NextVisits(cfg: Config, w: World, v: World, order: seq<FlowKey>, now: uint64, hz: uint64,
      answers: seq<seq<Answer>>, id: FlowId)
    requires Inv(w) && Inv(v) && order != [] && AnswersFit(order, answers) && Untouched(w, v, id)
    requires Sized(FateOf(w, id)) && Sized(FateOf(v, id))
    requires FateOf(v, id)
             == if order[0] in Leads(w, id)
                then VisitFate(FateOf(w, id), cfg.offload && order[0].proto == TCP,
                               TimedOut(w.flows[id], now, hz), answers[0])
                else FateOf(w, id)
    ensures FateIn(cfg, w, order, now, hz, answers, id) == FateIn(cfg, v, order[1..], now, hz, answers[1..], id)
  {
    SameTimeout(w.flows[id], v.flows[id], now, hz);
  }

  /** A position whose key is not in the table concerns no flow. */
  lemma EmptyPosition(cfg: Config, w: World, order: seq<FlowKey>, now: uint64, hz: uint64, answers: seq<seq<Answer>>,
      id: FlowId)
    requires Inv(w) && order != [] && AnswersFit(order, answers) && id in w.flows && order[0] !in w.table
    ensures FateIn(cfg, w, order, now, hz, answers, id) == FateIn(cfg, w, order[1..], now, hz, answers[1..], id)
  {
    SlotsAreCounted(w, id);
    assert order[0] !in Leads(w, id);
  }

  /** A visit that misuses the flow it finds decides that flow's fate. */
  lemma MisusedAtOnce(cfg: Config, w: World, order: seq<FlowKey>, now: uint64, hz: uint64, answers: seq<seq<Answer>>)
    requires Inv(w) && order != [] && AnswersFit(order, answers) && order[0] in w.table
    requires AgeVisit(cfg, w, order[0], now, hz, answers[0]).UsesFreed?
    ensures FateIn(cfg, w, order, now, hz, answers, w.table[order[0]]) == Misused
  {
    var id := w.table[order[0]];
    OwnVisit(cfg, w, order[0], now, hz, answers[0]);
    assert order[0] in Leads(w, id);
    Settled(Misused, Leads(w, id), cfg.offload, TimedOut(w.flows[id], now, hz), order[1..], answers[1..]);
  }

  /** With or without offloading, over a table none of whose entries has been taken over, in any order: a pass
      uses a freed flow exactly when some flow's own visits misuse it, and otherwise leaves every flow with
      exactly the references, or freed as, its own visits say. */
  lemma {:induction false} FlowsAgeIndependently(cfg: Config, w: World, order: seq<FlowKey>, now: uint64, hz: uint64,
      answers: seq<seq<Answer>>)
    requires Inv(w) && Unshared(w) && AnswersFit(order, answers)
    ensures AllFatesMet(cfg, w, order, now, hz, answers, AgePass(cfg, w, order, now, hz, answers))
    decreases |order|
  {
    if order != [] {
      VisitSafeIff(cfg, w, order[0], now, hz, answers[0]);
      var v := AgeVisit(cfg, w, order[0], now, hz, answers[0]);
      if order[0] !in w.table {
        FlowsAgeIndependently(cfg, w, order[1..], now, hz, answers[1..]);
        forall id | id in w.flows
          ensures FateIn(cfg, w, order, now, hz, answers, id) == FateIn(cfg, w, order[1..], now, hz, answers[1..], id)
        {
          EmptyPosition(cfg, w, order, now, hz, answers, id);
        }
      } else if v.UsesFreed? {
        MisusedAtOnce(cfg, w, order, now, hz, answers);
      } else {
        VisitKeepsUnshared(cfg, w, order[0], now, hz, answers[0]);
        FlowsAgeIndependently(cfg, v.w, order[1..], now, hz, answers[1..]);
        RestOfPass(cfg, w, v.w, order, now, hz, answers, AgePass(cfg, v.w, order[1..], now, hz, answers[1..]));
      }
    }
  }

  lemma RestOfPass(cfg: Config, w: World, v: World, order: seq<FlowKey>, now: uint64, hz: uint64,
      answers: seq<seq<Answer>>, o: Outcome)
    requires Inv(w) && Inv(v) && Unshared(w) && order != [] && AnswersFit(order, answers) && order[0] in w.table
    requires AgeVisit(cfg, w, order[0], now, hz, answers[0]) == Done(v) && v.flows.Keys <= w.flows.Keys
    requires AllFatesMet(cfg, v, order[1..], now, hz, answers[1..], o)
    ensures AllFatesMet(cfg, w, order, now, hz, answers, o)
  {
    forall id | id in w.flows
      ensures FateIn(cfg, w, order, now, hz, answers, id)
              == if id in v.flows then FateIn(cfg, v, order[1..], now, hz, answers[1..], id) else Freed
    {
      FirstVisit(cfg, w, v, order, now, hz, answers, id);
    }
  }

  /** The converse: a pass that completes misuses no flow. */
  lemma PassSafeIff(cfg: Config, w: World, order: seq<FlowKey>, now: uint64, hz: uint64, answers: seq<seq<Answer>>)
    requires Inv(w) && Unshared(w) && AnswersFit(order, answers)
    ensures AgePass(cfg, w, order, now, hz, answers).UsesFreed?
            <==> exists id :: id in w.flows && FateIn(cfg, w, order, now, hz, answers, id) == Misused
  {
    FlowsAgeIndependently(cfg, w, order, now, hz, answers);
  }

  /** Only a flow that had aged or timed out, and whose hardware rules are asked for, is ever misused; only one
      that timed out and had not aged is freed. */
  lemma {:induction false} FateNeedsTimeout(x: Fate, keys: set<FlowKey>, offload: bool, timedOut: bool,
      order: seq<FlowKey>, answers: seq<seq<Answer>>)
    requires x.Alive? && Sized(x) && AnswersFit(order, answers)
    ensures var r := PassFate(x, keys, offload, timedOut, order, answers);
            && (r == Misused ==> offload && (x.aged || timedOut))
            && (r == Freed ==> timedOut && !x.aged)
    decreases |order|
  {
    if order != [] {
      var y := if order[0] in keys then VisitFate(x, offload && order[0].proto == TCP, timedOut, answers[0]) else x;
      if y.Alive? { FateNeedsTimeout(y, keys, offload, timedOut, order[1..], answers[1..]); }
    }
  }

  // ----- Any table: the visits that reach a flow -----

  /** A visit that reaches a flow: whether the hardware is asked, and what it answers. */
  datatype Call = Call(asks: bool, answers: seq<Answer>)

  ghost predicate CallsFit(calls: seq<Call>) {
    forall i :: 0 <= i < |calls| ==> |calls[i].answers| == SLOTS
  }

  function CallsFate(x: Fate, calls: seq<Call>, timedOut: bool): Fate
    requires Sized(x) && CallsFit(calls)
    decreases |calls|
  {
    if calls == [] || !x.Alive? then x
    else CallsFate(VisitFate(x, calls[0].asks, timedOut, calls[0].answers), calls[1..], timedOut)
  }

  /** The visits of the pass that find flow `id`: a position whose entry has been removed, or leads elsewhere, by
      the time it is visited does not. */
  ghost function CallsOn(cfg: Config, w: World, order: seq<FlowKey>, now: uint64, hz: uint64, answers: seq<seq<Answer>>,
      id: FlowId)
      : (calls: seq<Call>)
    requires Inv(w) && AnswersFit(order, answers)
    ensures CallsFit(calls)
    decreases |order|
  {
    if order == [] then []
    else
      VisitSafeIff(cfg, w, order[0], now, hz, answers[0]);
      CallsHere(cfg, w, order[0], answers[0], id)
      + match AgeVisit(cfg, w, order[0], now, hz, answers[0])
        case UsesFreed => []
        case Done(v) => CallsOn(cfg, v, order[1..], now, hz, answers[1..], id)
  }

  ghost function CallsHere(cfg: Config, w: World, key: FlowKey, answers: seq<Answer>, id: FlowId): (calls: seq<Call>)
    requires |answers| == SLOTS
    ensures CallsFit(calls)
  {
    if key in w.table && w.table[key] == id then [Call(cfg.offload && key.proto == TCP, answers)] else []
  }

  /** The fate the visits that reach a flow give it. */
  ghost function FateByCalls(cfg: Config, w: World, order: seq<FlowKey>, now: uint64, hz: uint64,
      answers: seq<seq<Answer>>, id: FlowId)
      : Fate
    requires Inv(w) && id in w.flows && AnswersFit(order, answers)
  {
    SlotsAreCounted(w, id);
    CallsFate(FateOf(w, id), CallsOn(cfg, w, order, now, hz, answers, id), TimedOut(w.flows[id], now, hz))
  }

  /** Whatever entries are shared, a visit leaves the references of the other flows alone. */
  lemma OtherFateStays(cfg: Config, w: World, key: FlowKey, now: uint64, hz: uint64, answers: seq<Answer>, id: FlowId)
    requires Inv(w) && key in w.table && |answers| == SLOTS
    requires id in w.flows && id != w.table[key] && !DropsLastReference(cfg, w, key, answers)
    ensures var o := AgeVisit(cfg, w, key, now, hz, answers);
            && o.Done? && id in o.w.flows && o.w.flows[id].track == w.flows[id].track
            && FateOf(o.w, id) == FateOf(w, id)
  {
    var j := w.table[key];
    QueryStageEffect(cfg, w, key, answers);
    SlotsAreCounted(w, j);
    IdledFrom(w.ctxs, j, w.flows[j], answers, 0);
    OtherRulesStay(w, Idled(w.flows[j].refs.slots, answers, 0), j, id);
    var v := VisitShape(cfg, w, key, now, hz, answers);
    assert FateOf(v, id) == FateOf(w, id);
    AgeOutKeepsFate(v, j, id);
  }

  lemma AgeOutKeepsFate(w: World, j: FlowId, id: FlowId)
    requires j in w.flows && id in w.flows && id != j
    ensures var v := AgeOut(w, j);
            id in v.flows && v.flows[id] == w.flows[id] && FateOf(v, id) == FateOf(w, id)
  {
    assert AgeOut(w, j).ctxs == w.ctxs;
  }

  lemma SettledByCalls(x: Fate, calls: seq<Call>, timedOut: bool)
    requires !x.Alive? && CallsFit(calls)
    ensures CallsFate(x, calls, timedOut) == x
  {
  }

  lemma FirstCall(x: Fate, call: Call, calls: seq<Call>, timedOut: bool)
    requires x.Alive? && Sized(x) && CallsFit([call] + calls)
    ensures |call.answers| == SLOTS && CallsFit(calls)
    ensures CallsFate(x, [call] + calls, timedOut)
            == CallsFate(VisitFate(x, call.asks, timedOut, call.answers), calls, timedOut)
  {
    assert ([call] + calls)[0] == call && ([call] + calls)[1..] == calls;
    forall i | 0 <= i < |calls| ensures |calls[i].answers| == SLOTS { assert ([call] + calls)[i + 1] == calls[i]; }
  }

  /** The first position of a pass, seen from one flow. */
  lemma FirstPosition(cfg: Config, w: World, v: World, order: seq<FlowKey>, now: uint64, hz: uint64,
      answers: seq<seq<Answer>>, id: FlowId)
    requires Inv(w) && Inv(v) && order != [] && AnswersFit(order, answers) && id in w.flows
    requires AgeVisit(cfg, w, order[0], now, hz, answers[0]) == Done(v)
    ensures FateByCalls(cfg, w, order, now, hz, answers, id)
            == if id in v.flows then FateByCalls(cfg, v, order[1..], now, hz, answers[1..], id) else Freed
  {
    VisitSafeIff(cfg, w, order[0], now, hz, answers[0]);
    SlotsAreCounted(w, id);
    var rest := CallsOn(cfg, v, order[1..], now, hz, answers[1..], id);
    if order[0] in w.table && w.table[order[0]] == id {
      OwnVisit(cfg, w, order[0], now, hz, answers[0]);
      var call := Call(cfg.offload && order[0].proto == TCP, answers[0]);
      FirstCall(FateOf(w, id), call, rest, TimedOut(w.flows[id], now, hz));
      if id in v.flows {
        OwnTrackStays(cfg, w, order[0], now, hz, answers[0]);
        SameTimeout(w.flows[id], v.flows[id], now, hz);
      } else {
        SettledByCalls(Freed, rest, TimedOut(w.flows[id], now, hz));
      }
    } else {
      assert [] + rest == rest;
      if order[0] in w.table {
        OtherFateStays(cfg, w, order[0], now, hz, answers[0], id);
        SameTimeout(w.flows[id], v.flows[id], now, hz);
      }
    }
  }

  lemma OwnTrackStays(cfg: Config, w: World, key: FlowKey, now: uint64, hz: uint64, answers: seq<Answer>)
    requires Inv(w) && key in w.table && |answers| == SLOTS && !DropsLastReference(cfg, w, key, answers)
    ensures var o := AgeVisit(cfg, w, key, now, hz, answers);
            && o.Done? && o.w.flows.Keys <= w.flows.Keys
            && (w.table[key] in o.w.flows ==> o.w.flows[w.table[key]].track == w.flows[w.table[key]].track)
  {
    var v := VisitShape(cfg, w, key, now, hz, answers);
  }

  ghost predicate AllCallsMet(cfg: Config, w: World, order: seq<FlowKey>, now: uint64, hz: uint64,
      answers: seq<seq<Answer>>, o: Outcome)
    requires Inv(w) && AnswersFit(order, answers)
  {
    if o.UsesFreed? then exists id :: id in w.flows && FateByCalls(cfg, w, order, now, hz, answers, id) == Misused
    else
      && o.w.flows.Keys <= w.flows.Keys
      && forall id :: id in w.flows ==> FateByCalls(cfg, w, order, now, hz, answers, id) == FateOf(o.w, id)
  }

  /** Over any table whatever, in any order: a pass uses a freed flow exactly when the visits that reach some flow
      misuse it, and otherwise leaves every flow as the visits that reach it say. */
  lemma {:induction false} FlowsAgeByCalls(cfg: Config, w: World, order: seq<FlowKey>, now: uint64, hz: uint64,
      answers: seq<seq<Answer>>)
    requires Inv(w) && AnswersFit(order, answers)
    ensures AllCallsMet(cfg, w, order, now, hz, answers, AgePass(cfg, w, order, now, hz, answers))
    ensures AgePass(cfg, w, order, now, hz, answers).UsesFreed?
            <==> exists id :: id in w.flows && FateByCalls(cfg, w, order, now, hz, answers, id) == Misused
    decreases |order|
  {
    if order != [] {
      VisitSafeIff(cfg, w, order[0], now, hz, answers[0]);
      var v := AgeVisit(cfg, w, order[0], now, hz, answers[0]);
      if v.UsesFreed? {
        MisusedByCall(cfg, w, order, now, hz, answers);
      } else {
        FlowsAgeByCalls(cfg, v.w, order[1..], now, hz, answers[1..]);
        RestByCalls(cfg, w, v.w, order, now, hz, answers, AgePass(cfg, v.w, order[1..], now, hz, answers[1..]));
      }
    }
  }

  lemma MisusedByCall(cfg: Config, w: World, order: seq<FlowKey>, now: uint64, hz: uint64, answers: seq<seq<Answer>>)
    requires Inv(w) && order != [] && AnswersFit(order, answers)
    requires AgeVisit(cfg, w, order[0], now, hz, answers[0]).UsesFreed?
    ensures order[0] in w.table && FateByCalls(cfg, w, order, now, hz, answers, w.table[order[0]]) == Misused
  {
    var id := w.table[order[0]];
    OwnVisit(cfg, w, order[0], now, hz, answers[0]);
    var call := Call(cfg.offload && order[0].proto == TCP, answers[0]);
    assert CallsOn(cfg, w, order, now, hz, answers, id) == [call] + [];
    FirstCall(FateOf(w, id), call, [], TimedOut(w.flows[id], now, hz));
  }

  lemma RestByCalls(cfg: Config, w: World, v: World, order: seq<FlowKey>, now: uint64, hz: uint64,
      answers: seq<seq<Answer>>, o: Outcome)
    requires Inv(w) && Inv(v) && order != [] && AnswersFit(order, answers)
    requires AgeVisit(cfg, w, order[0], now, hz, answers[0]) == Done(v)
    requires AllCallsMet(cfg, v, order[1..], now, hz, answers[1..], o)
    ensures AllCallsMet(cfg, w, order, now, hz, answers, o)
  {
    VisitSafeIff(cfg, w, order[0], now, hz, answers[0]);
    if order[0] in w.table { OwnTrackStays(cfg, w, order[0], now, hz, answers[0]); }
    forall id | id in w.flows
      ensures FateByCalls(cfg, w, order, now, hz, answers, id)
              == if id in v.flows then FateByCalls(cfg, v, order[1..], now, hz, answers[1..], id) else Freed
    {
      FirstPosition(cfg, w, v, order, now, hz, answers, id);
    }
  }

  /** How a flow comes to be missed: aging out flow `j` leaves the entries of flow `id` as they are if and only if
      `j` stays live or neither of its keys has been taken over by `id`. */
  lemma EntriesStayIff(w: World, j: FlowId, id: FlowId)
    requires Inv(w) && j in w.flows && id in w.flows && id != j
    ensures Leads(AgeOut(w, j), id) == Leads(w, id)
            <==> j in AgeOut(w, j).flows || (w.flows[j].org !in Leads(w, id) && w.flows[j].reply !in Leads(w, id))
  {
    var f, v := w.flows[j], AgeOut(w, j);
    if j !in v.flows {
      assert v.table == w.table - {f.org} - {f.reply};
      forall k ensures k in Leads(v, id) <==> k in Leads(w, id) && k != f.org && k != f.reply {}
    } else {
      assert v.table == w.table;
    }
  }
}
