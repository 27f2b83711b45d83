/**
 What every run of the flow table keeps: ownership of table entries, soundness of the lookup cache,
 exact reference counts, and the shape of reply keys.
 */
module FlowSafety {
  import opened Words
  import opened FlowKeys
  import opened NatPorts
  import opened FlowModel

  // ----- The cache refines the table -----

  function Forget(w: World): World {
    w.(cache := None)
  }

  /** A lookup through the cache returns the same flow and direction, and leaves the same table, flows
      and offload states, as a lookup that never had a cache. */
  lemma CacheRefinesLookup(cfg: Config, w: World, key: FlowKey, p: PktInfo, id: FlowId, ok1: bool, ok2: bool)
    requires Owned(w) && CacheSound(w)
    ensures var g, u := GetFlow(cfg, w, key, p, id, ok1, ok2), Lookup(cfg, Forget(w), key, p, id, ok1, ok2);
            g.flow == u.flow && g.dir == u.dir && Forget(g.w) == Forget(u.w)
  {
  }

  /** A packet that finds an entry is given the direction of the key it matched, whatever its
      direction field held before. */
  lemma HitHasDefiniteDirection(w: World, key: FlowKey, before: Dir)
    requires Owned(w) && key in w.table
    ensures var f := w.flows[w.table[key]];
            && (Direction(f, key, before) == Org <==> key == f.org)
            && (Direction(f, key, before) == Reply <==> key == f.reply && key != f.org)
  {
  }

  // ----- Steps -----

  datatype Op =
    | Packet(key: FlowKey, p: PktInfo, id: FlowId, ok1: bool, ok2: bool)
    | DoSnat(id: FlowId, d: SnatData, vni: uint32, hash: uint32, overloadOk: bool, portmapOk: bool, addOk: bool)
    | DoDnat(id: FlowId, dnatIp: uint32, addOk: bool)
    | DoRelay(id: FlowId, lb: bool)
    | DoMark(id: FlowId, m: Mark)
    | Install(id: FlowId, c: CtxId, tcp: bool, hwOk: bool)
    | RuleAged(c: CtxId)
    | Visit(key: FlowKey, now: uint64, hz: uint64, answers: seq<Answer>)
    | Remove(id: FlowId)

  /** A packet of the flow has been given the decision to install a rule. The packet carries that decision to
      the transmitting node, and other packets of its burst may have moved the flow on to `Offloaded`. */
  predicate Decided(f: Flow) {
    f.track.offOrig != NonOffload || f.track.offReply != NonOffload
  }

  /** New objects get unused addresses, operations are given live objects, rules need offloading and a
      decision to install, and the two operations that can go on using a freed flow are called when they
      do not. */
  ghost predicate Legal(cfg: Config, w: World, op: Op) {
    match op
    case Packet(_, _, id, _, _) => id !in w.flows
    case DoSnat(id, _, _, _, _, _, _) => id in w.flows
    case DoDnat(id, _, _) => id in w.flows
    case DoRelay(id, _) => id in w.flows
    case DoMark(id, _) => id in w.flows
    case Install(id, c, _, _) => cfg.offload && id in w.flows && Decided(w.flows[id]) && c !in w.ctxs
    case RuleAged(c) => c in w.ctxs
    case Visit(key, _, _, answers) => |answers| == SLOTS && !DropsLastReference(cfg, w, key, answers)
    case Remove(id) => id in w.flows && !w.flows[id].refs.aged
  }

  function Step(cfg: Config, w: World, op: Op): World
    requires Inv(w) && Legal(cfg, w, op)
  {
    match op
    case Packet(key, p, id, ok1, ok2) => Handle(cfg, w, key, p, id, ok1, ok2).w
    case DoSnat(id, d, vni, hash, overloadOk, portmapOk, addOk) =>
      Snat(w, id, d, vni, hash, overloadOk, portmapOk, addOk)
    case DoDnat(id, dnatIp, addOk) => Dnat(w, id, dnatIp, addOk)
    case DoRelay(id, lb) => Relay(w, id, lb)
    case DoMark(id, m) => MarkFlow(w, id, m)
    case Install(id, c, tcp, hwOk) => InstallRule(w, id, c, tcp, hwOk)
    case RuleAged(c) => DestroyCtx(w, c)
    case Visit(key, now, hz, answers) =>
      VisitSafeIff(cfg, w, key, now, hz, answers);
      AgeVisit(cfg, w, key, now, hz, answers).w
    case Remove(id) =>
      ForcedRemoveIff(cfg, w, id);
      ForcedRemove(cfg, w, id).w
  }

  // ----- Freeing -----

  /** What taking one reference away does, in a state where flow `id` counts one reference too many: the
      invariant holds again, and the flow is freed exactly when that was its only reference. */
  lemma RefDecKeepsInv(w: World, id: FlowId)
    requires id in w.flows && Owned(w) && CacheSound(w) && Shaped(w)
    requires forall c :: c in w.ctxs ==> w.ctxs[c].flow in w.flows && w.ctxs[c].index < SLOTS
    requires forall i :: i in w.flows && i != id ==> Counts(w.ctxs, i, w.flows[i].refs)
    requires w.flows[id].refs.count >= 1
    requires w.flows[id].refs.count > 1 ==> Counts(w.ctxs, id, w.flows[id].refs.(count := w.flows[id].refs.count - 1))
    requires w.flows[id].refs.count == 1 ==> RulesOf(w.ctxs, id) == {}
    ensures Inv(RefDec(w, id))
    ensures RefDec(w, id).flows.Keys == if w.flows[id].refs.count == 1 then w.flows.Keys - {id} else w.flows.Keys
    ensures w.flows[id].refs.count == 1 ==>
              RefDec(w, id).table == w.table - {w.flows[id].org} - {w.flows[id].reply} && RefDec(w, id).cache.None?
  {
    var w' := RefDec(w, id);
    if w.flows[id].refs.count == 1 {
      forall c | c in w'.ctxs ensures w'.ctxs[c].flow in w'.flows {
        assert c !in RulesOf(w.ctxs, id);
      }
    }
  }

  lemma DestroyKeepsInv(w: World, c: CtxId)
    requires Inv(w) && c in w.ctxs
    ensures Inv(DestroyCtx(w, c))
  {
    DestroyKeepsReferenced(w, c);
  }

  /** Aging out a flow that has not aged keeps the invariant; the flow is freed exactly when it has no
      hardware rule. */
  lemma AgeOutKeepsInv(w: World, id: FlowId)
    requires Inv(w) && id in w.flows && !w.flows[id].refs.aged
    ensures Inv(AgeOut(w, id))
    ensures id !in AgeOut(w, id).flows <==> RulesOf(w.ctxs, id) == {}
    ensures id in AgeOut(w, id).flows ==> AgeOut(w, id).flows[id].refs.aged
  {
    assert Counts(w.ctxs, id, w.flows[id].refs);
    RefDecKeepsInv(Update(w, id, w.flows[id].(refs := w.flows[id].refs.(aged := true))), id);
  }

  /** The rules a query pass destroys: those in slots reported idle before the first failed query. */
  function Idled(slots: seq<Option<CtxId>>, answers: seq<Answer>, i: nat): set<CtxId>
    requires |answers| == |slots| == SLOTS && i <= SLOTS
    decreases SLOTS - i
  {
    if i == SLOTS then {}
    else if slots[i].None? || answers[i] == Busy then Idled(slots, answers, i + 1)
    else if answers[i] == QueryFailed then {}
    else {slots[i].value} + Idled(slots, answers, i + 1)
  }

  /** The slots after such a pass. */
  function Cleared(slots: seq<Option<CtxId>>, answers: seq<Answer>, i: nat): (r: seq<Option<CtxId>>)
    requires |answers| == |slots| == SLOTS && i <= SLOTS
    ensures |r| == SLOTS
    decreases SLOTS - i
  {
    if i == SLOTS then slots
    else if slots[i].None? || answers[i] == Busy then Cleared(slots, answers, i + 1)
    else if answers[i] == QueryFailed then slots
    else Cleared(slots[i := None], answers, i + 1)
  }

  /** The visit queries a flow that has aged and whose every rule is about to be destroyed. */
  ghost predicate DropsLastReference(cfg: Config, w: World, key: FlowKey, answers: seq<Answer>)
    requires |answers| == SLOTS
  {
    cfg.offload && key in w.table && key.proto == TCP && w.table[key] in w.flows
    && var f := w.flows[w.table[key]];
       f.refs.aged && |f.refs.slots| == SLOTS && RulesOf(w.ctxs, w.table[key]) <= Idled(f.refs.slots, answers, 0)
  }

  /** The rules idled from slot `i` on do not depend on earlier slots, and are rules of the flow. */
  lemma {:induction false} IdledFrom(ctxs: map<CtxId, AgeCtx>, id: FlowId, f: Flow, answers: seq<Answer>, i: nat)
    requires |answers| == SLOTS && i <= SLOTS && |f.refs.slots| == SLOTS
    requires forall j :: 0 <= j < SLOTS && f.refs.slots[j].Some? ==>
        f.refs.slots[j].value in ctxs && ctxs[f.refs.slots[j].value] == AgeCtx(id, j)
    ensures Idled(f.refs.slots, answers, i) <= RulesOf(ctxs, id)
    ensures forall c :: c in Idled(f.refs.slots, answers, i) ==> ctxs[c].index >= i
    decreases SLOTS - i
  {
    if i < SLOTS { IdledFrom(ctxs, id, f, answers, i + 1); }
  }

  lemma {:induction false} IdledIgnoresEarlier(f: Flow, g: Flow, answers: seq<Answer>, i: nat)
    requires |answers| == |f.refs.slots| == |g.refs.slots| == SLOTS && i <= SLOTS
    requires forall j :: i <= j < SLOTS ==> f.refs.slots[j] == g.refs.slots[j]
    ensures Idled(f.refs.slots, answers, i) == Idled(g.refs.slots, answers, i)
    decreases SLOTS - i
  {
    if i < SLOTS { IdledIgnoresEarlier(f, g, answers, i + 1); }
  }

  /** Flow `id` has aged and every rule it still has is idled from slot `i` on. */
  ghost predicate LosesAll(w: World, id: FlowId, answers: seq<Answer>, i: nat)
    requires id in w.flows && |w.flows[id].refs.slots| == SLOTS && |answers| == SLOTS && i <= SLOTS
  {
    w.flows[id].refs.aged && RulesOf(w.ctxs, id) <= Idled(w.flows[id].refs.slots, answers, i)
  }

  /** State `v` is `w` with some rules of flow `id` taken away: no other flow, no table entry and no NAT port
      changes, and of that flow only the reference count and the slots. */
  ghost predicate OnlyRulesDropped(w: World, v: World, id: FlowId)
    requires id in w.flows
  {
    && v.ports == w.ports && v.table == w.table && id in v.flows
    && v.flows[id].refs.aged == w.flows[id].refs.aged
    && v.flows == w.flows[id := w.flows[id].(refs := v.flows[id].refs)]
  }

  lemma DestroySlot(w: World, id: FlowId, i: nat)
    requires Inv(w) && id in w.flows && i < SLOTS
    requires |w.flows[id].refs.slots| == SLOTS && w.flows[id].refs.slots[i].Some?
    ensures var c := w.flows[id].refs.slots[i].value;
            && c in w.ctxs && w.ctxs[c] == AgeCtx(id, i)
            && var v := DestroyCtx(w, c);
               && Inv(v)
               && v.ctxs == w.ctxs - {c} && RulesOf(v.ctxs, id) == RulesOf(w.ctxs, id) - {c}
               && (id in v.flows <==> !(w.flows[id].refs.aged && RulesOf(w.ctxs, id) == {c}))
               && (id in v.flows ==>
                     OnlyRulesDropped(w, v, id) && v.flows[id].refs.slots == w.flows[id].refs.slots[i := None])
  {
    SlotsAreCounted(w, id);
    var c := w.flows[id].refs.slots[i].value;
    DestroyKeepsReferenced(w, c);
    DestroyKeepsInv(w, c);
    RulesRemove(w.ctxs, c, id);
  }

  lemma SlotsAreCounted(w: World, id: FlowId)
    requires Inv(w) && id in w.flows
    ensures |w.flows[id].refs.slots| == SLOTS
    ensures forall j :: 0 <= j < SLOTS && w.flows[id].refs.slots[j].Some? ==>
              w.flows[id].refs.slots[j].value in w.ctxs && w.ctxs[w.flows[id].refs.slots[j].value] == AgeCtx(id, j)
    ensures w.flows[id].refs.aged ==> RulesOf(w.ctxs, id) != {}
  {
    assert Counts(w.ctxs, id, w.flows[id].refs);
  }

  lemma {:induction false} QueryKeepsInv(w: World, id: FlowId, answers: seq<Answer>, i: nat)
    requires Inv(w) && |answers| == SLOTS && i <= SLOTS
    ensures QueryAndRemove(w, id, answers, i).Done? ==> Inv(QueryAndRemove(w, id, answers, i).w)
    decreases SLOTS - i
  {
    if i < SLOTS && id in w.flows {
      SlotsAreCounted(w, id);
      var s := w.flows[id].refs.slots[i];
      if s.None? || answers[i] == Busy {
        QueryKeepsInv(w, id, answers, i + 1);
      } else if answers[i] == Idle {
        DestroySlot(w, id, i);
        QueryKeepsInv(DestroyCtx(w, s.value), id, answers, i + 1);
      }
    }
  }

  /** What a query pass from slot `i` on amounts to: it removes exactly the idled rules and nothing else,
      except that it frees the flow, and uses it again, when the flow had aged and all its rules were idled. */
  ghost predicate QueryPost(w: World, o: Outcome, id: FlowId, answers: seq<Answer>, i: nat)
    requires id in w.flows && |w.flows[id].refs.slots| == |answers| == SLOTS && i <= SLOTS
  {
    if LosesAll(w, id, answers, i) then o.UsesFreed? || id !in o.w.flows
    else o.Done? && OnlyRulesDropped(w, o.w, id)
         && RulesOf(o.w.ctxs, id) == RulesOf(w.ctxs, id) - Idled(w.flows[id].refs.slots, answers, i)
         && o.w.ctxs == w.ctxs - Idled(w.flows[id].refs.slots, answers, i)
         && o.w.flows[id].refs.slots == Cleared(w.flows[id].refs.slots, answers, i)
  }

  lemma {:induction false} QueryEffect(w: World, id: FlowId, answers: seq<Answer>, i: nat)
    requires Inv(w) && id in w.flows && |w.flows[id].refs.slots| == |answers| == SLOTS && i <= SLOTS
    ensures QueryPost(w, QueryAndRemove(w, id, answers, i), id, answers, i)
    decreases SLOTS - i
  {
    var f := w.flows[id];
    SlotsAreCounted(w, id);
    if i == SLOTS || (f.refs.slots[i].Some? && answers[i] == QueryFailed) {
      QueryStops(w, id, answers, i);
    } else if f.refs.slots[i].None? || answers[i] == Busy {
      QueryEffect(w, id, answers, i + 1);
      QuerySkips(w, QueryAndRemove(w, id, answers, i + 1), id, answers, i);
    } else {
      QueryDestroys(w, id, answers, i);
    }
  }

  /** After the last slot, or at a failed query, nothing more happens. */
  lemma QueryStops(w: World, id: FlowId, answers: seq<Answer>, i: nat)
    requires Inv(w) && id in w.flows && |w.flows[id].refs.slots| == |answers| == SLOTS && i <= SLOTS
    requires i == SLOTS || (w.flows[id].refs.slots[i].Some? && answers[i] == QueryFailed)
    ensures QueryPost(w, Done(w), id, answers, i) && QueryAndRemove(w, id, answers, i) == Done(w)
  {
    SlotsAreCounted(w, id);
    assert Idled(w.flows[id].refs.slots, answers, i) == {};
    assert w.flows[id := w.flows[id].(refs := w.flows[id].refs)] == w.flows;
    assert w.ctxs - {} == w.ctxs && RulesOf(w.ctxs, id) - {} == RulesOf(w.ctxs, id);
  }

  /** A slot that is free or busy is passed over. */
  lemma QuerySkips(w: World, o: Outcome, id: FlowId, answers: seq<Answer>, i: nat)
    requires id in w.flows && |w.flows[id].refs.slots| == |answers| == SLOTS && i < SLOTS
    requires w.flows[id].refs.slots[i].None? || answers[i] == Busy
    requires QueryPost(w, o, id, answers, i + 1)
    ensures QueryPost(w, o, id, answers, i)
  {
    var slots := w.flows[id].refs.slots;
    assert Idled(slots, answers, i) == Idled(slots, answers, i + 1);
    assert Cleared(slots, answers, i) == Cleared(slots, answers, i + 1);
  }

  lemma {:induction false} QueryDestroys(w: World, id: FlowId, answers: seq<Answer>, i: nat)
    requires Inv(w) && id in w.flows && |w.flows[id].refs.slots| == |answers| == SLOTS && i < SLOTS
    requires w.flows[id].refs.slots[i].Some? && answers[i] == Idle
    ensures QueryPost(w, QueryAndRemove(w, id, answers, i), id, answers, i)
    decreases SLOTS - i, 0
  {
    DestroySlot(w, id, i);
    SlotsAreCounted(w, id);
    var c := w.flows[id].refs.slots[i].value;
    var v := DestroyCtx(w, c);
    var o := QueryAndRemove(v, id, answers, i + 1);
    if id in v.flows { QueryEffect(v, id, answers, i + 1); }
    QueryStep(w, v, o, id, answers, i, c);
    assert QueryAndRemove(w, id, answers, i) == o;
  }

  /** One destroyed rule and the rest of the pass compose. */
  lemma QueryStep(w: World, v: World, o: Outcome, id: FlowId, answers: seq<Answer>, i: nat, c: CtxId)
    requires id in w.flows && |w.flows[id].refs.slots| == |answers| == SLOTS && i < SLOTS
    requires w.flows[id].refs.slots[i] == Some(c) && answers[i] == Idle
    requires forall j :: 0 <= j < SLOTS && w.flows[id].refs.slots[j].Some? ==>
               w.flows[id].refs.slots[j].value in w.ctxs && w.ctxs[w.flows[id].refs.slots[j].value] == AgeCtx(id, j)
    requires v.ctxs == w.ctxs - {c} && RulesOf(v.ctxs, id) == RulesOf(w.ctxs, id) - {c}
    requires id in v.flows <==> !(w.flows[id].refs.aged && RulesOf(w.ctxs, id) == {c})
    requires id in v.flows ==>
               && OnlyRulesDropped(w, v, id) && v.flows[id].refs.slots == w.flows[id].refs.slots[i := None]
               && QueryPost(v, o, id, answers, i + 1)
    requires id !in v.flows ==> o.UsesFreed? || id !in o.w.flows
    ensures QueryPost(w, o, id, answers, i)
  {
    var f := w.flows[id];
    var rest := Idled(f.refs.slots, answers, i + 1);
    IdledFrom(w.ctxs, id, f, answers, i + 1);
    assert Idled(f.refs.slots, answers, i) == {c} + rest && c !in rest;
    assert RulesOf(w.ctxs, id) <= {c} + rest <==> RulesOf(v.ctxs, id) <= rest;
    if id in v.flows { IdledIgnoresEarlier(f, v.flows[id], answers, i + 1); }
  }

  /** An aging visit goes on using a freed flow exactly when it queries an aged flow all of whose rules
      are destroyed by that query; otherwise it keeps the invariant. */
  lemma VisitSafeIff(cfg: Config, w: World, key: FlowKey, now: uint64, hz: uint64, answers: seq<Answer>)
    requires Inv(w) && |answers| == SLOTS
    ensures AgeVisit(cfg, w, key, now, hz, answers).UsesFreed? <==> DropsLastReference(cfg, w, key, answers)
    ensures AgeVisit(cfg, w, key, now, hz, answers).Done? ==> Inv(AgeVisit(cfg, w, key, now, hz, answers).w)
  {
    if key in w.table {
      var id := w.table[key];
      SlotsAreCounted(w, id);
      QueryStageShape(cfg, w, key.proto, id, answers);
      var o := QueryStage(cfg, w, key.proto, id, answers);
      if o.Done? && id in o.w.flows && !o.w.flows[id].refs.aged { AgeOutKeepsInv(o.w, id); }
    }
  }

  /** A query stage either frees the flow because it had aged and lost every rule, or drops rules only. */
  lemma QueryStageShape(cfg: Config, w: World, proto: uint8, id: FlowId, answers: seq<Answer>)
    requires Inv(w) && id in w.flows && |w.flows[id].refs.slots| == |answers| == SLOTS
    ensures var o := QueryStage(cfg, w, proto, id, answers);
            if cfg.offload && proto == TCP && LosesAll(w, id, answers, 0) then o.UsesFreed? || id !in o.w.flows
            else o.Done? && Inv(o.w) && OnlyRulesDropped(w, o.w, id)
  {
    if cfg.offload && proto == TCP {
      QueryEffect(w, id, answers, 0);
      QueryKeepsInv(w, id, answers, 0);
    } else {
      assert w.flows[id := w.flows[id]] == w.flows;
    }
  }

  /** A safe visit first drops rules only, then ages the flow out if it timed out and had not aged. */
  lemma VisitShape(cfg: Config, w: World, key: FlowKey, now: uint64, hz: uint64, answers: seq<Answer>)
      returns (v: World)
    requires Inv(w) && key in w.table && |answers| == SLOTS && !DropsLastReference(cfg, w, key, answers)
    ensures Done(v) == QueryStage(cfg, w, key.proto, w.table[key], answers)
    ensures Inv(v) && OnlyRulesDropped(w, v, w.table[key])
    ensures AgeVisit(cfg, w, key, now, hz, answers)
            == var id := w.table[key];
               Done(if TimedOut(v.flows[id], now, hz) && !v.flows[id].refs.aged then AgeOut(v, id) else v)
  {
    SlotsAreCounted(w, w.table[key]);
    QueryStageShape(cfg, w, key.proto, w.table[key], answers);
    v := QueryStage(cfg, w, key.proto, w.table[key], answers).w;
  }

  /** Dropping the software reference a second time breaks the count. */
  lemma SecondAgeOutBreaksCount(w: World, id: FlowId)
    requires Inv(w) && id in w.flows && w.flows[id].refs.aged
    ensures !Referenced(AgeOut(w, id))
  {
    var f, v := w.flows[id], AgeOut(w, id);
    assert Counts(w.ctxs, id, f.refs);
    SlotsAreCounted(w, id);
    if f.refs.count == 1 {
      var rules := RulesOf(w.ctxs, id);
      var c := PickFrom(rules);
      assert c in v.ctxs && v.ctxs[c].flow !in v.flows;
    } else {
      assert !Counts(v.ctxs, id, v.flows[id].refs);
    }
  }

  /** A forced removal either loses an aged flow with its last rule, or first drops rules only and then ages
      the flow out. */
  lemma RemoveShape(cfg: Config, w: World, id: FlowId) returns (v: World)
    requires Inv(w) && id in w.flows
    ensures ForcedRemove(cfg, w, id).Done? || !w.flows[id].refs.aged ==>
              Inv(v) && id in v.flows && OnlyRulesDropped(w, v, id) && ForcedRemove(cfg, w, id) == Done(AgeOut(v, id))
  {
    v := w;
    if cfg.offload {
      var answers := seq(SLOTS, _ => Idle);
      SlotsAreCounted(w, id);
      QueryEffect(w, id, answers, 0);
      QueryKeepsInv(w, id, answers, 0);
      var o := QueryAndRemove(w, id, answers, 0);
      if o.Done? { v := o.w; }
    } else {
      assert w.flows[id := w.flows[id]] == w.flows;
    }
  }

  /** Forced removal completes with exact reference counts if and only if the flow has not aged. */
  lemma ForcedRemoveIff(cfg: Config, w: World, id: FlowId)
    requires Inv(w) && id in w.flows
    ensures ForcedRemove(cfg, w, id).Done? && Inv(ForcedRemove(cfg, w, id).w) <==> !w.flows[id].refs.aged
  {
    var v := RemoveShape(cfg, w, id);
    if !w.flows[id].refs.aged {
      AgeOutKeepsInv(v, id);
    } else if ForcedRemove(cfg, w, id).Done? {
      SecondAgeOutBreaksCount(v, id);
    }
  }

  /** Without offloading a live flow has no rule and has not aged, so forced removal always completes
      and frees it. */
  lemma WithoutRulesNothingIsAged(w: World, id: FlowId)
    requires Inv(w) && id in w.flows && w.ctxs == map[]
    ensures !w.flows[id].refs.aged && w.flows[id].refs.count == 1
    ensures id !in AgeOut(w, id).flows
  {
    assert Counts(w.ctxs, id, w.flows[id].refs);
    assert RulesOf(w.ctxs, id) == {};
  }

  // ----- Every step keeps the invariant -----

  predicate SameLinks(f: Flow, g: Flow) {
    f.org == g.org && f.reply == g.reply && f.refs == g.refs
  }

  /** Seeing a packet changes neither the keys, the references nor the NAT marks of a flow. */
  predicate SameMarks(f: Flow, g: Flow) {
    SameLinks(f, g) && f.marks == g.marks
  }

  lemma TouchKeepsMarks(cfg: Config, f: Flow, dir: Dir, p: PktInfo)
    ensures SameMarks(f, SetOffloadFlag(cfg, f, dir, p))
    ensures SameMarks(f, Touch(cfg, f, dir, p))
  {
  }

  /** Changing fields of a flow that are neither keys nor references keeps the invariant. */
  lemma UpdateKeepsInv(w: World, id: FlowId, f: Flow)
    requires Inv(w) && id in w.flows && KeysAgree(f)
    requires SameLinks(w.flows[id], f)
    ensures Inv(Update(w, id, f))
  {
    assert Counts(w.ctxs, id, w.flows[id].refs);
  }

  lemma HitKeepsInv(cfg: Config, w: World, id: FlowId, dir: Dir, p: PktInfo)
    requires Inv(w) && id in w.flows
    ensures Inv(Update(w, id, SetOffloadFlag(cfg, w.flows[id], dir, p)))
    ensures Inv(Update(w, id, Touch(cfg, w.flows[id], dir, p)))
  {
    TouchKeepsMarks(cfg, w.flows[id], dir, p);
    UpdateKeepsInv(w, id, SetOffloadFlag(cfg, w.flows[id], dir, p));
    UpdateKeepsInv(w, id, Touch(cfg, w.flows[id], dir, p));
  }

  /** Creating a flow adds an entry under its key and one under the inverse, or, when an insertion fails,
      leaves the table and the flows as they were. */
  lemma InsertKeepsInv(cfg: Config, w: World, key: FlowKey, p: PktInfo, id: FlowId, ok1: bool, ok2: bool)
    requires Inv(w) && id !in w.flows && key !in w.table
    ensures var (w', ok) := Insert(cfg, w, key, p, id, ok1, ok2);
            && (ok <==> ok1 && ok2)
            && (if ok then
                  && Inv(Forget(w')) && w'.flows == w.flows[id := NewFlow(cfg, key, p)]
                  && w'.table == w.table[key := id][InvertKey(key) := id]
                else Inv(w') && w'.table == w.table && w'.flows == w.flows)
  {
    if ok1 && ok2 {
      NewFlowIsCounted(cfg, w, key, p, id);
      assert KeysAgree(NewFlow(cfg, key, p));
    } else if ok1 {
      assert w.table[key := id] - {key} == w.table;
    }
  }

  lemma NewFlowIsCounted(cfg: Config, w: World, key: FlowKey, p: PktInfo, id: FlowId)
    requires Referenced(w) && id !in w.flows
    ensures Counts(w.ctxs, id, NewFlow(cfg, key, p).refs)
  {
    forall c | c in w.ctxs ensures w.ctxs[c].flow != id {}
    assert RulesOf(w.ctxs, id) == {};
  }

  lemma RecachingKeepsInv(w: World, key: FlowKey)
    requires Inv(Forget(w)) && key in w.table
    ensures Inv(w.(cache := Some(Cached(key, w.table[key]))))
  {
  }

  lemma GetFlowKeepsInv(cfg: Config, w: World, key: FlowKey, p: PktInfo, id: FlowId, ok1: bool, ok2: bool)
    requires Inv(w) && id !in w.flows
    ensures var g := GetFlow(cfg, w, key, p, id, ok1, ok2);
            Inv(g.w) && (g.flow.Some? ==> g.flow.value in g.w.flows)
  {
    if key in w.table {
      var f := w.table[key];
      HitKeepsInv(cfg, w, f, Direction(w.flows[f], key, p.dir), p);
      RecachingKeepsInv(Lookup(cfg, w, key, p, id, ok1, ok2).w, key);
    } else {
      InsertKeepsInv(cfg, w, key, p, id, ok1, ok2);
      var (w', ok) := Insert(cfg, w, key, p, id, ok1, ok2);
      if ok { RecachingKeepsInv(w', key); }
    }
  }

  lemma HandleKeepsInv(cfg: Config, w: World, key: FlowKey, p: PktInfo, id: FlowId, ok1: bool, ok2: bool)
    requires Inv(w) && id !in w.flows
    ensures Inv(Handle(cfg, w, key, p, id, ok1, ok2).w)
  {
    GetFlowKeepsInv(cfg, w, key, p, id, ok1, ok2);
    var g := GetFlow(cfg, w, key, p, id, ok1, ok2);
    if g.flow.Some? { HitKeepsInv(cfg, g.w, g.flow.value, g.dir, p); }
  }

  /** After the lookup a packet changes only the flow it found. */
  lemma HandleUpdates(cfg: Config, w: World, key: FlowKey, p: PktInfo, added: FlowId, ok1: bool, ok2: bool, id: FlowId)
    requires Inv(w) && added !in w.flows
    requires var g := GetFlow(cfg, w, key, p, added, ok1, ok2);
             id in g.w.flows && (g.flow.Some? ==> g.flow.value in g.w.flows)
    ensures var g, v := GetFlow(cfg, w, key, p, added, ok1, ok2), Handle(cfg, w, key, p, added, ok1, ok2).w;
            && id in v.flows
            && v.flows[id] == if g.flow == Some(id) then Touch(cfg, g.w.flows[id], g.dir, p) else g.w.flows[id]
  {
  }

  /** Replacing the reply key: the old entry goes, the new one is added or not, no stale entry stays. */
  lemma ReplaceReplyKeepsInv(w: World, id: FlowId, f: Flow, reply: FlowKey, addOk: bool)
    requires Inv(w) && id in w.flows && KeysAgree(f.(reply := reply))
    requires SameLinks(w.flows[id], f)
    ensures Inv(ReplaceReply(w, id, f, reply, addOk))
  {
    assert Counts(w.ctxs, id, w.flows[id].refs);
    var v := ReplaceReply(w, id, f, reply, addOk);
    forall k | k in v.table
      ensures v.table[k] in v.flows && (k == v.flows[v.table[k]].org || k == v.flows[v.table[k]].reply)
    {
    }
  }

  lemma SnatKeepsInv(w: World, id: FlowId, d: SnatData, vni: uint32, hash: uint32, overloadOk: bool, portmapOk: bool,
      addOk: bool)
    requires Inv(w) && id in w.flows
    ensures Inv(Snat(w, id, d, vni, hash, overloadOk, portmapOk, addOk))
  {
    var f := w.flows[id];
    assert KeysAgree(f);
    if f.marks.flags == {} && f.org.src.IPv4? && f.org.dst.IPv4? && (d.vipIp != 0 || d.natIp != 0) {
      var f1 := if d.vipIp != 0 then f.(marks := f.marks.(natType := NatVip)) else f;
      if d.natIp == 0 {
        ReplaceReplyKeepsInv(w, id, f1.(marks := f1.marks.(flags := {SrcNat})), f.reply.(dst := IPv4(d.vipIp)), addOk);
      } else {
        var (t, port) := Allocate(w.ports, RequestFor(f.org, d, vni, hash), overloadOk, portmapOk);
        NatKeepsInv(w, id, f1, t, d.natIp, if port.Some? then port.value else 0, vni, addOk);
      }
    }
  }

  /** The network-NAT half of source NAT, for any new port tables and any port. */
  lemma NatKeepsInv(w: World, id: FlowId, f1: Flow, t: Tables, natIp: uint32, port: uint16, vni: uint32, addOk: bool)
    requires Inv(w) && id in w.flows && w.flows[id].marks.flags == {}
    requires w.flows[id].org.src.IPv4? && w.flows[id].org.dst.IPv4?
    requires f1 == w.flows[id] || f1 == w.flows[id].(marks := w.flows[id].marks.(natType := NatVip))
    ensures Inv(Update(w.(ports := t), id, f1))
    ensures var f2 := f1.(marks := f1.marks.(natType := NatLocal, natVni := vni, flags := {SrcNat}));
            var reply := f1.reply.(dst := IPv4(natIp), portDst := port);
            && Inv(ReplaceReply(w.(ports := t), id, f2, reply, addOk))
            && Inv(ReplaceReply(w.(ports := t), id, NeverOffloaded(f2), reply, addOk))
  {
    PortsKeepInv(w, t);
    assert KeysAgree(w.flows[id]);
    UpdateKeepsInv(w.(ports := t), id, f1);
    var f2 := f1.(marks := f1.marks.(natType := NatLocal, natVni := vni, flags := {SrcNat}));
    var reply := f1.reply.(dst := IPv4(natIp), portDst := port);
    ReplaceReplyKeepsInv(w.(ports := t), id, f2, reply, addOk);
    ReplaceReplyKeepsInv(w.(ports := t), id, NeverOffloaded(f2), reply, addOk);
  }

  lemma PortsKeepInv(w: World, t: Tables)
    requires Inv(w)
    ensures Inv(w.(ports := t))
  {
  }

  lemma DnatKeepsInv(w: World, id: FlowId, dnatIp: uint32, addOk: bool)
    requires Inv(w) && id in w.flows
    ensures Inv(Dnat(w, id, dnatIp, addOk))
  {
    var f := w.flows[id];
    if f.marks.flags == {} && f.org.src.IPv4? && f.org.dst.IPv4? {
      assert KeysAgree(f);
      ReplaceReplyKeepsInv(w, id, f.(marks := f.marks.(flags := {DstNat})), f.reply.(src := IPv4(dnatIp)), addOk);
    }
  }

  lemma RelayKeepsInv(w: World, id: FlowId, lb: bool)
    requires Inv(w) && id in w.flows
    ensures Inv(Relay(w, id, lb))
  {
    var f := w.flows[id];
    assert KeysAgree(f);
    if f.marks.flags == {} {
      UpdateKeepsInv(w, id, Relayed(f, lb));
      DeleteKeepsInv(Update(w, id, Relayed(f, lb)), f.reply);
    }
  }

  lemma DeleteKeepsInv(w: World, k: FlowKey)
    requires Inv(w)
    ensures Inv(DeleteFlow(w, k))
  {
  }

  lemma MarkKeepsInv(w: World, id: FlowId, m: Mark)
    requires Inv(w) && id in w.flows
    ensures Inv(MarkFlow(w, id, m))
  {
    var f, v := w.flows[id], MarkFlow(w, id, m);
    assert KeysAgree(f);
    assert KeysAgree(v.flows[id]) && SameLinks(f, v.flows[id]);
    UpdateKeepsInv(w, id, v.flows[id]);
    assert v == w || v == Update(w, id, v.flows[id]);
  }

  lemma InstallKeepsInv(w: World, id: FlowId, c: CtxId, tcp: bool, hwOk: bool)
    requires Inv(w) && id in w.flows && c !in w.ctxs
    ensures Inv(InstallRule(w, id, c, tcp, hwOk))
  {
    var w' := InstallRule(w, id, c, tcp, hwOk);
    assert Counts(w.ctxs, id, w.flows[id].refs);
    if w' != w {
      forall j | j in w'.flows ensures Counts(w'.ctxs, j, w'.flows[j].refs) {
        InstallKeepsCounts(w, id, c, tcp, hwOk, j);
      }
    }
  }

  lemma InstallKeepsCounts(w: World, id: FlowId, c: CtxId, tcp: bool, hwOk: bool, j: FlowId)
    requires Inv(w) && id in w.flows && c !in w.ctxs && j in w.flows
    ensures var w' := InstallRule(w, id, c, tcp, hwOk);
            j in w'.flows && Counts(w'.ctxs, j, w'.flows[j].refs)
  {
    var w' := InstallRule(w, id, c, tcp, hwOk);
    assert Counts(w.ctxs, id, w.flows[id].refs) && Counts(w.ctxs, j, w.flows[j].refs);
    if w' != w { RulesAdd(w.ctxs, c, w'.ctxs[c], j); }
  }

  /** Installing a rule takes exactly one reference and, for TCP, one slot that was free; it changes nothing
      exactly when the hardware refuses or no slot is free for a TCP rule. */
  lemma InstallTakesOneReference(w: World, id: FlowId, c: CtxId, tcp: bool, hwOk: bool)
    requires Inv(w) && id in w.flows && c !in w.ctxs
    ensures var w', r := InstallRule(w, id, c, tcp, hwOk), w.flows[id].refs;
            if hwOk && (tcp ==> None in r.slots) then
              && RulesOf(w'.ctxs, id) == RulesOf(w.ctxs, id) + {c}
              && id in w'.flows && w'.flows[id].refs.count == r.count + 1
              && (if tcp then
                    exists i :: 0 <= i < |r.slots| && r.slots[i].None?
                        && w'.flows[id].refs.slots == r.slots[i := Some(c)]
                  else w'.flows[id].refs.slots == r.slots)
            else w' == w
  {
    SlotsAreCounted(w, id);
    var i := FirstFreeSlot(w.flows[id].refs.slots);
    assert i < SLOTS <==> None in w.flows[id].refs.slots;
  }

  lemma StepKeepsInv(cfg: Config, w: World, op: Op)
    requires Inv(w) && Legal(cfg, w, op)
    ensures Inv(Step(cfg, w, op))
  {
    match op
    case Packet(key, p, id, ok1, ok2) => HandleKeepsInv(cfg, w, key, p, id, ok1, ok2);
    case DoSnat(id, d, vni, hash, overloadOk, portmapOk, addOk) =>
      SnatKeepsInv(w, id, d, vni, hash, overloadOk, portmapOk, addOk);
    case DoDnat(id, dnatIp, addOk) => DnatKeepsInv(w, id, dnatIp, addOk);
    case DoRelay(id, lb) => RelayKeepsInv(w, id, lb);
    case DoMark(id, m) => MarkKeepsInv(w, id, m);
    case Install(id, c, tcp, hwOk) => InstallKeepsInv(w, id, c, tcp, hwOk);
    case RuleAged(c) => DestroyKeepsInv(w, c);
    case Visit(key, now, hz, answers) => VisitSafeIff(cfg, w, key, now, hz, answers);
    case Remove(id) => ForcedRemoveIff(cfg, w, id);
  }

  // ----- Runs -----

  ghost predicate LegalRun(cfg: Config, w: World, ops: seq<Op>)
    requires Inv(w)
    decreases |ops|
  {
    ops == [] ||
    (Legal(cfg, w, ops[0]) && (StepKeepsInv(cfg, w, ops[0]); LegalRun(cfg, Step(cfg, w, ops[0]), ops[1..])))
  }

  function RunAll(cfg: Config, w: World, ops: seq<Op>): (w': World)
    requires Inv(w) && LegalRun(cfg, w, ops)
    ensures Inv(w')
    decreases |ops|
  {
    if ops == [] then w
    else
      StepKeepsInv(cfg, w, ops[0]);
      RunAll(cfg, Step(cfg, w, ops[0]), ops[1..])
  }

  /** In every state reachable from the initial one, whatever hash insertions, rule installations and
      hardware queries failed on the way: a lookup through the cache is a lookup in the table; a table
      hit is a live flow under one of its two keys; and every live flow counts exactly its rules plus
      its software reference. */
  lemma {:induction false} ReachableStatesAreSafe(cfg: Config, ops: seq<Op>, key: FlowKey, p: PktInfo, id: FlowId,
      ok1: bool, ok2: bool)
    requires LegalRun(cfg, Initial, ops)
    ensures var w := RunAll(cfg, Initial, ops);
            && Inv(w)
            && (var g, u := GetFlow(cfg, w, key, p, id, ok1, ok2), Lookup(cfg, Forget(w), key, p, id, ok1, ok2);
                g.flow == u.flow && g.dir == u.dir && Forget(g.w) == Forget(u.w))
            && (key in w.table ==>
                  && w.table[key] in w.flows
                  && key == (if Direction(w.flows[w.table[key]], key, p.dir) == Org then w.flows[w.table[key]].org
                             else w.flows[w.table[key]].reply))
            && (forall f :: f in w.flows ==>
                  w.flows[f].refs.count == |RulesOf(w.ctxs, f)| + (if w.flows[f].refs.aged then 0 else 1) > 0)
  {
    var w := RunAll(cfg, Initial, ops);
    CacheRefinesLookup(cfg, w, key, p, id, ok1, ok2);
    if key in w.table { HitHasDefiniteDirection(w, key, p.dir); }
    forall f | f in w.flows
      ensures w.flows[f].refs.count == |RulesOf(w.ctxs, f)| + (if w.flows[f].refs.aged then 0 else 1) > 0
    {
      assert Counts(w.ctxs, f, w.flows[f].refs);
    }
  }

  /** A relayed flow expects no reply: its reply key is no longer in the table. */
  lemma RelayedFlowHasNoReply(w: World, id: FlowId, lb: bool)
    requires Inv(w) && id in w.flows && w.flows[id].marks.flags == {}
    ensures var v := Relay(w, id, lb);
            && v.flows[id].reply !in v.table
            && (v.flows[id].reply != v.flows[id].org && v.flows[id].org in w.table ==> v.flows[id].org in v.table)
  {
  }
}
