/**
 The software aging pass over the whole flow table. The hash iterator yields the positions of the
 table in some order; a position whose entry has been removed meanwhile is skipped.
 */
module FlowAging {
  import opened Words
  import opened FlowKeys
  import opened TcpTracking
  import opened FlowModel
  import opened FlowSafety

  ghost predicate AnswersFit(order: seq<FlowKey>, answers: seq<seq<Answer>>) {
    |answers| == |order| && forall i :: 0 <= i < |answers| ==> |answers[i]| == SLOTS
  }

  /** `dp_process_aged_flows_non_offload` */
  function AgePass(cfg: Config, w: World, order: seq<FlowKey>, now: uint64, hz: uint64, answers: seq<seq<Answer>>)
      : (o: Outcome)
    requires Inv(w) && AnswersFit(order, answers)
    ensures o.Done? ==> Inv(o.w)
    decreases |order|
  {
    if order == [] then Done(w)
    else
      VisitSafeIff(cfg, w, order[0], now, hz, answers[0]);
      match AgeVisit(cfg, w, order[0], now, hz, answers[0])
      case UsesFreed => UsesFreed
      case Done(w1) => AgePass(cfg, w1, order[1..], now, hz, answers[1..])
  }

  /** The live flows that timed out and are reachable through one of the visited keys. */
  ghost function Expired(w: World, order: seq<FlowKey>, now: uint64, hz: uint64): set<FlowId> {
    set id |
      && id in w.flows && TimedOut(w.flows[id], now, hz)
      && exists k :: k in order && k in w.table && w.table[k] == id
  }

  /** No flow's entry has been taken over by another flow with the same key. */
  ghost predicate Unshared(w: World) {
    forall k, id :: k in w.table && id in w.flows && (k == w.flows[id].org || k == w.flows[id].reply) ==>
        w.table[k] == id
  }

  /** Visiting one key with offloading off: the flow found there is freed if it timed out, and nothing
      else happens. */
  lemma VisitWithoutOffload(cfg: Config, w: World, key: FlowKey, now: uint64, hz: uint64, answers: seq<Answer>)
    requires Inv(w) && !cfg.offload && w.ctxs == map[] && |answers| == SLOTS
    ensures var o := AgeVisit(cfg, w, key, now, hz, answers);
            && o.Done? && Inv(o.w) && o.w.ctxs == map[]
            && (if key in w.table && TimedOut(w.flows[w.table[key]], now, hz) then
                  var f := w.flows[w.table[key]];
                  o.w.flows == w.flows - {w.table[key]} && o.w.table == w.table - {f.org, f.reply}
                else o.w == w)
  {
    if key in w.table {
      WithoutRulesNothingIsAged(w, w.table[key]);
      AgeOutWithoutRules(w, w.table[key]);
    }
  }

  lemma AgeOutWithoutRules(w: World, id: FlowId)
    requires Inv(w) && w.ctxs == map[] && id in w.flows
    ensures var f, v := w.flows[id], AgeOut(w, id);
            && Inv(v) && v.ctxs == map[]
            && v.flows == w.flows - {id} && v.table == w.table - {f.org, f.reply}
  {
    WithoutRulesNothingIsAged(w, id);
    AgeOutKeepsInv(w, id);
    RemoveBoth(w.table, w.flows[id].org, w.flows[id].reply);
  }

  lemma RemoveBoth<K, V>(m: map<K, V>, a: K, b: K)
    ensures m - {a} - {b} == m - {a, b}
  {
  }

  /** With offloading off a whole pass never uses a freed flow and frees only flows that timed out; it
      frees every visited one of them, once, although each sits under two keys, unless another flow
      has taken over an entry. */
  lemma {:induction false} PassFreesExpired(cfg: Config, w: World, order: seq<FlowKey>, now: uint64, hz: uint64,
      answers: seq<seq<Answer>>)
    requires Inv(w) && !cfg.offload && w.ctxs == map[] && AnswersFit(order, answers)
    ensures var o := AgePass(cfg, w, order, now, hz, answers);
            && o.Done?
            && w.flows.Keys - Expired(w, order, now, hz) <= o.w.flows.Keys <= w.flows.Keys
            && (forall id :: id in o.w.flows ==> o.w.flows[id] == w.flows[id])
            && (Unshared(w) ==> o.w.flows.Keys == w.flows.Keys - Expired(w, order, now, hz))
    decreases |order|
  {
    if order != [] {
      VisitWithoutOffload(cfg, w, order[0], now, hz, answers[0]);
      var v := AgeVisit(cfg, w, order[0], now, hz, answers[0]).w;
      PassFreesExpired(cfg, v, order[1..], now, hz, answers[1..]);
      ExpiredStep(w, v, order, now, hz);
    }
  }

  /** State `v` is `w` after the first position of a pass with offloading off. */
  ghost predicate FirstVisited(w: World, v: World, order: seq<FlowKey>, now: uint64, hz: uint64)
    requires Owned(w) && order != []
  {
    if order[0] in w.table && TimedOut(w.flows[w.table[order[0]]], now, hz) then
      var f := w.flows[w.table[order[0]]];
      v.flows == w.flows - {w.table[order[0]]} && v.table == w.table - {f.org, f.reply}
    else v == w
  }

  /** How the expired flows of the rest of the pass relate to those of the whole. */
  lemma ExpiredStep(w: World, v: World, order: seq<FlowKey>, now: uint64, hz: uint64)
    requires Inv(w) && order != [] && FirstVisited(w, v, order, now, hz)
    ensures Expired(v, order[1..], now, hz) + (w.flows.Keys - v.flows.Keys) <= Expired(w, order, now, hz)
    ensures Unshared(w) ==>
              && Unshared(v)
              && Expired(w, order, now, hz) == Expired(v, order[1..], now, hz) + (w.flows.Keys - v.flows.Keys)
  {
    assert forall k :: k in order <==> k == order[0] || k in order[1..];
    if Unshared(w) {
      forall id | id in Expired(w, order, now, hz) && id in v.flows ensures id in Expired(v, order[1..], now, hz) {
        StillExpired(w, v, order, now, hz, id);
      }
    }
  }

  /** An expired flow that is still there after the first position is reached later. */
  lemma StillExpired(w: World, v: World, order: seq<FlowKey>, now: uint64, hz: uint64, id: FlowId)
    requires Inv(w) && order != [] && FirstVisited(w, v, order, now, hz) && Unshared(w)
    requires id in Expired(w, order, now, hz) && id in v.flows
    ensures id in Expired(v, order[1..], now, hz)
  {
    var k :| k in order && k in w.table && w.table[k] == id;
    assert k == order[0] || k in order[1..];
    if v != w {
      var first := w.table[order[0]];
      assert first in w.flows && w.table[k] != first;
      assert k != w.flows[first].org && k != w.flows[first].reply;
    }
    assert k in order[1..] && k in v.table && v.table[k] == id;
  }

  lemma StepWithoutOffload(cfg: Config, w: World, op: Op)
    requires Inv(w) && Legal(cfg, w, op) && !cfg.offload && w.ctxs == map[]
    ensures Step(cfg, w, op).ctxs == map[]
  {
    match op
    case Packet(key, p, id, ok1, ok2) => HandleKeepsRules(cfg, w, key, p, id, ok1, ok2);
    case DoSnat(id, d, vni, hash, o, q, addOk) => SnatKeepsRules(w, id, d, vni, hash, o, q, addOk);
    case DoDnat(_, _, _) =>
    case DoRelay(_, _) =>
    case DoMark(_, _) =>
    case Visit(key, now, hz, answers) => VisitWithoutOffload(cfg, w, key, now, hz, answers);
    case Remove(id) => ForcedRemoveIff(cfg, w, id);
  }

  lemma HandleKeepsRules(cfg: Config, w: World, key: FlowKey, p: PktInfo, id: FlowId, ok1: bool, ok2: bool)
    requires Inv(w) && id !in w.flows
    ensures Handle(cfg, w, key, p, id, ok1, ok2).w.ctxs == w.ctxs
  {
    assert GetFlow(cfg, w, key, p, id, ok1, ok2).w.ctxs == w.ctxs;
  }

  lemma SnatKeepsRules(w: World, id: FlowId, d: SnatData, vni: uint32, hash: uint32, o: bool, q: bool, addOk: bool)
    requires id in w.flows
    ensures Snat(w, id, d, vni, hash, o, q, addOk).ctxs == w.ctxs
  {
  }

  lemma {:induction false} RunWithoutOffload(cfg: Config, w: World, ops: seq<Op>)
    requires Inv(w) && LegalRun(cfg, w, ops) && !cfg.offload && w.ctxs == map[]
    ensures RunAll(cfg, w, ops).ctxs == map[]
    decreases |ops|
  {
    if ops != [] {
      StepKeepsInv(cfg, w, ops[0]);
      StepWithoutOffload(cfg, w, ops[0]);
      RunWithoutOffload(cfg, Step(cfg, w, ops[0]), ops[1..]);
    }
  }

  /** With offloading off, after every run from the initial state, an aging pass over the table in any order
      never uses a freed flow and frees only expired flows, all of the visited ones if no entry was taken
      over. */
  lemma ReachablePassFreesExpired(cfg: Config, ops: seq<Op>, order: seq<FlowKey>, now: uint64, hz: uint64,
      answers: seq<seq<Answer>>)
    requires LegalRun(cfg, Initial, ops) && !cfg.offload && AnswersFit(order, answers)
    ensures var w := RunAll(cfg, Initial, ops);
            var o := AgePass(cfg, w, order, now, hz, answers);
            && o.Done? && w.flows.Keys - Expired(w, order, now, hz) <= o.w.flows.Keys <= w.flows.Keys
            && (Unshared(w) ==> o.w.flows.Keys == w.flows.Keys - Expired(w, order, now, hz))
  {
    RunWithoutOffload(cfg, Initial, ops);
    PassFreesExpired(cfg, RunAll(cfg, Initial, ops), order, now, hz, answers);
  }

  // ----- A reachable state in which aging goes on using a freed flow -----

  const AllBusy: seq<Answer> := [Busy, Busy, Busy, Busy, Busy, Busy]
  const AllIdle: seq<Answer> := [Idle, Idle, Idle, Idle, Idle, Idle]

  /** A TCP flow with one hardware rule whose software reference has aged out while the rule was busy. */
  ghost predicate AgedOnRule(w: World, key: FlowKey, id: FlowId, c: CtxId) {
    && Inv(w) && key in w.table && w.table[key] == id && id in w.flows
    && w.flows[id].refs.aged && RulesOf(w.ctxs, id) == {c} && w.flows[id].refs.slots[0] == Some(c)
  }

  /** In such a state the next visit that finds the rule idle, and any forced removal, go wrong. */
  lemma AgedOnRuleGoesWrong(cfg: Config, w: World, key: FlowKey, id: FlowId, c: CtxId, now: uint64, hz: uint64)
    requires cfg.offload && key.proto == TCP && AgedOnRule(w, key, id, c)
    ensures AgeVisit(cfg, w, key, now, hz, AllIdle).UsesFreed?
    ensures ForcedRemove(cfg, w, id).Done? ==> !Inv(ForcedRemove(cfg, w, id).w)
  {
    SlotsAreCounted(w, id);
    assert c in Idled(w.flows[id].refs.slots, AllIdle, 0);
    VisitSafeIff(cfg, w, key, now, hz, AllIdle);
    ForcedRemoveIff(cfg, w, id);
  }

  /** Such a state is reached by a packet with RST, which is given the decision to install a rule, the
      installation of that rule, and a visit after the timeout. */
  lemma AgedOnRuleIsReachable(key: FlowKey, vnf: VnfType) returns (cfg: Config, ops: seq<Op>)
    requires key.proto == TCP && vnf != Lb
    ensures cfg.offload && LegalRun(cfg, Initial, ops)
    ensures AgedOnRule(RunAll(cfg, Initial, ops), key, 1, 7)
  {
    cfg := Config(true, 30);
    var p := PktInfo(TCP, vnf, Org, false, false, 0, false, Flags(false, false, false, true), 0);
    var a, b, c := Op.Packet(key, p, 1, true, true), Install(1, 7, true, true), Visit(key, 100, 1, AllBusy);
    FirstPacket(cfg, key, p);
    var w1 := Step(cfg, Initial, a);
    RuleInstalled(cfg, w1, key);
    var w2 := Step(cfg, w1, b);
    AgedWhileBusy(cfg, w2, key);
    var w3 := Step(cfg, w2, c);
    ops := [];
    PrependStep(cfg, w2, c, ops);
    ops := [c] + ops;
    PrependStep(cfg, w1, b, ops);
    ops := [b] + ops;
    PrependStep(cfg, Initial, a, ops);
    ops := [a] + ops;
  }

  lemma PrependStep(cfg: Config, w: World, op: Op, ops: seq<Op>)
    requires Inv(w) && Legal(cfg, w, op) && Inv(Step(cfg, w, op)) && LegalRun(cfg, Step(cfg, w, op), ops)
    ensures LegalRun(cfg, w, [op] + ops) && RunAll(cfg, w, [op] + ops) == RunAll(cfg, Step(cfg, w, op), ops)
  {
    assert ([op] + ops)[1..] == ops;
  }

  /** Flow 1 was created at time 0 with a timeout of 30, is to be offloaded, and has the given references. */
  ghost predicate Created(w: World, key: FlowKey, r: Refs) {
    && Inv(w) && key in w.table && w.table[key] == 1 && 1 in w.flows && w.flows[1].refs == r
    && w.flows[1].track.timestamp == 0 && w.flows[1].track.timeout == 30
    && w.flows[1].track.offOrig == OffloadInstall
  }

  const NoSlots: seq<Option<CtxId>> := [None, None, None, None, None, None]

  lemma FirstPacket(cfg: Config, key: FlowKey, p: PktInfo)
    requires cfg.offload && cfg.timeout == 30 && p.l4 == TCP && p.vnf != Lb && p.now == 0
    requires p.tcpFlags == Flags(false, false, false, true) && !p.isPf && !p.lbLocal
    ensures var op := Op.Packet(key, p, 1, true, true);
            && Legal(cfg, Initial, op) && Created(Step(cfg, Initial, op), key, Refs(1, false, NoSlots))
            && Step(cfg, Initial, op).ctxs == map[]
  {
    var op := Op.Packet(key, p, 1, true, true);
    StepKeepsInv(cfg, Initial, op);
    assert seq(SLOTS, _ => None) == NoSlots;
  }

  lemma RuleInstalled(cfg: Config, w: World, key: FlowKey)
    requires cfg.offload && Created(w, key, Refs(1, false, NoSlots)) && w.ctxs == map[]
    ensures var op := Install(1, 7, true, true);
            && Legal(cfg, w, op) && Created(Step(cfg, w, op), key, Refs(2, false, NoSlots[0 := Some(7)]))
            && Step(cfg, w, op).ctxs == map[7 := AgeCtx(1, 0)]
  {
    StepKeepsInv(cfg, w, Install(1, 7, true, true));
    assert FirstFreeSlot(NoSlots) == 0;
  }

  lemma AgedWhileBusy(cfg: Config, w: World, key: FlowKey)
    requires cfg.offload && key.proto == TCP && Created(w, key, Refs(2, false, NoSlots[0 := Some(7)]))
    requires w.ctxs == map[7 := AgeCtx(1, 0)]
    ensures var op := Visit(key, 100, 1, AllBusy);
            Legal(cfg, w, op) && AgedOnRule(Step(cfg, w, op), key, 1, 7)
  {
    assert Legal(cfg, w, Visit(key, 100, 1, AllBusy)) by {
      assert !DropsLastReference(cfg, w, key, AllBusy);
    }
    BusyVisitAges(cfg, w, key);
    AgeOutKeepsInv(w, 1);
    assert RulesOf(w.ctxs, 1) == {7};
  }

  lemma BusyVisitAges(cfg: Config, w: World, key: FlowKey)
    requires Created(w, key, Refs(2, false, NoSlots[0 := Some(7)]))
    ensures AgeVisit(cfg, w, key, 100, 1, AllBusy) == Done(AgeOut(w, 1))
  {
    BusyRulesStay(w, 1, 0);
    assert TimedOut(w.flows[1], 100, 1);
  }

  lemma {:induction false} BusyRulesStay(w: World, id: FlowId, i: nat)
    requires Referenced(w) && id in w.flows && i <= SLOTS
    ensures QueryAndRemove(w, id, AllBusy, i) == Done(w)
    decreases SLOTS - i
  {
    if i < SLOTS { BusyRulesStay(w, id, i + 1); }
  }
}
