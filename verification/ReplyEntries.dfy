/**
 How long the reply entry of a translated flow stays in the flow table, and with it the round trip of
 replies, over runs of the flow table.
 */
module ReplyEntries {
  import opened Words
  import opened FlowKeys
  import NatPorts
  import opened FlowModel
  import opened FlowSafety
  import opened NatRewrite
  import FlowNat

  /** The reply entry of flow `id` leads to it. */
  ghost predicate Placed(w: World, id: FlowId) {
    id in w.flows && w.flows[id].reply in w.table && w.table[w.flows[id].reply] == id
  }

  predicate Translated(f: Flow) {
    SrcNat in f.marks.flags || DstNat in f.marks.flags
  }

  /** No other live flow has `k` as its original key. */
  ghost predicate SoleOrg(w: World, k: FlowKey, id: FlowId) {
    forall j :: j in w.flows && j != id ==> k != w.flows[j].org
  }

  /** No other live flow has `k` as its reply key. */
  ghost predicate SoleReply(w: World, k: FlowKey, id: FlowId) {
    forall j :: j in w.flows && j != id ==> k != w.flows[j].reply
  }

  ghost predicate SoleUser(w: World, k: FlowKey, id: FlowId) {
    SoleOrg(w, k, id) && SoleReply(w, k, id)
  }

  /** State `v` still has the flow `id` of state `w`, with its keys, its marks and its reply entry. */
  ghost predicate StillPlaced(w: World, v: World, id: FlowId)
    requires id in w.flows
  {
    && Placed(v, id) && v.flows[id].org == w.flows[id].org && v.flows[id].reply == w.flows[id].reply
    && v.flows[id].marks == w.flows[id].marks
  }

  // ----- One step -----

  lemma PacketKeepsPlaced(cfg: Config, w: World, key: FlowKey, p: PktInfo, added: FlowId, ok1: bool, ok2: bool,
      id: FlowId)
    requires Inv(w) && added !in w.flows && Placed(w, id)
    requires SoleUser(Handle(cfg, w, key, p, added, ok1, ok2).w, w.flows[id].reply, id)
    ensures StillPlaced(w, Handle(cfg, w, key, p, added, ok1, ok2).w, id)
  {
    var g := GetFlow(cfg, w, key, p, added, ok1, ok2);
    GetFlowKeepsInv(cfg, w, key, p, added, ok1, ok2);
    GetFlowKeepsPlaced(cfg, w, key, p, added, ok1, ok2, id);
    if g.flow.Some? {
      TouchKeepsMarks(cfg, g.w.flows[g.flow.value], g.dir, p);
      var v := Handle(cfg, w, key, p, added, ok1, ok2).w;
      assert SameMarks(g.w.flows[g.flow.value], v.flows[g.flow.value]) && v.table == g.w.table;
    }
  }

  /** A lookup changes no entry; a creation changes only those of the new flow. */
  lemma GetFlowKeepsPlaced(cfg: Config, w: World, key: FlowKey, p: PktInfo, added: FlowId, ok1: bool, ok2: bool,
      id: FlowId)
    requires Inv(w) && added !in w.flows && Placed(w, id)
    ensures var g := GetFlow(cfg, w, key, p, added, ok1, ok2);
            StillPlaced(w, g.w, id)
            || (g.flow == Some(added) && added in g.w.flows
                && (w.flows[id].reply == g.w.flows[added].org || w.flows[id].reply == g.w.flows[added].reply))
  {
    if key in w.table {
      var f := w.flows[w.table[key]];
      TouchKeepsMarks(cfg, f, Direction(f, key, p.dir), p);
    } else {
      InsertKeepsPlaced(cfg, w, key, p, added, ok1, ok2, id);
    }
  }

  lemma InsertKeepsPlaced(cfg: Config, w: World, key: FlowKey, p: PktInfo, added: FlowId, ok1: bool, ok2: bool,
      id: FlowId)
    requires Inv(w) && added !in w.flows && key !in w.table && Placed(w, id)
    ensures var (v, ok) := Insert(cfg, w, key, p, added, ok1, ok2);
            StillPlaced(w, v, id) || (ok && (w.flows[id].reply == key || w.flows[id].reply == InvertKey(key)))
  {
    InsertKeepsInv(cfg, w, key, p, added, ok1, ok2);
  }

  lemma ReplaceKeepsPlaced(w: World, j: FlowId, f: Flow, reply: FlowKey, addOk: bool, id: FlowId)
    requires j in w.flows && j != id && Placed(w, id)
    requires w.flows[id].reply != f.reply && w.flows[id].reply != reply
    ensures StillPlaced(w, ReplaceReply(w, j, f, reply, addOk), id)
  {
  }

  lemma SnatKeepsPlaced(w: World, j: FlowId, d: SnatData, vni: uint32, hash: uint32, o: bool, q: bool, addOk: bool,
      id: FlowId)
    requires Inv(w) && j in w.flows && Placed(w, id) && Translated(w.flows[id])
    requires SoleUser(w, w.flows[id].reply, id)
    requires SoleUser(Snat(w, j, d, vni, hash, o, q, addOk), w.flows[id].reply, id)
    ensures StillPlaced(w, Snat(w, j, d, vni, hash, o, q, addOk), id)
  {
    var f, v := w.flows[j], Snat(w, j, d, vni, hash, o, q, addOk);
    assert j == id ==> v == w;
    if j != id && v != w {
      var f1 := if d.vipIp != 0 then f.(marks := f.marks.(natType := NatVip)) else f;
      if d.natIp == 0 {
        ReplaceKeepsPlaced(w, j, f1.(marks := f1.marks.(flags := {SrcNat})), v.flows[j].reply, addOk, id);
      } else {
        var (t, port) := NatPorts.Allocate(w.ports, RequestFor(f.org, d, vni, hash), o, q);
        if port.Some? {
          var f2 := f1.(marks := f1.marks.(natType := NatLocal, natVni := vni, flags := {SrcNat}));
          var f3 := if f.org.proto == ICMP then NeverOffloaded(f2) else f2;
          ReplaceKeepsPlaced(w.(ports := t), j, f3, v.flows[j].reply, addOk, id);
        }
      }
    }
  }

  lemma DnatKeepsPlaced(w: World, j: FlowId, dnatIp: uint32, addOk: bool, id: FlowId)
    requires Inv(w) && j in w.flows && Placed(w, id) && Translated(w.flows[id])
    requires SoleUser(w, w.flows[id].reply, id) && SoleUser(Dnat(w, j, dnatIp, addOk), w.flows[id].reply, id)
    ensures StillPlaced(w, Dnat(w, j, dnatIp, addOk), id)
  {
    var v := Dnat(w, j, dnatIp, addOk);
    assert j == id ==> v == w;
    assert j != id ==> w.flows[id].reply != w.flows[j].reply && w.flows[id].reply != v.flows[j].reply;
  }

  lemma RelayKeepsPlaced(w: World, j: FlowId, lb: bool, id: FlowId)
    requires Inv(w) && j in w.flows && Placed(w, id) && Translated(w.flows[id])
    requires SoleUser(w, w.flows[id].reply, id)
    ensures StillPlaced(w, Relay(w, j, lb), id)
  {
    assert j == id ==> Relay(w, j, lb) == w;
  }

  lemma MarkKeepsPlaced(w: World, j: FlowId, m: Mark, id: FlowId)
    requires Inv(w) && j in w.flows && Placed(w, id) && Translated(w.flows[id])
    ensures StillPlaced(w, MarkFlow(w, j, m), id)
  {
    assert KeysAgree(w.flows[id]);
    assert j == id ==> MarkFlow(w, j, m) == w;
  }

  lemma InstallKeepsPlaced(w: World, j: FlowId, c: CtxId, tcp: bool, hwOk: bool, id: FlowId)
    requires Inv(w) && j in w.flows && Placed(w, id)
    ensures StillPlaced(w, InstallRule(w, j, c, tcp, hwOk), id)
  {
  }

  /** Dropping a reference of any flow, unless it frees flow `id` itself. */
  lemma RefDecKeepsPlaced(w: World, j: FlowId, id: FlowId)
    requires j in w.flows && Placed(w, id) && SoleUser(w, w.flows[id].reply, id) && id in RefDec(w, j).flows
    ensures StillPlaced(w, RefDec(w, j), id)
  {
  }

  lemma DestroyKeepsPlaced(w: World, c: CtxId, id: FlowId)
    requires Inv(w) && c in w.ctxs && Placed(w, id) && SoleUser(w, w.flows[id].reply, id)
    requires id in DestroyCtx(w, c).flows
    ensures StillPlaced(w, DestroyCtx(w, c), id)
  {
    var x := w.ctxs[c];
    SlotsAreCounted(w, x.flow);
    var f := w.flows[x.flow];
    var u := Update(w, x.flow, f.(refs := f.refs.(slots := f.refs.slots[x.index := None]))).(ctxs := w.ctxs - {c});
    RefDecKeepsPlaced(u, x.flow, id);
  }

  lemma AgeOutKeepsPlaced(w: World, j: FlowId, id: FlowId)
    requires j in w.flows && Placed(w, id) && SoleUser(w, w.flows[id].reply, id) && id in AgeOut(w, j).flows
    ensures StillPlaced(w, AgeOut(w, j), id)
  {
    RefDecKeepsPlaced(Update(w, j, w.flows[j].(refs := w.flows[j].refs.(aged := true))), j, id);
  }

  /** Rules of a flow that were dropped without freeing it. */
  lemma DroppedKeepsPlaced(w: World, v: World, j: FlowId, id: FlowId)
    requires j in w.flows && OnlyRulesDropped(w, v, j) && Placed(w, id)
    ensures StillPlaced(w, v, id)
    ensures SoleUser(w, w.flows[id].reply, id) ==> SoleUser(v, w.flows[id].reply, id)
  {
  }

  lemma VisitKeepsPlaced(cfg: Config, w: World, key: FlowKey, now: uint64, hz: uint64, answers: seq<Answer>, id: FlowId)
    requires Inv(w) && |answers| == SLOTS && !DropsLastReference(cfg, w, key, answers)
    requires Placed(w, id) && SoleUser(w, w.flows[id].reply, id)
    ensures var o := AgeVisit(cfg, w, key, now, hz, answers);
            o.Done? && (id in o.w.flows ==> StillPlaced(w, o.w, id))
  {
    if key in w.table {
      var v := VisitShape(cfg, w, key, now, hz, answers);
      DroppedKeepsPlaced(w, v, w.table[key], id);
      if id in AgeOut(v, w.table[key]).flows { AgeOutKeepsPlaced(v, w.table[key], id); }
    }
  }

  lemma RemoveKeepsPlaced(cfg: Config, w: World, j: FlowId, id: FlowId)
    requires Inv(w) && j in w.flows && !w.flows[j].refs.aged && Placed(w, id) && SoleUser(w, w.flows[id].reply, id)
    ensures var o := ForcedRemove(cfg, w, j);
            o.Done? && (id in o.w.flows ==> StillPlaced(w, o.w, id))
  {
    var v := RemoveShape(cfg, w, j);
    DroppedKeepsPlaced(w, v, j, id);
    if id in AgeOut(v, j).flows { AgeOutKeepsPlaced(v, j, id); }
  }

  /** A step keeps the reply entry of a translated flow in place unless it frees the flow, or another live flow
      has the reply key before or after the step. */
  lemma StepKeepsPlaced(cfg: Config, w: World, op: Op, id: FlowId)
    requires Inv(w) && Legal(cfg, w, op) && Placed(w, id) && Translated(w.flows[id])
    requires SoleUser(w, w.flows[id].reply, id)
    requires id in Step(cfg, w, op).flows && SoleUser(Step(cfg, w, op), w.flows[id].reply, id)
    ensures StillPlaced(w, Step(cfg, w, op), id)
  {
    match op
    case Packet(key, p, added, ok1, ok2) => PacketKeepsPlaced(cfg, w, key, p, added, ok1, ok2, id);
    case DoSnat(j, d, vni, hash, o, q, addOk) => SnatKeepsPlaced(w, j, d, vni, hash, o, q, addOk, id);
    case DoDnat(j, dnatIp, addOk) => DnatKeepsPlaced(w, j, dnatIp, addOk, id);
    case DoRelay(j, lb) => RelayKeepsPlaced(w, j, lb, id);
    case DoMark(j, m) => MarkKeepsPlaced(w, j, m, id);
    case Install(j, c, tcp, hwOk) => InstallKeepsPlaced(w, j, c, tcp, hwOk, id);
    case RuleAged(c) => DestroyKeepsPlaced(w, c, id);
    case Visit(key, now, hz, answers) => VisitKeepsPlaced(cfg, w, key, now, hz, answers, id);
    case Remove(j) => RemoveKeepsPlaced(cfg, w, j, id);
  }

  // ----- Runs -----

  /** In every state of the run the flow is live and no other flow has `k` as its reply key. */
  ghost predicate Undisturbed(cfg: Config, w: World, ops: seq<Op>, id: FlowId, k: FlowKey)
    requires Inv(w) && LegalRun(cfg, w, ops)
    decreases |ops|
  {
    && id in w.flows && SoleReply(w, k, id)
    && (ops != [] ==>
          (StepKeepsInv(cfg, w, ops[0]); Undisturbed(cfg, Step(cfg, w, ops[0]), ops[1..], id, k)))
  }

  /** Original keys never change, and while the reply entry is in place no flow is created with its key. */
  lemma SoleOrgStays(cfg: Config, w: World, op: Op, id: FlowId)
    requires Inv(w) && Legal(cfg, w, op) && Placed(w, id) && SoleOrg(w, w.flows[id].reply, id)
    ensures SoleOrg(Step(cfg, w, op), w.flows[id].reply, id)
  {
    var k, v := w.flows[id].reply, Step(cfg, w, op);
    forall j | j in v.flows && j != id ensures k != v.flows[j].org { StepKeepsOrg(cfg, w, op, j); }
  }

  lemma StepKeepsOrg(cfg: Config, w: World, op: Op, j: FlowId)
    requires Inv(w) && Legal(cfg, w, op) && j in Step(cfg, w, op).flows
    ensures if j in w.flows then Step(cfg, w, op).flows[j].org == w.flows[j].org
            else op.Packet? && Step(cfg, w, op).flows[j].org == op.key && op.key !in w.table
  {
    match op
    case Packet(key, p, added, ok1, ok2) =>
      if j in w.flows { PacketKeepsTranslation(cfg, w, key, p, added, ok1, ok2, j); }
      else { NewOrg(cfg, w, key, p, added, ok1, ok2, j); }
    case DoSnat(i, d, vni, hash, o, q, addOk) => SnatKeepsOrg(w, i, d, vni, hash, o, q, addOk);
    case DoDnat(i, dnatIp, addOk) =>
    case DoRelay(i, lb) =>
    case DoMark(i, m) => MarkKeepsOrg(w, i, m);
    case Install(i, c, tcp, hwOk) =>
    case RuleAged(c) => DestroyKeepsOrg(w, c);
    case Visit(key, now, hz, answers) =>
      if key in w.table {
        var v := VisitShape(cfg, w, key, now, hz, answers);
        AgeOutKeepsOrg(w, v, w.table[key]);
      }
    case Remove(i) =>
      var v := RemoveShape(cfg, w, i);
      AgeOutKeepsOrg(w, v, i);
  }

  /** No flow is added and every flow that stays keeps its original key. */
  ghost predicate SameOrgs(w: World, v: World) {
    forall j :: j in v.flows ==> j in w.flows && v.flows[j].org == w.flows[j].org
  }

  lemma SnatKeepsOrg(w: World, i: FlowId, d: SnatData, vni: uint32, hash: uint32, o: bool, q: bool, addOk: bool)
    requires i in w.flows
    ensures SameOrgs(w, Snat(w, i, d, vni, hash, o, q, addOk))
  {
  }

  lemma MarkKeepsOrg(w: World, i: FlowId, m: Mark)
    requires i in w.flows
    ensures SameOrgs(w, MarkFlow(w, i, m))
  {
  }

  lemma DestroyKeepsOrg(w: World, c: CtxId)
    requires Inv(w) && c in w.ctxs
    ensures SameOrgs(w, DestroyCtx(w, c))
  {
    SlotsAreCounted(w, w.ctxs[c].flow);
  }

  lemma AgeOutKeepsOrg(w: World, v: World, i: FlowId)
    requires i in w.flows && OnlyRulesDropped(w, v, i)
    ensures SameOrgs(w, v) && SameOrgs(w, AgeOut(v, i))
  {
  }

  lemma NewOrg(cfg: Config, w: World, key: FlowKey, p: PktInfo, added: FlowId, ok1: bool, ok2: bool, j: FlowId)
    requires Inv(w) && added !in w.flows && j !in w.flows
    requires j in Handle(cfg, w, key, p, added, ok1, ok2).w.flows
    ensures Handle(cfg, w, key, p, added, ok1, ok2).w.flows[j].org == key && key !in w.table
  {
    var g := GetFlow(cfg, w, key, p, added, ok1, ok2);
    GetFlowKeepsInv(cfg, w, key, p, added, ok1, ok2);
    if key !in w.table { InsertKeepsInv(cfg, w, key, p, added, ok1, ok2); }
    assert j in g.w.flows && g.w.flows[j].org == key;
    HandleUpdates(cfg, w, key, p, added, ok1, ok2, j);
    TouchKeepsMarks(cfg, g.w.flows[j], g.dir, p);
  }

  /** Over every run in which a translated flow lives and no other flow comes to have its reply key as a reply key,
      if none had it as original key at the start: the flow keeps its keys, its marks and its reply entry. */
  lemma {:induction false} RunKeepsPlaced(cfg: Config, w: World, ops: seq<Op>, id: FlowId)
    requires Inv(w) && LegalRun(cfg, w, ops) && Placed(w, id) && Translated(w.flows[id])
    requires SoleOrg(w, w.flows[id].reply, id) && Undisturbed(cfg, w, ops, id, w.flows[id].reply)
    ensures StillPlaced(w, RunAll(cfg, w, ops), id)
    decreases |ops|
  {
    if ops != [] {
      StepKeepsInv(cfg, w, ops[0]);
      SoleOrgStays(cfg, w, ops[0], id);
      StepKeepsPlaced(cfg, w, ops[0], id);
      RunKeepsPlaced(cfg, Step(cfg, w, ops[0]), ops[1..], id);
    }
  }

  lemma SameTranslation(f: Flow, g: Flow, dir: Dir, p: Packet)
    requires f.org == g.org && f.reply == g.reply && f.marks == g.marks
    ensures Translate(f, dir, p) == Translate(g, dir, p)
  {
  }

  lemma PlacedAnswers(cfg: Config, v: World, id: FlowId, f: Flow, answer: Packet, info: PktInfo, spare: FlowId)
    requires Inv(v) && Placed(v, id)
    requires v.flows[id].org == f.org && v.flows[id].reply == f.reply && v.flows[id].marks == f.marks
    ensures var g := GetFlow(cfg, v, f.reply, info, spare, true, true);
            && g.flow == Some(id) && id in g.w.flows && g.dir == Direction(f, f.reply, info.dir)
            && Translate(g.w.flows[id], g.dir, answer) == Translate(f, g.dir, answer)
  {
    ReplyFindsFlow(cfg, v, id, info, spare);
    SameTranslation(v.flows[id], f, Direction(f, f.reply, info.dir), answer);
  }

  /** From the step that translated a TCP or UDP flow on, over every such run: the answer to a packet translated
      at the start finds the flow at the end, in reply direction, and comes out as the answer to the original
      packet. */
  lemma RoundTripOverRuns(cfg: Config, w: World, ops: seq<Op>, id: FlowId, p: Packet, info: PktInfo, spare: FlowId)
    requires Inv(w) && LegalRun(cfg, w, ops) && Placed(w, id) && Translated(w.flows[id])
    requires SoleOrg(w, w.flows[id].reply, id) && Undisturbed(cfg, w, ops, id, w.flows[id].reply)
    requires p.proto in {TCP, UDP} && OriginalOf(w.flows[id], p)
    ensures var f, v := w.flows[id], RunAll(cfg, w, ops);
            var t := Translate(f, Org, p);
            && t.Some? && BuildKey(SwapPacket(t.value), f.org.vni, f.org.vnf) == Some(f.reply)
            && var g := GetFlow(cfg, v, f.reply, info, spare, true, true);
               && g.flow == Some(id) && id in g.w.flows && (g.dir == Reply <==> f.reply != f.org)
               && Translate(g.w.flows[id], g.dir, SwapPacket(t.value)) == Some(SwapPacket(p))
  {
    var f := w.flows[id];
    assert KeysAgree(f);
    ReplyIsTranslatedBack(f, p, info.dir);
    RunKeepsPlaced(cfg, w, ops, id);
    PlacedAnswers(cfg, RunAll(cfg, w, ops), id, f, SwapPacket(Translate(f, Org, p).value), info, spare);
  }

  // ----- Network NAT: other translated flows stay away by themselves -----

  predicate NetworkNat(f: Flow) {
    f.marks.natType == NatLocal && f.org.proto in {TCP, UDP}
  }

  /** No other live flow has `k` as its reply key unless network NAT gave it that. */
  ghost predicate OthersStayAway(w: World, k: FlowKey, id: FlowId) {
    forall j :: j in w.flows && j != id ==> NetworkNat(w.flows[j]) || k != w.flows[j].reply
  }

  lemma IsolationMakesSole(w: World, id: FlowId)
    requires Inv(w) && NatPorts.Isolated(FlowNat.View(w)) && id in w.flows && NetworkNat(w.flows[id])
    requires OthersStayAway(w, w.flows[id].reply, id)
    ensures SoleReply(w, w.flows[id].reply, id)
  {
    FlowNat.TuplesSeparateReplies(w);
  }

  predicate SameTranslated(f: Flow, g: Flow) {
    f.org == g.org && f.reply == g.reply && f.marks == g.marks
  }

  /** A translated flow keeps its keys and marks while it lives. */
  lemma StepKeepsTranslation(cfg: Config, w: World, op: Op, id: FlowId)
    requires Inv(w) && Legal(cfg, w, op) && id in w.flows && Translated(w.flows[id])
    requires id in Step(cfg, w, op).flows
    ensures SameTranslated(w.flows[id], Step(cfg, w, op).flows[id])
  {
    match op
    case Packet(key, p, added, ok1, ok2) => PacketKeepsTranslation(cfg, w, key, p, added, ok1, ok2, id);
    case DoSnat(j, d, vni, hash, o, q, addOk) => SnatKeepsTranslation(w, j, d, vni, hash, o, q, addOk, id);
    case DoDnat(j, dnatIp, addOk) => DnatKeepsTranslation(w, j, dnatIp, addOk, id);
    case DoRelay(j, lb) => RelayKeepsTranslation(w, j, lb, id);
    case DoMark(j, m) => MarkKeepsTranslation(w, j, m, id);
    case Install(j, c, tcp, hwOk) =>
    case RuleAged(c) => DestroyKeepsTranslation(w, c, id);
    case Visit(key, now, hz, answers) =>
      if key in w.table {
        var v := VisitShape(cfg, w, key, now, hz, answers);
        AgeOutKeepsTranslation(w, v, w.table[key], id);
      }
    case Remove(j) =>
      var v := RemoveShape(cfg, w, j);
      AgeOutKeepsTranslation(w, v, j, id);
  }

  lemma SnatKeepsTranslation(w: World, j: FlowId, d: SnatData, vni: uint32, hash: uint32, o: bool, q: bool, addOk: bool,
      id: FlowId)
    requires j in w.flows && id in w.flows && Translated(w.flows[id])
    ensures var v := Snat(w, j, d, vni, hash, o, q, addOk);
            id in v.flows && SameTranslated(w.flows[id], v.flows[id])
  {
  }

  lemma DnatKeepsTranslation(w: World, j: FlowId, dnatIp: uint32, addOk: bool, id: FlowId)
    requires j in w.flows && id in w.flows && Translated(w.flows[id])
    ensures var v := Dnat(w, j, dnatIp, addOk); id in v.flows && SameTranslated(w.flows[id], v.flows[id])
  {
  }

  lemma RelayKeepsTranslation(w: World, j: FlowId, lb: bool, id: FlowId)
    requires j in w.flows && id in w.flows && Translated(w.flows[id])
    ensures var v := Relay(w, j, lb); id in v.flows && SameTranslated(w.flows[id], v.flows[id])
  {
  }

  lemma MarkKeepsTranslation(w: World, j: FlowId, m: Mark, id: FlowId)
    requires j in w.flows && id in w.flows && Translated(w.flows[id])
    ensures var v := MarkFlow(w, j, m); id in v.flows && SameTranslated(w.flows[id], v.flows[id])
  {
  }

  lemma DestroyKeepsTranslation(w: World, c: CtxId, id: FlowId)
    requires Inv(w) && c in w.ctxs && id in w.flows && id in DestroyCtx(w, c).flows
    ensures SameTranslated(w.flows[id], DestroyCtx(w, c).flows[id])
  {
    SlotsAreCounted(w, w.ctxs[c].flow);
  }

  lemma AgeOutKeepsTranslation(w: World, v: World, j: FlowId, id: FlowId)
    requires j in w.flows && id in w.flows && OnlyRulesDropped(w, v, j)
    ensures id in v.flows && SameTranslated(w.flows[id], v.flows[id])
    ensures id in AgeOut(v, j).flows ==> SameTranslated(w.flows[id], AgeOut(v, j).flows[id])
  {
  }

  lemma PacketKeepsTranslation(cfg: Config, w: World, key: FlowKey, p: PktInfo, added: FlowId, ok1: bool, ok2: bool,
      id: FlowId)
    requires Inv(w) && added !in w.flows && id in w.flows
    ensures var v := Handle(cfg, w, key, p, added, ok1, ok2).w;
            id in v.flows && SameMarks(w.flows[id], v.flows[id])
  {
    var g := GetFlow(cfg, w, key, p, added, ok1, ok2);
    GetFlowKeepsInv(cfg, w, key, p, added, ok1, ok2);
    LookupKeepsMarks(cfg, w, key, p, added, ok1, ok2, id);
    HandleUpdates(cfg, w, key, p, added, ok1, ok2, id);
    TouchKeepsMarks(cfg, g.w.flows[id], g.dir, p);
  }

  lemma LookupKeepsMarks(cfg: Config, w: World, key: FlowKey, p: PktInfo, added: FlowId, ok1: bool, ok2: bool,
      id: FlowId)
    requires Inv(w) && added !in w.flows && id in w.flows
    ensures var g := GetFlow(cfg, w, key, p, added, ok1, ok2);
            id in g.w.flows && SameMarks(w.flows[id], g.w.flows[id])
  {
    if key in w.table {
      HitKeepsMarks(cfg, w, w.table[key], key, p, id);
    } else {
      InsertKeepsInv(cfg, w, key, p, added, ok1, ok2);
    }
  }

  lemma HitKeepsMarks(cfg: Config, w: World, found: FlowId, key: FlowKey, p: PktInfo, id: FlowId)
    requires found in w.flows && id in w.flows
    ensures var v := Hit(cfg, w, found, key, p).w; id in v.flows && SameMarks(w.flows[id], v.flows[id])
  {
    TouchKeepsMarks(cfg, w.flows[found], Direction(w.flows[found], key, p.dir), p);
  }

  /** In every state of the run the flow is live and the others stay away from key `k`. */
  ghost predicate LeftAlone(cfg: Config, w: World, ops: seq<Op>, id: FlowId, k: FlowKey)
    requires Inv(w) && LegalRun(cfg, w, ops)
    decreases |ops|
  {
    && id in w.flows && OthersStayAway(w, k, id)
    && (ops != [] ==>
          (StepKeepsInv(cfg, w, ops[0]); LeftAlone(cfg, Step(cfg, w, ops[0]), ops[1..], id, k)))
  }

  /** Isolation of tuples rules the other translated flows out in every state of the run. */
  lemma {:induction false} LeftAloneIsUndisturbed(cfg: Config, w: World, ops: seq<Op>, id: FlowId)
    requires Inv(w) && LegalRun(cfg, w, ops) && NatPorts.Isolated(FlowNat.View(w))
    requires id in w.flows && NetworkNat(w.flows[id]) && LeftAlone(cfg, w, ops, id, w.flows[id].reply)
    ensures Undisturbed(cfg, w, ops, id, w.flows[id].reply)
    decreases |ops|
  {
    IsolationMakesSole(w, id);
    if ops != [] {
      var v := Step(cfg, w, ops[0]);
      StepKeepsInv(cfg, w, ops[0]);
      FlowNat.StepProjects(cfg, w, ops[0]);
      NatPorts.IsolatedStep(FlowNat.View(w), FlowNat.EventOf(cfg, w, ops[0]));
      assert KeysAgree(w.flows[id]);
      StepKeepsTranslation(cfg, w, ops[0], id);
      LeftAloneIsUndisturbed(cfg, v, ops[1..], id);
    }
  }

  /** For network NAT, from any state reached from the initial one on in which no other flow has the reply key as
      its original key: over every run in which the flow lives and no flow that is not itself translated by
      network NAT comes to have that reply key, the round trip holds. */
  lemma NatRoundTripOverRuns(cfg: Config, before: seq<Op>, ops: seq<Op>, id: FlowId, p: Packet, info: PktInfo,
      spare: FlowId)
    requires LegalRun(cfg, Initial, before)
    requires var w := RunAll(cfg, Initial, before);
             && LegalRun(cfg, w, ops) && Placed(w, id) && NetworkNat(w.flows[id])
             && SoleOrg(w, w.flows[id].reply, id) && LeftAlone(cfg, w, ops, id, w.flows[id].reply)
             && p.proto in {TCP, UDP} && OriginalOf(w.flows[id], p)
    ensures var w := RunAll(cfg, Initial, before);
            var f, v := w.flows[id], RunAll(cfg, w, ops);
            var t := Translate(f, Org, p);
            && t.Some? && BuildKey(SwapPacket(t.value), f.org.vni, f.org.vnf) == Some(f.reply)
            && var g := GetFlow(cfg, v, f.reply, info, spare, true, true);
               && g.flow == Some(id) && id in g.w.flows && (g.dir == Reply <==> f.reply != f.org)
               && Translate(g.w.flows[id], g.dir, SwapPacket(t.value)) == Some(SwapPacket(p))
  {
    var w := RunAll(cfg, Initial, before);
    FlowNat.NatIsolation(cfg, before);
    assert KeysAgree(w.flows[id]);
    LeftAloneIsUndisturbed(cfg, w, ops, id);
    RoundTripOverRuns(cfg, w, ops, id, p, info, spare);
  }
}
