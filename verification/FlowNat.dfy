/**
 NAT isolation over whole runs of the flow table: every step of the flow table is a step of the port
 allocator (an allocation, a free, or nothing), so what the allocator keeps holds of live flows.
 */
module FlowNat {
  import opened Words
  import opened FlowKeys
  import opened NatPorts
  import opened FlowModel
  import opened FlowSafety

  /** The live locally NATed flows, with the source and tuple recovered from their keys. */
  function NatView(flows: map<FlowId, Flow>): map<int, NatFlow> {
    map id | id in flows && flows[id].marks.natType == NatLocal :: NatFlow(SourceOf(flows[id]), TupleOf(flows[id]))
  }

  function View(w: World): NatState {
    NatState(w.ports, NatView(w.flows))
  }

  /** The flow is eligible for source NAT and network NAT is configured. */
  predicate Translates(w: World, id: FlowId, d: SnatData)
    requires id in w.flows
  {
    d.natIp != 0 && w.flows[id].marks.flags == {} && w.flows[id].org.src.IPv4? && w.flows[id].org.dst.IPv4?
  }

  function FreeEvent(w: World, w': World, id: FlowId): Event {
    if id in w.flows && id !in w'.flows && w.flows[id].marks.natType == NatLocal then Free(id) else Skip
  }

  function EventOf(cfg: Config, w: World, op: Op): Event
    requires Inv(w) && FlowSafety.Legal(cfg, w, op)
  {
    var w' := Step(cfg, w, op);
    match op
    case DoSnat(id, d, vni, hash, overloadOk, portmapOk, _) =>
      if Translates(w, id, d) then Alloc(id, RequestFor(w.flows[id].org, d, vni, hash), overloadOk, portmapOk) else Skip
    case RuleAged(c) => FreeEvent(w, w', w.ctxs[c].flow)
    case Visit(key, _, _, _) => if key in w.table then FreeEvent(w, w', w.table[key]) else Skip
    case Remove(id) => FreeEvent(w, w', id)
    case _ => Skip
  }

  // ----- How the view changes -----

  /** An update of one flow that neither is nor becomes locally NATed, or keeps its keys and marks. */
  lemma ViewUpdate(flows: map<FlowId, Flow>, id: FlowId, f: Flow)
    requires f.marks.natType != NatLocal ==> id !in flows || flows[id].marks.natType != NatLocal
    requires f.marks.natType == NatLocal ==>
               id in flows && flows[id].marks.natType == NatLocal
               && SourceOf(flows[id]) == SourceOf(f) && TupleOf(flows[id]) == TupleOf(f)
    ensures NatView(flows[id := f]) == NatView(flows)
  {
  }

  lemma ViewRemove(flows: map<FlowId, Flow>, id: FlowId)
    ensures NatView(flows - {id}) == NatView(flows) - {id}
  {
  }

  /** Dropping a reference frees the flow, and its NAT port, or changes nothing in the view. */
  lemma RefDecProjects(w: World, id: FlowId)
    requires id in w.flows && KeysAgree(w.flows[id])
    ensures View(RefDec(w, id)) == Apply(View(w), FreeEvent(w, RefDec(w, id), id))
  {
    var f := w.flows[id];
    var w1 := Update(w, id, f.(refs := f.refs.(count := f.refs.count - 1)));
    ViewUpdate(w.flows, id, f.(refs := f.refs.(count := f.refs.count - 1)));
    if f.refs.count - 1 == 0 {
      ViewRemove(w1.flows, id);
      assert NatView(w1.flows) - {id} == NatView(w.flows) - {id};
      if f.marks.natType != NatLocal { assert NatView(w.flows) - {id} == NatView(w.flows); }
    }
  }

  lemma DestroyProjects(w: World, c: CtxId)
    requires Inv(w) && c in w.ctxs
    ensures View(DestroyCtx(w, c)) == Apply(View(w), FreeEvent(w, DestroyCtx(w, c), w.ctxs[c].flow))
  {
    var x := w.ctxs[c];
    var f := w.flows[x.flow];
    var f1 := f.(refs := f.refs.(slots := f.refs.slots[x.index := None]));
    ViewUpdate(w.flows, x.flow, f1);
    assert KeysAgree(f);
    RefDecProjects(Update(w, x.flow, f1).(ctxs := w.ctxs - {c}), x.flow);
  }

  lemma AgeOutProjects(w: World, id: FlowId)
    requires Inv(w) && id in w.flows
    ensures View(AgeOut(w, id)) == Apply(View(w), FreeEvent(w, AgeOut(w, id), id))
  {
    var f := w.flows[id].(refs := w.flows[id].refs.(aged := true));
    ViewUpdate(w.flows, id, f);
    assert KeysAgree(w.flows[id]);
    RefDecProjects(Update(w, id, f), id);
  }

  /** A query pass that leaves the flow live changes nothing in the view. */
  lemma QueryProjects(w: World, v: World, id: FlowId)
    requires id in w.flows && OnlyRulesDropped(w, v, id)
    ensures View(v) == View(w) && v.flows[id].marks.natType == w.flows[id].marks.natType
  {
    ViewUpdate(w.flows, id, v.flows[id]);
  }

  lemma VisitProjects(cfg: Config, w: World, key: FlowKey, now: uint64, hz: uint64, answers: seq<Answer>)
    requires Inv(w) && key in w.table && |answers| == SLOTS && !DropsLastReference(cfg, w, key, answers)
    ensures var o := AgeVisit(cfg, w, key, now, hz, answers);
            o.Done? && View(o.w) == Apply(View(w), FreeEvent(w, o.w, w.table[key]))
  {
    var v := VisitShape(cfg, w, key, now, hz, answers);
    QueryProjects(w, v, w.table[key]);
    AgeOutProjects(v, w.table[key]);
  }

  lemma RemoveProjects(cfg: Config, w: World, id: FlowId)
    requires Inv(w) && id in w.flows && !w.flows[id].refs.aged
    ensures var o := ForcedRemove(cfg, w, id);
            o.Done? && View(o.w) == Apply(View(w), FreeEvent(w, o.w, id))
  {
    var answers := seq(SLOTS, _ => Idle);
    SlotsAreCounted(w, id);
    QueryEffect(w, id, answers, 0);
    QueryKeepsInv(w, id, answers, 0);
    var v := (if cfg.offload then QueryAndRemove(w, id, answers, 0) else Done(w)).w;
    assert OnlyRulesDropped(w, v, id);
    QueryProjects(w, v, id);
    AgeOutProjects(v, id);
  }

  /** A packet changes no port table and no NAT mark. */
  lemma HandleProjects(cfg: Config, w: World, key: FlowKey, p: PktInfo, id: FlowId, ok1: bool, ok2: bool)
    requires Inv(w) && id !in w.flows
    ensures View(Handle(cfg, w, key, p, id, ok1, ok2).w) == View(w)
  {
    var g := GetFlow(cfg, w, key, p, id, ok1, ok2);
    assert g.w.ports == w.ports && NatView(g.w.flows) == NatView(w.flows) by {
      if key in w.table {
        var i := w.table[key];
        var dir := Direction(w.flows[i], key, p.dir);
        TouchKeepsMarks(cfg, w.flows[i], dir, p);
        ViewUpdate(w.flows, i, SetOffloadFlag(cfg, w.flows[i], dir, p));
      } else {
        ViewUpdate(w.flows, id, NewFlow(cfg, key, p));
      }
    }
    if g.flow.Some? && g.flow.value in g.w.flows {
      TouchKeepsMarks(cfg, g.w.flows[g.flow.value], g.dir, p);
      ViewUpdate(g.w.flows, g.flow.value, Touch(cfg, g.w.flows[g.flow.value], g.dir, p));
    }
  }

  /** Source NAT of an eligible flow is one allocation for that flow. */
  lemma SnatProjects(w: World, id: FlowId, d: SnatData, vni: uint32, hash: uint32, overloadOk: bool, portmapOk: bool,
      addOk: bool)
    requires Inv(w) && id in w.flows && Translates(w, id, d)
    ensures id !in View(w).live
    ensures View(Snat(w, id, d, vni, hash, overloadOk, portmapOk, addOk))
            == Apply(View(w), Alloc(id, RequestFor(w.flows[id].org, d, vni, hash), overloadOk, portmapOk))
  {
    var f := w.flows[id];
    assert KeysAgree(f);
    var r := RequestFor(f.org, d, vni, hash);
    var (t, port) := Allocate(w.ports, r, overloadOk, portmapOk);
    var v := Snat(w, id, d, vni, hash, overloadOk, portmapOk, addOk);
    var g := v.flows[id];
    assert v.ports == t && v.flows == w.flows[id := g];
    if port.None? {
      ViewUpdate(w.flows, id, g);
    } else {
      ViewAdd(w.flows, id, g);
    }
  }

  lemma ViewAdd(flows: map<FlowId, Flow>, id: FlowId, f: Flow)
    requires f.marks.natType == NatLocal
    ensures NatView(flows[id := f]) == NatView(flows)[id := NatFlow(SourceOf(f), TupleOf(f))]
  {
  }

  /** Without network NAT no port is allocated. */
  lemma VipProjects(w: World, id: FlowId, d: SnatData, vni: uint32, hash: uint32, overloadOk: bool, portmapOk: bool,
      addOk: bool)
    requires Inv(w) && id in w.flows && !Translates(w, id, d)
    ensures View(Snat(w, id, d, vni, hash, overloadOk, portmapOk, addOk)) == View(w)
  {
    assert KeysAgree(w.flows[id]);
    ViewUpdate(w.flows, id, Snat(w, id, d, vni, hash, overloadOk, portmapOk, addOk).flows[id]);
  }

  lemma DnatProjects(w: World, id: FlowId, dnatIp: uint32, addOk: bool)
    requires Inv(w) && id in w.flows
    ensures View(Dnat(w, id, dnatIp, addOk)) == View(w)
  {
    assert KeysAgree(w.flows[id]);
    ViewUpdate(w.flows, id, Dnat(w, id, dnatIp, addOk).flows[id]);
  }

  lemma RelayProjects(w: World, id: FlowId, lb: bool)
    requires Inv(w) && id in w.flows
    ensures View(Relay(w, id, lb)) == View(w)
  {
    assert KeysAgree(w.flows[id]);
    ViewUpdate(w.flows, id, Relay(w, id, lb).flows[id]);
  }

  lemma MarkProjects(w: World, id: FlowId, m: Mark)
    requires Inv(w) && id in w.flows
    ensures View(MarkFlow(w, id, m)) == View(w)
  {
    assert KeysAgree(w.flows[id]);
    ViewUpdate(w.flows, id, MarkFlow(w, id, m).flows[id]);
  }

  lemma InstallProjects(w: World, id: FlowId, c: CtxId, tcp: bool, hwOk: bool)
    requires Inv(w) && id in w.flows
    ensures View(InstallRule(w, id, c, tcp, hwOk)) == View(w)
  {
    ViewUpdate(w.flows, id, InstallRule(w, id, c, tcp, hwOk).flows[id]);
  }

  /** Every step of the flow table is, seen from the NAT port tables, the allocator event it stands for. */
  lemma StepProjects(cfg: Config, w: World, op: Op)
    requires Inv(w) && FlowSafety.Legal(cfg, w, op)
    ensures FreshId(View(w), EventOf(cfg, w, op))
    ensures View(Step(cfg, w, op)) == Apply(View(w), EventOf(cfg, w, op))
  {
    match op
    case Packet(key, p, id, ok1, ok2) => HandleProjects(cfg, w, key, p, id, ok1, ok2);
    case DoSnat(id, d, vni, hash, overloadOk, portmapOk, addOk) =>
      if Translates(w, id, d) {
        SnatProjects(w, id, d, vni, hash, overloadOk, portmapOk, addOk);
      } else {
        VipProjects(w, id, d, vni, hash, overloadOk, portmapOk, addOk);
      }
    case DoDnat(id, dnatIp, addOk) => DnatProjects(w, id, dnatIp, addOk);
    case DoRelay(id, lb) => RelayProjects(w, id, lb);
    case DoMark(id, m) => MarkProjects(w, id, m);
    case Install(id, c, tcp, hwOk) => InstallProjects(w, id, c, tcp, hwOk);
    case RuleAged(c) => DestroyProjects(w, c);
    case Visit(key, now, hz, answers) => if key in w.table { VisitProjects(cfg, w, key, now, hz, answers); }
    case Remove(id) => RemoveProjects(cfg, w, id);
  }

  // ----- Runs -----

  function EventsOf(cfg: Config, w: World, ops: seq<Op>): seq<Event>
    requires Inv(w) && LegalRun(cfg, w, ops)
    decreases |ops|
  {
    if ops == [] then []
    else
      StepKeepsInv(cfg, w, ops[0]);
      [EventOf(cfg, w, ops[0])] + EventsOf(cfg, Step(cfg, w, ops[0]), ops[1..])
  }

  lemma {:induction false} RunProjects(cfg: Config, w: World, ops: seq<Op>)
    requires Inv(w) && LegalRun(cfg, w, ops)
    ensures NatPorts.Legal(View(w), EventsOf(cfg, w, ops))
    ensures View(RunAll(cfg, w, ops)) == Run(View(w), EventsOf(cfg, w, ops))
    decreases |ops|
  {
    if ops != [] {
      StepKeepsInv(cfg, w, ops[0]);
      StepProjects(cfg, w, ops[0]);
      var w1 := Step(cfg, w, ops[0]);
      RunProjects(cfg, w1, ops[1..]);
      var es := EventsOf(cfg, w, ops);
      assert es[1..] == EventsOf(cfg, w1, ops[1..]);
    }
  }

  /** Two live locally NATed TCP or UDP flows have different reply keys. */
  ghost predicate RepliesDistinct(w: World) {
    forall i, j ::
      i in w.flows && j in w.flows && i != j
      && w.flows[i].marks.natType == NatLocal && w.flows[j].marks.natType == NatLocal
      && w.flows[i].org.proto in {TCP, UDP} && w.flows[j].org.proto in {TCP, UDP}
      ==> w.flows[i].reply != w.flows[j].reply
  }

  lemma TuplesSeparateReplies(w: World)
    requires Inv(w) && Isolated(View(w))
    ensures RepliesDistinct(w)
  {
    forall i, j |
      i in w.flows && j in w.flows && i != j
      && w.flows[i].marks.natType == NatLocal && w.flows[j].marks.natType == NatLocal
      && w.flows[i].org.proto in {TCP, UDP} && w.flows[j].org.proto in {TCP, UDP}
      ensures w.flows[i].reply != w.flows[j].reply
    {
      assert KeysAgree(w.flows[i]) && KeysAgree(w.flows[j]);
      assert View(w).live[i].tuple != View(w).live[j].tuple;
    }
  }

  /** NAT isolation: after every run from the initial state, with or without failing insertions, no two
      live NATed flows share a tuple, and their reply keys differ; if no port-map insertion failed after
      its overload entry was added, the overload set is exactly the tuples of live flows; if no count was
      raised in vain or wrapped, no mapping outlives the flows of its source; and if moreover no mapping
      was replaced, every count is the number of live flows of its source. */
  lemma {:induction false} NatIsolation(cfg: Config, ops: seq<Op>)
    requires LegalRun(cfg, Initial, ops)
    ensures var w, es := RunAll(cfg, Initial, ops), EventsOf(cfg, Initial, ops);
            && Isolated(View(w)) && RepliesDistinct(w)
            && (Never(LeaksTuple, Empty, es) ==> Exact(View(w)))
            && (Never(Miscounts, Empty, es) ==>
                  && Counted(View(w))
                  && forall k :: k in w.ports.portmap ==> FlowsOf(NatView(w.flows), k) != {})
            && (Never(Miscounts, Empty, es) && Never(Replaces, Empty, es) ==> Balanced(View(w)))
  {
    var w, es := RunAll(cfg, Initial, ops), EventsOf(cfg, Initial, ops);
    RunProjects(cfg, Initial, ops);
    assert View(Initial) == Empty;
    RunIsolated(Empty, es);
    TuplesSeparateReplies(w);
    if Never(LeaksTuple, Empty, es) { RunExact(Empty, es); }
    if Never(Miscounts, Empty, es) { RunCounted(Empty, es); }
    if Never(Miscounts, Empty, es) && Never(Replaces, Empty, es) { RunBalanced(Empty, es); }
  }

  /** For ICMP a tuple holds the original identifier, so two flows to one destination can be given the
      same NAT port: distinct tuples, one reply key. */
  lemma IcmpRepliesCanCollide(src: uint32, dst: uint32, natIp: uint32)
    ensures var k1 := FlowKey(IPv4(dst), ICMP, 1, IPv4(src), VnfType.Nat, ECHO_REQUEST, 100);
            var k2 := k1.(portDst := 2);
            var d := SnatData(0, natIp, 1000, 2000);
            var r1, r2 := RequestFor(k1, d, 100, 0), RequestFor(k2, d, 100, 0);
            var (t1, p1) := Allocate(Tables(map[], {}), r1, true, true);
            var (t2, p2) := Allocate(t1, r2, true, true);
            && p1.Some? && p2.Some?
            && r1.Tuple(p1.value) != r2.Tuple(p2.value)
            && InvertKey(k1).(dst := IPv4(natIp), portDst := p1.value)
                == InvertKey(k2).(dst := IPv4(natIp), portDst := p2.value)
  {
    var k1 := FlowKey(IPv4(dst), ICMP, 1, IPv4(src), VnfType.Nat, ECHO_REQUEST, 100);
    var k2 := k1.(portDst := 2);
    var d := SnatData(0, natIp, 1000, 2000);
    var r1, r2 := RequestFor(k1, d, 100, 0), RequestFor(k2, d, 100, 0);
    var t1 := Allocate(Tables(map[], {}), r1, true, true).0;
    assert r1.Probe(0) == 1000 && r2.Probe(0) == 1000;
    assert FirstFree({}, r1, 0) == Some(1000);
    assert FirstFree(t1.overload, r2, 0) == Some(1000);
  }

  /** Every live translated ICMP flow is an echo request of the network function and VNI of `k`. */
  ghost predicate EchoesLike(w: World, k: FlowKey) {
    forall id :: id in w.flows && w.flows[id].marks.natType == NatLocal && w.flows[id].org.proto == ICMP ==>
      && w.flows[id].org.srcInfo == k.srcInfo == ECHO_REQUEST
      && w.flows[id].org.vnf == k.vnf && w.flows[id].org.vni == k.vni
  }

  /** The port overload set holds, for another identifier, the tuple an echo request would get with `port`. */
  ghost predicate TakenByOtherEcho(overload: set<OverloadKey>, r: Request, port: uint16) {
    exists o :: o in overload && o == r.Tuple(port).(dstPort := o.dstPort)
  }

  /** Two reply keys that agree in all a packet shows but its ICMP type: addresses, protocol and identifier. */
  predicate SameReply(a: FlowKey, b: FlowKey) {
    a.dst == b.dst && a.src == b.src && a.proto == b.proto && a.portDst == b.portDst
  }

  /** Some live translated flow has a reply like the given one. */
  ghost predicate RepliedLike(w: World, reply: FlowKey) {
    exists id :: id in w.flows && w.flows[id].marks.natType == NatLocal && SameReply(w.flows[id].reply, reply)
  }

  /** Seen before the allocation: if the overload set is exact, the reply an echo flow gets with a port looks
      like that of another live flow if and only if the set holds the tuple with some identifier. A port free
      for this identifier can be taken for another one, so the allocator may well choose it. */
  lemma EchoRepliesCollideIff(w: World, k: FlowKey, d: SnatData, vni: uint32, hash: uint32, port: uint16)
    requires Inv(w) && Exact(View(w)) && k.proto == ICMP && k.src.IPv4? && k.dst.IPv4?
    ensures RepliedLike(w, InvertKey(k).(dst := IPv4(d.natIp), portDst := port))
            <==> TakenByOtherEcho(w.ports.overload, RequestFor(k, d, vni, hash), port)
  {
    var r, reply := RequestFor(k, d, vni, hash), InvertKey(k).(dst := IPv4(d.natIp), portDst := port);
    if id :| id in w.flows && w.flows[id].marks.natType == NatLocal && SameReply(w.flows[id].reply, reply) {
      assert KeysAgree(w.flows[id]) && id in View(w).live;
      var o := TupleOf(w.flows[id]);
      assert o in w.ports.overload && o == r.Tuple(port).(dstPort := o.dstPort);
    }
    if TakenByOtherEcho(w.ports.overload, r, port) {
      var o :| o in w.ports.overload && o == r.Tuple(port).(dstPort := o.dstPort);
      assert Occupied(View(w), o);
      var id :| id in View(w).live && View(w).live[id].tuple == o;
      assert KeysAgree(w.flows[id]);
      assert SameReply(w.flows[id].reply, reply);
    }
  }

  /** Where all live translated ICMP flows are echo requests of the VNI and network function of `k`, looking
      alike is being the same reply key. */
  lemma AlikeIsSameKey(w: World, k: FlowKey, natIp: uint32, port: uint16)
    requires Inv(w) && EchoesLike(w, k) && k.proto == ICMP && k.srcInfo == ECHO_REQUEST
    ensures var reply := InvertKey(k).(dst := IPv4(natIp), portDst := port);
            forall id :: id in w.flows && w.flows[id].marks.natType == NatLocal ==>
              (SameReply(w.flows[id].reply, reply) <==> w.flows[id].reply == reply)
  {
    var reply := InvertKey(k).(dst := IPv4(natIp), portDst := port);
    forall id | id in w.flows && w.flows[id].marks.natType == NatLocal
      ensures SameReply(w.flows[id].reply, reply) <==> w.flows[id].reply == reply
    {
      assert KeysAgree(w.flows[id]);
    }
  }
}
