/**
 The flow table and everything that shares a flow value with it: the lookup cache, the hardware
 age contexts that hold references, and the NAT port tables. Heap objects are entries of the maps
 `flows` and `ctxs`; a freed object is no longer in its map, and an address may be used again.
 */
module FlowModel {
  import opened Words
  import opened FlowKeys
  import opened TcpTracking
  import opened NatPorts

  type FlowId = int
  type CtxId = int

  /** Number of age-context slots in a flow value. */
  const SLOTS: nat := 6

  datatype NatType =
    NatNone | NatVip | NatLocal | NatNeigh | NatAsTarget | LbLocalNeigh | LbRecirc | LbForward

  datatype FlowFlag = SrcNat | DstNat | DstLb | DefaultFlag

  datatype OffloadState = NonOffload | OffloadInstall | Offloaded

  datatype Dir = Org | Reply

  /** Who holds the flow: the reference count, whether the software reference has been dropped, and the
      slots for age contexts. */
  datatype Refs = Refs(count: int, aged: bool, slots: seq<Option<CtxId>>)

  /** What the network functions did to the flow. */
  datatype Marks = Marks(natType: NatType, natVni: uint32, flags: set<FlowFlag>)

  /** What packets of the flow change. */
  datatype Track = Track(
    createdPort: uint16, offOrig: OffloadState, offReply: OffloadState, onPf0: bool, onPf1: bool,
    tcp: TcpState, timeout: uint32, timestamp: uint64)

  datatype Flow = Flow(org: FlowKey, reply: FlowKey, refs: Refs, marks: Marks, track: Track)

  /** A hardware rule's age context: the flow it references and its slot index in that flow. */
  datatype AgeCtx = AgeCtx(flow: FlowId, index: nat)

  datatype Cached = Cached(key: FlowKey, flow: FlowId)

  datatype World = World(
    table: map<FlowKey, FlowId>,
    flows: map<FlowId, Flow>,
    ctxs: map<CtxId, AgeCtx>,
    ports: Tables,
    cache: Option<Cached>)

  const Initial: World := World(map[], map[], map[], Tables(map[], {}), None)

  datatype Config = Config(offload: bool, timeout: uint32)

  /** What conntrack reads from a packet besides its key. `lbLocal` is the answer of the prefix
      lookup made for a new flow, `dir` the direction field before the lookup. */
  datatype PktInfo = PktInfo(
    l4: uint8, vnf: VnfType, dir: Dir, isPf: bool, isPf0: bool, portId: uint16,
    lbLocal: bool, tcpFlags: Flags, now: uint64)

  // ----- Invariants -----

  /** Every table entry points to a live flow under one of that flow's two current keys. */
  ghost predicate Owned(w: World) {
    forall k :: k in w.table ==>
      && w.table[k] in w.flows
      && (k == w.flows[w.table[k]].org || k == w.flows[w.table[k]].reply)
  }

  /** The cached key is in the table and leads to the cached flow. */
  ghost predicate CacheSound(w: World) {
    w.cache.Some? ==> w.cache.value.key in w.table && w.table[w.cache.value.key] == w.cache.value.flow
  }

  ghost function RulesOf(ctxs: map<CtxId, AgeCtx>, id: FlowId): set<CtxId> {
    set c | c in ctxs && ctxs[c].flow == id
  }

  /** The reference count is the number of hardware rules plus one while the flow has not aged, and is
      positive; slots hold live age contexts of this flow at their own index. */
  ghost predicate Counts(ctxs: map<CtxId, AgeCtx>, id: FlowId, r: Refs) {
    && r.count == |RulesOf(ctxs, id)| + (if r.aged then 0 else 1)
    && r.count >= 1
    && |r.slots| == SLOTS
    && (forall i :: 0 <= i < SLOTS && r.slots[i].Some? ==>
          r.slots[i].value in ctxs && ctxs[r.slots[i].value] == AgeCtx(id, i))
  }

  ghost predicate Referenced(w: World) {
    && (forall c :: c in w.ctxs ==> w.ctxs[c].flow in w.flows && w.ctxs[c].index < SLOTS)
    && (forall id :: id in w.flows ==> Counts(w.ctxs, id, w.flows[id].refs))
  }

  /** A flow carries at most one kind of address translation, and its reply key differs from the plain
      inverse only in what that translation changes: the NAT address (and, for network NAT, port) the
      reply is sent to, or the inside address it comes from. */
  ghost predicate KeysAgree(f: Flow) {
    && (f.marks.flags == {} ==> f.reply == InvertKey(f.org))
    && (f.marks.natType == NatLocal ==> SrcNat in f.marks.flags)
    && (SrcNat in f.marks.flags ==>
          && f.marks.flags == {SrcNat} && f.org.src.IPv4? && f.org.dst.IPv4? && f.reply.dst.IPv4?
          && f.reply == InvertKey(f.org).(dst := f.reply.dst, portDst := f.reply.portDst)
          && (f.marks.natType != NatLocal ==> f.reply.portDst == InvertKey(f.org).portDst))
    && (DstNat in f.marks.flags ==>
          && f.marks.flags == {DstNat} && f.org.src.IPv4? && f.org.dst.IPv4? && f.reply.src.IPv4?
          && f.reply == InvertKey(f.org).(src := f.reply.src))
  }

  ghost predicate Shaped(w: World) {
    forall id :: id in w.flows ==> KeysAgree(w.flows[id])
  }

  ghost predicate Inv(w: World) {
    Owned(w) && CacheSound(w) && Referenced(w) && Shaped(w)
  }

  // ----- Table and cache primitives -----

  function DelKey(w: World, k: FlowKey): World {
    w.(table := w.table - {k})
  }

  /** `dp_delete_flow`: removing an entry purges the cache. */
  function DeleteFlow(w: World, k: FlowKey): World {
    DelKey(w, k).(cache := None)
  }

  function AddFlow(w: World, k: FlowKey, id: FlowId, ok: bool): World {
    if ok then w.(table := w.table[k := id]) else w
  }

  function Update(w: World, id: FlowId, f: Flow): World {
    w.(flows := w.flows[id := f])
  }

  // ----- Lookup and creation -----

  /** `dp_cntrack_change_flow_offload_flags` */
  function ChangeOffload(cfg: Config, f: Flow, dir: Dir, p: PktInfo): Flow {
    if !cfg.offload then f
    else
      var otherPf := p.isPf && (if p.isPf0 then !f.track.onPf0 else !f.track.onPf1);
      match dir
      case Org => f.(track := f.track.(offOrig := NextOffload(f.track.offOrig, otherPf)))
      case Reply => f.(track := f.track.(offReply := NextOffload(f.track.offReply, otherPf)))
  }

  function NextOffload(s: OffloadState, otherPf: bool): OffloadState {
    if s == NonOffload || otherPf then OffloadInstall
    else if s == OffloadInstall then Offloaded
    else s
  }

  /** `dp_set_flow_offload_flag` */
  function SetOffloadFlag(cfg: Config, f: Flow, dir: Dir, p: PktInfo): Flow {
    if f.marks.natType in {NatNeigh, LbForward, LbLocalNeigh} then ChangeOffload(cfg, f, dir, p)
    else if p.vnf == Lb then f
    else if p.l4 != TCP then ChangeOffload(cfg, f, dir, p)
    else f
  }

  /** `dp_set_pkt_flow_direction`: the original key is tested last and wins. */
  function Direction(f: Flow, key: FlowKey, before: Dir): Dir {
    if key == f.org then Org else if key == f.reply then Reply else before
  }

  function NewFlow(cfg: Config, key: FlowKey, p: PktInfo): Flow {
    Flow(key, InvertKey(key),
         Refs(1, false, seq(SLOTS, _ => None)),
         Marks(if cfg.offload && !p.isPf && key.dst.IPv4? && p.lbLocal then LbLocalNeigh else NatNone, 0, {}),
         Track(p.portId, if cfg.offload && p.l4 != TCP then OffloadInstall else NonOffload, NonOffload, false, false,
               NoState, cfg.timeout, 0))
  }

  /** `flow_table_insert_entry`; `id` is the address of the new flow, the flags say whether the two
      table insertions succeed. A failed creation leaves no trace but a purged cache. */
  function Insert(cfg: Config, w: World, key: FlowKey, p: PktInfo, id: FlowId, ok1: bool, ok2: bool): (World, bool) {
    if !ok1 then (w, false)
    else
      var w1 := AddFlow(w, key, id, true);
      if !ok2 then (DeleteFlow(w1, key), false)
      else (Update(AddFlow(w1, InvertKey(key), id, true), id, NewFlow(cfg, key, p)), true)
  }

  datatype Got = Got(w: World, flow: Option<FlowId>, dir: Dir)

  /** A packet of an existing flow. */
  function Hit(cfg: Config, w: World, id: FlowId, key: FlowKey, p: PktInfo): Got
    requires id in w.flows
  {
    var dir := Direction(w.flows[id], key, p.dir);
    Got(Update(w, id, SetOffloadFlag(cfg, w.flows[id], dir, p)), Some(id), dir)
  }

  /** Table lookup or creation, as it would be without a cache. */
  function Lookup(cfg: Config, w: World, key: FlowKey, p: PktInfo, id: FlowId, ok1: bool, ok2: bool): Got
    requires Owned(w)
  {
    if key in w.table then Hit(cfg, w, w.table[key], key, p)
    else
      var (w', ok) := Insert(cfg, w, key, p, id, ok1, ok2);
      if ok then Got(w', Some(id), Org) else Got(w', None, Org)
  }

  /** `dp_get_flow_val`: the one-entry cache in front of the table. */
  function GetFlow(cfg: Config, w: World, key: FlowKey, p: PktInfo, id: FlowId, ok1: bool, ok2: bool): Got
    requires Owned(w) && CacheSound(w)
  {
    if w.cache.Some? && w.cache.value.key == key then Hit(cfg, w, w.cache.value.flow, key, p)
    else
      var g := Lookup(cfg, w, key, p, id, ok1, ok2);
      if g.flow.Some? then g.(w := g.w.(cache := Some(Cached(key, g.flow.value)))) else g
  }

  /** The packet-driven part of `dp_cntrack_handle` after the lookup. */
  function Touch(cfg: Config, f: Flow, dir: Dir, p: PktInfo): Flow {
    var f1 := f.(track := f.track.(timestamp := p.now));
    if p.l4 != TCP || p.vnf == Lb then f1
    else
      var s := TrackFlow(f.track.tcp, p.tcpFlags);
      var f2 := f1.(track := f1.track.(tcp := s, timeout := FlowTimeout(s, cfg.timeout)));
      if s in {Established, FinWait, RstFin} then ChangeOffload(cfg, f2, dir, p) else f2
  }

  /** `dp_cntrack_handle` */
  function Handle(cfg: Config, w: World, key: FlowKey, p: PktInfo, id: FlowId, ok1: bool, ok2: bool): Got
    requires Owned(w) && CacheSound(w)
  {
    var g := GetFlow(cfg, w, key, p, id, ok1, ok2);
    if g.flow.Some? && g.flow.value in g.w.flows then
      g.(w := Update(g.w, g.flow.value, Touch(cfg, g.w.flows[g.flow.value], g.dir, p)))
    else g
  }

  // ----- NAT and relay rewriting of the reply key -----

  /** The NAT settings of an interface; a zero address means "not configured". */
  datatype SnatData = SnatData(vipIp: uint32, natIp: uint32, minPort: uint16, maxPort: uint16)

  /** The source port, or the identifier of an ICMP flow. */
  function SourcePort(k: FlowKey): uint16 {
    if k.proto == ICMP || k.proto == ICMPV6 then k.portDst else k.srcInfo
  }

  function V4(a: IpAddr): uint32 {
    if a.IPv4? then a.addr else 0
  }

  function RequestFor(k: FlowKey, d: SnatData, vni: uint32, hash: uint32): Request {
    Request(PortmapKey(vni, k.src, SourcePort(k)), V4(k.dst), k.portDst, k.proto, d.natIp, d.minPort, d.maxPort, hash)
  }

  /** Deletes the reply entry, rewrites the reply key and adds it again. */
  function ReplaceReply(w: World, id: FlowId, f: Flow, reply: FlowKey, addOk: bool): World {
    AddFlow(Update(DeleteFlow(w, f.reply), id, f.(reply := reply)), reply, id, addOk)
  }

  /** An ICMP flow under network NAT stays in software. */
  function NeverOffloaded(f: Flow): Flow {
    f.(track := f.track.(offOrig := Offloaded, offReply := Offloaded))
  }

  /** `dp_process_ipv4_snat`: the flow is marked, a port is allocated for network NAT, and the reply is
      expected at the translated address. The flags say which hash insertions succeed. */
  function Snat(w: World, id: FlowId, d: SnatData, vni: uint32, hash: uint32,
                overloadOk: bool, portmapOk: bool, addOk: bool): World
    requires id in w.flows
  {
    var f := w.flows[id];
    if f.marks.flags != {} || !f.org.src.IPv4? || !f.org.dst.IPv4? || (d.vipIp == 0 && d.natIp == 0) then w
    else
      var f1 := if d.vipIp != 0 then f.(marks := f.marks.(natType := NatVip)) else f;
      if d.natIp == 0 then
        ReplaceReply(w, id, f1.(marks := f1.marks.(flags := {SrcNat})), f.reply.(dst := IPv4(d.vipIp)), addOk)
      else
        var (t, port) := Allocate(w.ports, RequestFor(f.org, d, vni, hash), overloadOk, portmapOk);
        var w1 := w.(ports := t);
        if port.None? then Update(w1, id, f1)
        else
          var f2 := f1.(marks := f1.marks.(natType := NatLocal, natVni := vni, flags := {SrcNat}));
          var f3 := if f.org.proto == ICMP then NeverOffloaded(f2) else f2;
          ReplaceReply(w1, id, f3, f.reply.(dst := IPv4(d.natIp), portDst := port.value), addOk)
  }

  /** The DNAT branch of `dnat_node.c`: replies are expected from the inside address. */
  function Dnat(w: World, id: FlowId, dnatIp: uint32, addOk: bool): World
    requires id in w.flows
  {
    var f := w.flows[id];
    if f.marks.flags != {} || !f.org.src.IPv4? || !f.org.dst.IPv4? then w
    else ReplaceReply(w, id, f.(marks := f.marks.(flags := {DstNat})), f.reply.(src := IPv4(dnatIp)), addOk)
  }

  function Relayed(f: Flow, lb: bool): Flow {
    if lb then f.(marks := f.marks.(flags := {DstLb}, natType := LbForward))
    else f.(marks := f.marks.(natType := NatNeigh))
  }

  /** Traffic relayed to a neighbour (NAT or load balancer) expects no reply. */
  function Relay(w: World, id: FlowId, lb: bool): World
    requires id in w.flows
  {
    var f := w.flows[id];
    if f.marks.flags != {} then w
    else DeleteFlow(Update(w, id, Relayed(f, lb)), f.reply)
  }

  /** The remaining marks: answered echo requests, recirculated load-balanced flows, and flows that
      were transmitted without any network function. */
  datatype Mark = AsTarget | Recirculated | Transmitted

  function MarkFlow(w: World, id: FlowId, m: Mark): World
    requires id in w.flows
  {
    var f := w.flows[id];
    match m
    case AsTarget =>
      if f.marks.flags != {} then w
      else Update(w, id, f.(marks := f.marks.(natType := NatAsTarget)))
    case Recirculated =>
      if f.marks.flags != {} then w
      else Update(w, id, f.(marks := f.marks.(flags := {DstLb}, natType := LbRecirc)))
    case Transmitted =>
      if f.marks.flags * {SrcNat, DstNat, DstLb} != {} then w
      else Update(w, id, f.(marks := f.marks.(flags := f.marks.flags + {DefaultFlag})))
  }

  // ----- References, aging and freeing -----

  /** The NAT tuple and source of a flow, recovered from its keys when its port is given back. */
  function TupleOf(f: Flow): OverloadKey {
    OverloadKey(V4(f.reply.dst), f.reply.portDst, V4(f.org.dst), f.org.portDst, f.org.proto)
  }

  function SourceOf(f: Flow): PortmapKey {
    PortmapKey(f.marks.natVni, f.org.src, SourcePort(f.org))
  }

  /** `dp_free_flow`: gives the NAT port back, removes both keys, purges the cache, frees the value. */
  function FreeFlow(w: World, id: FlowId): World
    requires id in w.flows
  {
    var f := w.flows[id];
    var w1 := if f.marks.natType == NatLocal && f.reply.dst.IPv4?
              then w.(ports := Remove(w.ports, SourceOf(f), TupleOf(f))) else w;
    DelKey(DelKey(w1, f.org), f.reply).(cache := None, flows := w.flows - {id})
  }

  /** `dp_ref_dec` */
  function RefDec(w: World, id: FlowId): World
    requires id in w.flows
  {
    var f := w.flows[id];
    var w1 := Update(w, id, f.(refs := f.refs.(count := f.refs.count - 1)));
    if f.refs.count - 1 == 0 then FreeFlow(w1, id) else w1
  }

  function FirstFreeSlot(slots: seq<Option<CtxId>>): (i: nat)
    ensures i <= |slots| && (i < |slots| ==> slots[i].None?)
    ensures forall j :: 0 <= j < i ==> slots[j].Some?
  {
    if slots == [] || slots[0].None? then 0 else 1 + FirstFreeSlot(slots[1..])
  }

  /** `dp_install_rte_flow_with_indirect`: a TCP rule is kept in a free slot, any other in none (its
      index stays 0); each installed rule takes one reference. `c` is the new age context. */
  function InstallRule(w: World, id: FlowId, c: CtxId, tcp: bool, hwOk: bool): World
    requires id in w.flows
  {
    var f := w.flows[id];
    var i := if tcp then FirstFreeSlot(f.refs.slots) else 0;
    if !hwOk || i >= |f.refs.slots| then w
    else
      var slots := if tcp then f.refs.slots[i := Some(c)] else f.refs.slots;
      var f1 := f.(refs := f.refs.(count := f.refs.count + 1, slots := slots));
      Update(w, id, f1).(ctxs := w.ctxs[c := AgeCtx(id, i)])
  }

  /** `dp_destroy_rte_flow_agectx`: clears the slot with the context's index, whatever it holds, and
      drops the rule's reference. */
  function DestroyCtx(w: World, c: CtxId): World
    requires c in w.ctxs && w.ctxs[c].flow in w.flows
    requires w.ctxs[c].index < |w.flows[w.ctxs[c].flow].refs.slots|
  {
    var x := w.ctxs[c];
    var f := w.flows[x.flow];
    var cleared := f.(refs := f.refs.(slots := f.refs.slots[x.index := None]));
    RefDec(Update(w, x.flow, cleared).(ctxs := w.ctxs - {c}), x.flow)
  }

  /** `dp_age_out_flow` */
  function AgeOut(w: World, id: FlowId): World
    requires id in w.flows
  {
    RefDec(Update(w, id, w.flows[id].(refs := w.flows[id].refs.(aged := true))), id)
  }

  /** What the hardware answers for a slot when it is asked for its age. */
  datatype Answer = QueryFailed | Idle | Busy

  /** An operation either completes or goes on using a flow it has already freed. */
  datatype Outcome = Done(w: World) | UsesFreed

  /** `dp_rte_flow_query_and_remove` from slot `i` on: the rules reported idle are destroyed, a failed
      query ends the loop. */
  function QueryAndRemove(w: World, id: FlowId, answers: seq<Answer>, i: nat): Outcome
    requires Referenced(w) && |answers| == SLOTS && i <= SLOTS
    decreases SLOTS - i
  {
    if i == SLOTS then Done(w)
    else if id !in w.flows then UsesFreed
    else
      var s := w.flows[id].refs.slots[i];
      if s.None? || answers[i] == Busy then QueryAndRemove(w, id, answers, i + 1)
      else if answers[i] == QueryFailed then Done(w)
      else
        DestroyKeepsReferenced(w, s.value);
        QueryAndRemove(DestroyCtx(w, s.value), id, answers, i + 1)
  }

  predicate TimedOut(f: Flow, now: uint64, hz: uint64) {
    (now - f.track.timestamp) % U64 > (hz * f.track.timeout) % U64
  }

  /** The hardware rules of a TCP flow are queried first when offloading is on. */
  function QueryStage(cfg: Config, w: World, proto: uint8, id: FlowId, answers: seq<Answer>): Outcome
    requires Referenced(w) && |answers| == SLOTS
  {
    if cfg.offload && proto == TCP then QueryAndRemove(w, id, answers, 0) else Done(w)
  }

  /** Then the software timeout is tested, reading the flow again. */
  function AgeStage(o: Outcome, id: FlowId, now: uint64, hz: uint64): Outcome {
    if o.UsesFreed? || id !in o.w.flows then UsesFreed
    else if TimedOut(o.w.flows[id], now, hz) && !o.w.flows[id].refs.aged then Done(AgeOut(o.w, id))
    else o
  }

  /** One position of the aging pass `dp_process_aged_flows_non_offload`. */
  function AgeVisit(cfg: Config, w: World, key: FlowKey, now: uint64, hz: uint64, answers: seq<Answer>): Outcome
    requires Referenced(w) && |answers| == SLOTS
  {
    if key !in w.table then Done(w)
    else AgeStage(QueryStage(cfg, w, key.proto, w.table[key], answers), w.table[key], now, hz)
  }

  /** `dp_remove_flow`: destroys the rules kept in slots, then drops the software reference without
      testing whether it has been dropped before. */
  function ForcedRemove(cfg: Config, w: World, id: FlowId): Outcome
    requires Referenced(w) && id in w.flows
  {
    var o := if cfg.offload then QueryAndRemove(w, id, seq(SLOTS, _ => Idle), 0) else Done(w);
    if o.UsesFreed? || id !in o.w.flows then UsesFreed else Done(AgeOut(o.w, id))
  }

  // ----- Reference counts are kept -----

  lemma RulesAdd(ctxs: map<CtxId, AgeCtx>, c: CtxId, x: AgeCtx, id: FlowId)
    requires c !in ctxs
    ensures |RulesOf(ctxs[c := x], id)| == |RulesOf(ctxs, id)| + (if x.flow == id then 1 else 0)
  {
    assert RulesOf(ctxs[c := x], id) == RulesOf(ctxs, id) + (if x.flow == id then {c} else {});
  }

  lemma RulesRemove(ctxs: map<CtxId, AgeCtx>, c: CtxId, id: FlowId)
    requires c in ctxs
    ensures RulesOf(ctxs - {c}, id) == RulesOf(ctxs, id) - {c}
    ensures |RulesOf(ctxs - {c}, id)| == |RulesOf(ctxs, id)| - (if ctxs[c].flow == id then 1 else 0)
  {
    assert RulesOf(ctxs - {c}, id) == RulesOf(ctxs, id) - {c};
    if ctxs[c].flow == id {
      RemoveOne(RulesOf(ctxs, id), c);
    } else {
      assert RulesOf(ctxs, id) - {c} == RulesOf(ctxs, id);
    }
  }

  /** What destroying a rule does to the objects: its context goes, other flows stay as they are, and its own
      flow is freed exactly when it has aged and this was its last rule. */
  lemma DestroyFreesIff(w: World, c: CtxId)
    requires Referenced(w) && c in w.ctxs
    ensures var w', id := DestroyCtx(w, c), w.ctxs[c].flow;
            && w'.ctxs == w.ctxs - {c}
            && (id !in w'.flows <==> w.flows[id].refs.aged && RulesOf(w.ctxs, id) == {c})
            && w'.flows.Keys == (if id in w'.flows then w.flows.Keys else w.flows.Keys - {id})
            && (forall j :: j in w'.flows && j != id ==> w'.flows[j] == w.flows[j])
  {
    var id := w.ctxs[c].flow;
    assert Counts(w.ctxs, id, w.flows[id].refs);
    var rules := RulesOf(w.ctxs, id);
    assert c in rules;
    LastOne(rules, c);
  }

  lemma DestroyKeepsCounts(w: World, c: CtxId, id: FlowId)
    requires Referenced(w) && c in w.ctxs && id in DestroyCtx(w, c).flows && id in w.flows
    requires id != w.ctxs[c].flow ==> DestroyCtx(w, c).flows[id] == w.flows[id]
    ensures Counts(w.ctxs - {c}, id, DestroyCtx(w, c).flows[id].refs)
  {
    assert Counts(w.ctxs, id, w.flows[id].refs);
    RulesRemove(w.ctxs, c, id);
    if id == w.ctxs[c].flow {
      assert c in RulesOf(w.ctxs, id);
    }
  }

  /** Destroying a rule keeps every reference count exact; its flow is freed exactly when it has aged
      and this was its last rule. */
  lemma DestroyKeepsReferenced(w: World, c: CtxId)
    requires Referenced(w) && c in w.ctxs
    ensures var w', id := DestroyCtx(w, c), w.ctxs[c].flow;
            && Referenced(w')
            && (id !in w'.flows <==> w.flows[id].refs.aged && RulesOf(w.ctxs, id) == {c})
  {
    DestroyFreesIff(w, c);
    var w', x := DestroyCtx(w, c), w.ctxs[c];
    forall d | d in w'.ctxs ensures w'.ctxs[d].flow in w'.flows && w'.ctxs[d].index < SLOTS {
      assert d in RulesOf(w.ctxs, w.ctxs[d].flow) && d != c;
    }
    forall id | id in w'.flows ensures Counts(w'.ctxs, id, w'.flows[id].refs) {
      DestroyKeepsCounts(w, c, id);
    }
  }
}
