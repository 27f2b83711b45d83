/**
 How long a flow is kept: what aging reads of a flow, in any run of the flow table, is determined by the
 packets that were found to belong to it.
 */
module FlowLifetimes {
  import opened Words
  import opened FlowKeys
  import opened TcpTracking
  import opened FlowModel
  import opened FlowSafety

  // ----- The packets a flow has seen -----

  /** A flow after the packets `ps`, given with the direction each was found to have. */
  function Seen(cfg: Config, f: Flow, ps: seq<(Dir, PktInfo)>): Flow {
    if ps == [] then f
    else
      var n := |ps| - 1;
      Touch(cfg, Seen(cfg, f, ps[..n]), ps[n].0, ps[n].1)
  }

  /** The TCP flags of the packets that move the state: an ICMP error about the flow does not, nor does a packet
      on its way to a load balancer. */
  function TcpTrace(ps: seq<(Dir, PktInfo)>): seq<Flags> {
    if ps == [] then []
    else
      var n := |ps| - 1;
      var p := ps[n].1;
      TcpTrace(ps[..n]) + (if p.l4 == TCP && p.vnf != Lb then [p.tcpFlags] else [])
  }

  /** What aging reads of a flow. */
  predicate SameTimes(f: Flow, g: Flow) {
    f.track.tcp == g.track.tcp && f.track.timeout == g.track.timeout && f.track.timestamp == g.track.timestamp
  }

  lemma TouchTracks(cfg: Config, f: Flow, dir: Dir, p: PktInfo)
    ensures var s, g := TrackFlow(f.track.tcp, p.tcpFlags), Touch(cfg, f, dir, p);
            && g.track.timestamp == p.now
            && (if p.l4 == TCP && p.vnf != Lb then g.track.tcp == s && g.track.timeout == FlowTimeout(s, cfg.timeout)
                else g.track.tcp == f.track.tcp && g.track.timeout == f.track.timeout)
  {
  }

  /** The state and timeout kept in a flow are those of its TCP packets, its timestamp that of its last packet. */
  lemma {:induction false} FlowFollowsTrace(cfg: Config, f: Flow, ps: seq<(Dir, PktInfo)>)
    requires f.track.tcp == NoState && f.track.timeout == cfg.timeout
    ensures Seen(cfg, f, ps).track.tcp == RunFlow(TcpTrace(ps))
    ensures Seen(cfg, f, ps).track.timeout == FlowTimeout(RunFlow(TcpTrace(ps)), cfg.timeout)
    ensures ps != [] ==> Seen(cfg, f, ps).track.timestamp == ps[|ps| - 1].1.now
  {
    if ps != [] {
      var n := |ps| - 1;
      FlowFollowsTrace(cfg, f, ps[..n]);
      TraceStep(cfg, Seen(cfg, f, ps[..n]), ps[n].0, ps[n].1, TcpTrace(ps[..n]));
    }
  }

  lemma TraceStep(cfg: Config, f: Flow, dir: Dir, p: PktInfo, t: seq<Flags>)
    requires f.track.tcp == RunFlow(t) && f.track.timeout == FlowTimeout(RunFlow(t), cfg.timeout)
    ensures var g, t' := Touch(cfg, f, dir, p), t + (if p.l4 == TCP && p.vnf != Lb then [p.tcpFlags] else []);
            && g.track.tcp == RunFlow(t') && g.track.timeout == FlowTimeout(RunFlow(t'), cfg.timeout)
            && g.track.timestamp == p.now
  {
    TouchTracks(cfg, f, dir, p);
    if p.l4 == TCP && p.vnf != Lb { Snoc(t, p.tcpFlags); } else { assert t + [] == t; }
  }

  // ----- The packets of a flow in a run -----

  /** The flow that step `op` finds or creates for its packet, and the direction it is given. */
  function FoundBy(cfg: Config, w: World, op: Op): Option<(FlowId, Dir)>
    requires Inv(w)
  {
    if !op.Packet? then None
    else
      var g := GetFlow(cfg, w, op.key, op.p, op.id, op.ok1, op.ok2);
      if g.flow.Some? then Some((g.flow.value, g.dir)) else None
  }

  /** The packets of the run that were found to belong to flow `id`, with their directions. */
  ghost function PacketsOf(cfg: Config, w: World, ops: seq<Op>, id: FlowId): seq<(Dir, PktInfo)>
    requires Inv(w) && LegalRun(cfg, w, ops)
    decreases |ops|
  {
    if ops == [] then []
    else
      StepKeepsInv(cfg, w, ops[0]);
      var found := FoundBy(cfg, w, ops[0]);
      (if found.Some? && found.value.0 == id then [(found.value.1, ops[0].p)] else [])
      + PacketsOf(cfg, Step(cfg, w, ops[0]), ops[1..], id)
  }

  /** Flow `id` is live in every state of the run. */
  ghost predicate LivesThrough(cfg: Config, w: World, ops: seq<Op>, id: FlowId)
    requires Inv(w) && LegalRun(cfg, w, ops)
    decreases |ops|
  {
    id in w.flows
    && (ops != [] ==> (StepKeepsInv(cfg, w, ops[0]); LivesThrough(cfg, Step(cfg, w, ops[0]), ops[1..], id)))
  }

  lemma OffloadKeepsTimes(cfg: Config, f: Flow, dir: Dir, p: PktInfo)
    ensures SameTimes(f, SetOffloadFlag(cfg, f, dir, p))
  {
  }

  lemma TouchRespectsTimes(cfg: Config, f: Flow, g: Flow, dir: Dir, p: PktInfo)
    requires SameTimes(f, g)
    ensures SameTimes(Touch(cfg, f, dir, p), Touch(cfg, g, dir, p))
  {
    TouchTracks(cfg, f, dir, p);
    TouchTracks(cfg, g, dir, p);
  }

  /** What a packet step does to a flow that was live before it. */
  lemma PacketTimes(cfg: Config, w: World, op: Op, id: FlowId)
    requires Inv(w) && op.Packet? && op.id !in w.flows && id in w.flows
    ensures var v, found := Step(cfg, w, op), FoundBy(cfg, w, op);
            && id in v.flows
            && SameTimes(v.flows[id], if found.Some? && found.value.0 == id
                                      then Touch(cfg, w.flows[id], found.value.1, op.p) else w.flows[id])
  {
    var g := GetFlow(cfg, w, op.key, op.p, op.id, op.ok1, op.ok2);
    GetFlowKeepsInv(cfg, w, op.key, op.p, op.id, op.ok1, op.ok2);
    LookupTimes(cfg, w, op.key, op.p, op.id, op.ok1, op.ok2, id);
    TouchRespectsTimes(cfg, g.w.flows[id], w.flows[id], g.dir, op.p);
    HandleUpdates(cfg, w, op.key, op.p, op.id, op.ok1, op.ok2, id);
  }

  lemma LookupTimes(cfg: Config, w: World, key: FlowKey, p: PktInfo, added: FlowId, ok1: bool, ok2: bool, id: FlowId)
    requires Inv(w) && added !in w.flows && id in w.flows
    ensures var g := GetFlow(cfg, w, key, p, added, ok1, ok2);
            id in g.w.flows && SameTimes(g.w.flows[id], w.flows[id])
  {
    if key in w.table {
      var f := w.flows[w.table[key]];
      OffloadKeepsTimes(cfg, f, Direction(f, key, p.dir), p);
    } else {
      InsertKeepsInv(cfg, w, key, p, added, ok1, ok2);
    }
  }

  /** No other step changes them while the flow lives. */
  lemma OtherStepsKeepTimes(cfg: Config, w: World, op: Op, id: FlowId)
    requires Inv(w) && Legal(cfg, w, op) && !op.Packet? && id in w.flows && id in Step(cfg, w, op).flows
    ensures SameTimes(w.flows[id], Step(cfg, w, op).flows[id])
  {
    match op
    case DoSnat(j, d, vni, hash, o, q, addOk) => SnatKeepsTimes(w, j, d, vni, hash, o, q, addOk, id);
    case DoDnat(j, dnatIp, addOk) => DnatKeepsTimes(w, j, dnatIp, addOk, id);
    case DoRelay(j, lb) => RelayKeepsTimes(w, j, lb, id);
    case DoMark(j, m) => MarkKeepsTimes(w, j, m, id);
    case Install(j, c, tcp, hwOk) => InstallKeepsTimes(w, j, c, tcp, hwOk, id);
    case RuleAged(c) => DestroyKeepsTimes(w, c, id);
    case Visit(key, now, hz, answers) =>
      if key in w.table {
        var v := VisitShape(cfg, w, key, now, hz, answers);
        AgeOutKeepsTimes(w, v, w.table[key], id);
      }
    case Remove(j) =>
      var v := RemoveShape(cfg, w, j);
      AgeOutKeepsTimes(w, v, j, id);
  }

  lemma SnatKeepsTimes(w: World, j: FlowId, d: SnatData, vni: uint32, hash: uint32, o: bool, q: bool, addOk: bool,
      id: FlowId)
    requires j in w.flows && id in w.flows
    ensures var v := Snat(w, j, d, vni, hash, o, q, addOk); id in v.flows && SameTimes(w.flows[id], v.flows[id])
  {
  }

  lemma DnatKeepsTimes(w: World, j: FlowId, dnatIp: uint32, addOk: bool, id: FlowId)
    requires j in w.flows && id in w.flows
    ensures var v := Dnat(w, j, dnatIp, addOk); id in v.flows && SameTimes(w.flows[id], v.flows[id])
  {
  }

  lemma RelayKeepsTimes(w: World, j: FlowId, lb: bool, id: FlowId)
    requires j in w.flows && id in w.flows
    ensures var v := Relay(w, j, lb); id in v.flows && SameTimes(w.flows[id], v.flows[id])
  {
  }

  lemma MarkKeepsTimes(w: World, j: FlowId, m: Mark, id: FlowId)
    requires j in w.flows && id in w.flows
    ensures var v := MarkFlow(w, j, m); id in v.flows && SameTimes(w.flows[id], v.flows[id])
  {
  }

  lemma InstallKeepsTimes(w: World, j: FlowId, c: CtxId, tcp: bool, hwOk: bool, id: FlowId)
    requires j in w.flows && id in w.flows
    ensures var v := InstallRule(w, j, c, tcp, hwOk); id in v.flows && SameTimes(w.flows[id], v.flows[id])
  {
  }

  lemma DestroyKeepsTimes(w: World, c: CtxId, id: FlowId)
    requires Inv(w) && c in w.ctxs && id in w.flows && id in DestroyCtx(w, c).flows
    ensures SameTimes(w.flows[id], DestroyCtx(w, c).flows[id])
  {
    SlotsAreCounted(w, w.ctxs[c].flow);
  }

  lemma AgeOutKeepsTimes(w: World, v: World, j: FlowId, id: FlowId)
    requires j in w.flows && id in w.flows && OnlyRulesDropped(w, v, j)
    ensures id in v.flows && SameTimes(w.flows[id], v.flows[id])
    ensures id in AgeOut(v, j).flows ==> SameTimes(w.flows[id], AgeOut(v, j).flows[id])
  {
  }

  lemma {:induction false} SeenFirst(cfg: Config, f: Flow, first: (Dir, PktInfo), ps: seq<(Dir, PktInfo)>)
    ensures Seen(cfg, f, [first] + ps) == Seen(cfg, Touch(cfg, f, first.0, first.1), ps)
    decreases |ps|
  {
    var all, n := [first] + ps, |ps|;
    if n == 0 {
      assert all[..0] == [] && Seen(cfg, f, all[..0]) == f;
    } else {
      SeenFirst(cfg, f, first, ps[..n - 1]);
      assert all[..n] == [first] + ps[..n - 1];
    }
  }

  lemma {:induction false} SeenRespectsTimes(cfg: Config, f: Flow, g: Flow, ps: seq<(Dir, PktInfo)>)
    requires SameTimes(f, g)
    ensures SameTimes(Seen(cfg, f, ps), Seen(cfg, g, ps))
  {
    if ps != [] {
      var n := |ps| - 1;
      SeenRespectsTimes(cfg, f, g, ps[..n]);
      TouchRespectsTimes(cfg, Seen(cfg, f, ps[..n]), Seen(cfg, g, ps[..n]), ps[n].0, ps[n].1);
    }
  }

  /** Over every run a flow that lives through it ends with the times its own packets give it. */
  lemma {:induction false} RunTimes(cfg: Config, w: World, ops: seq<Op>, id: FlowId)
    requires Inv(w) && LegalRun(cfg, w, ops) && LivesThrough(cfg, w, ops, id)
    ensures id in RunAll(cfg, w, ops).flows
    ensures SameTimes(RunAll(cfg, w, ops).flows[id], Seen(cfg, w.flows[id], PacketsOf(cfg, w, ops, id)))
    decreases |ops|
  {
    if ops != [] {
      StepKeepsInv(cfg, w, ops[0]);
      var v, ps := Step(cfg, w, ops[0]), PacketsOf(cfg, Step(cfg, w, ops[0]), ops[1..], id);
      RunTimes(cfg, v, ops[1..], id);
      StepTimes(cfg, w, ops[0], id, ps);
    }
  }

  lemma StepTimes(cfg: Config, w: World, op: Op, id: FlowId, ps: seq<(Dir, PktInfo)>)
    requires Inv(w) && Legal(cfg, w, op) && id in w.flows && id in Step(cfg, w, op).flows
    ensures var found := FoundBy(cfg, w, op);
            var now := if found.Some? && found.value.0 == id then [(found.value.1, op.p)] else [];
            SameTimes(Seen(cfg, Step(cfg, w, op).flows[id], ps), Seen(cfg, w.flows[id], now + ps))
  {
    var found, f, g := FoundBy(cfg, w, op), w.flows[id], Step(cfg, w, op).flows[id];
    if op.Packet? { PacketTimes(cfg, w, op, id); } else { OtherStepsKeepTimes(cfg, w, op, id); }
    if found.Some? && found.value.0 == id {
      SeenFirst(cfg, f, (found.value.1, op.p), ps);
      SeenRespectsTimes(cfg, g, Touch(cfg, f, found.value.1, op.p), ps);
    } else {
      assert [] + ps == ps;
      SeenRespectsTimes(cfg, g, f, ps);
    }
  }

  /** The state `w` is that after packet `p` created flow `id`. */
  ghost predicate JustCreated(cfg: Config, before: World, w: World, key: FlowKey, p: PktInfo, id: FlowId) {
    && Inv(before) && key !in before.table && id !in before.flows
    && w == Step(cfg, before, Op.Packet(key, p, id, true, true))
  }

  lemma CreationTimes(cfg: Config, before: World, w: World, key: FlowKey, p: PktInfo, id: FlowId)
    requires JustCreated(cfg, before, w, key, p, id)
    ensures Inv(w) && id in w.flows && SameTimes(w.flows[id], Touch(cfg, NewFlow(cfg, key, p), Org, p))
  {
    HandleKeepsInv(cfg, before, key, p, id, true, true);
  }

  /** How long a flow with these TCP packets is kept: a day if they completed a handshake and did not close it
      since and the good closes in a row before that are even in number, the configured timeout otherwise. */
  ghost function Limit(cfg: Config, t: seq<Flags>): uint32 {
    if SeenHandshake(t) && GoodCloses(t) % 2 == 0 then EXTENDED_TIMEOUT else cfg.timeout
  }

  /** What aging reads of flow `g` is what its packets `ps` give it: the time of the last one, and the limit. */
  ghost predicate LastsAs(cfg: Config, ps: seq<(Dir, PktInfo)>, g: Flow)
    requires ps != []
  {
    g.track.timestamp == ps[|ps| - 1].1.now && g.track.timeout == Limit(cfg, TcpTrace(ps))
  }

  /** More time than the limit has passed since the last of the packets. */
  ghost predicate Overdue(cfg: Config, ps: seq<(Dir, PktInfo)>, now: uint64, hz: uint64)
    requires ps != []
  {
    (now - ps[|ps| - 1].1.now) % U64 > (hz * Limit(cfg, TcpTrace(ps))) % U64
  }

  /** From its creation on, over every run it lives through, a flow times out exactly when the limit its TCP
      packets give it has passed since its last packet of any kind. */
  lemma {:induction false} TcpFlowLifetime(cfg: Config, before: World, w: World, key: FlowKey, p: PktInfo,
      ops: seq<Op>, id: FlowId, now: uint64, hz: uint64)
    requires JustCreated(cfg, before, w, key, p, id) && cfg.timeout != EXTENDED_TIMEOUT && Inv(w)
    requires LegalRun(cfg, w, ops) && LivesThrough(cfg, w, ops, id)
    ensures id in RunAll(cfg, w, ops).flows
    ensures LastsAs(cfg, [(Org, p)] + PacketsOf(cfg, w, ops, id), RunAll(cfg, w, ops).flows[id])
    ensures TimedOut(RunAll(cfg, w, ops).flows[id], now, hz)
            <==> Overdue(cfg, [(Org, p)] + PacketsOf(cfg, w, ops, id), now, hz)
  {
    var f, rest := NewFlow(cfg, key, p), PacketsOf(cfg, w, ops, id);
    CreationTimes(cfg, before, w, key, p, id);
    RunTimes(cfg, w, ops, id);
    CreatedThenSeen(cfg, f, w.flows[id], p, rest);
    FlowFollowsTrace(cfg, f, [(Org, p)] + rest);
    LimitIsTimeout(cfg, TcpTrace([(Org, p)] + rest));
    TimedOutIff(cfg, [(Org, p)] + rest, RunAll(cfg, w, ops).flows[id], now, hz);
  }

  lemma {:induction false} TimedOutIff(cfg: Config, ps: seq<(Dir, PktInfo)>, g: Flow, now: uint64, hz: uint64)
    requires ps != [] && LastsAs(cfg, ps, g)
    ensures TimedOut(g, now, hz) <==> Overdue(cfg, ps, now, hz)
  {
  }

  lemma {:induction false} CreatedThenSeen(cfg: Config, f: Flow, g: Flow, p: PktInfo, rest: seq<(Dir, PktInfo)>)
    requires SameTimes(g, Touch(cfg, f, Org, p))
    ensures SameTimes(Seen(cfg, g, rest), Seen(cfg, f, [(Org, p)] + rest))
  {
    SeenRespectsTimes(cfg, g, Touch(cfg, f, Org, p), rest);
    SeenFirst(cfg, f, (Org, p), rest);
  }

  lemma LimitIsTimeout(cfg: Config, t: seq<Flags>)
    requires cfg.timeout != EXTENDED_TIMEOUT
    ensures FlowTimeout(RunFlow(t), cfg.timeout) == Limit(cfg, t)
  {
    EstablishedIffHandshake(t, cfg.timeout);
  }
}
