/**
 The flow table as the program runs it: one set of tables changed in place, two key buffers that take
 turns as "current" and "previous" key, reference counts with a release action, and loops over slots
 and table positions. Every method computes the corresponding function of `FlowModel`.
 */
module FlowTable {
  import opened Words
  import opened FlowKeys
  import opened TcpTracking
  import opened NatPorts
  import opened FlowModel
  import opened FlowSafety
  import opened FlowAging

  const INT_MAX: int := 0x7fff_ffff

  class Conntrack {
    const cfg: Config
    const allocator: Allocator
    const keyCache: array<FlowKey>

    var table: map<FlowKey, FlowId>
    var flows: map<FlowId, Flow>
    var ctxs: map<CtxId, AgeCtx>
    var keyCacheIndex: int          // a C int; `++` wraps
    var prevKey: Option<int>        // index of the buffer holding the cached key, or NULL
    var currKey: int                // index of the buffer the next key is built in
    var cachedFlow: FlowId

    /** The current and the previous key live in different buffers. */
    ghost predicate Shape()
      reads this
    {
      && keyCache.Length == 2
      && -INT_MAX - 1 <= keyCacheIndex <= INT_MAX
      && currKey == keyCacheIndex % 2
      && (prevKey.Some? ==> prevKey.value == 1 - currKey)
    }

    ghost function Model(): World
      requires Shape()
      reads this, keyCache, allocator
    {
      World(table, flows, ctxs, allocator.Model(),
            if prevKey.Some? then Some(Cached(keyCache[prevKey.value], cachedFlow)) else None)
    }

    ghost predicate Valid()
      reads this, keyCache, allocator
    {
      Shape() && Inv(Model())
    }

    constructor (cfg: Config, anyKey: FlowKey)
      ensures Valid() && Model() == Initial && this.cfg == cfg
      ensures fresh(keyCache) && fresh(allocator)
    {
      this.cfg := cfg;
      allocator := new Allocator();
      keyCache := new FlowKey[2](_ => anyKey);
      table, flows, ctxs := map[], map[], map[];
      keyCacheIndex, prevKey, currKey, cachedFlow := 0, None, 0, 0;
    }

    // ----- Cache and table primitives -----

    method FlushCache()
      requires Shape()
      modifies this`prevKey, this`cachedFlow
      ensures Shape() && Model() == old(Model()).(cache := None)
    {
      prevKey := None;
      cachedFlow := 0;
    }

    /** Remembers the key just built: the buffers change roles. */
    method CacheFlowVal(id: FlowId)
      requires Shape()
      modifies this`prevKey, this`currKey, this`keyCacheIndex, this`cachedFlow
      ensures Shape() && prevKey == Some(old(currKey))
      ensures Model() == old(Model()).(cache := Some(Cached(keyCache[old(currKey)], id)))
    {
      prevKey := Some(currKey);
      keyCacheIndex := if keyCacheIndex == INT_MAX then -INT_MAX - 1 else keyCacheIndex + 1;
      currKey := keyCacheIndex % 2;
      cachedFlow := id;
    }

    method DelKey(k: FlowKey)
      requires Shape()
      modifies this`table
      ensures Model() == FlowModel.DelKey(old(Model()), k)
    {
      table := table - {k};
    }

    method DeleteFlow(k: FlowKey)
      requires Shape()
      modifies this`table, this`prevKey, this`cachedFlow
      ensures Shape() && Model() == FlowModel.DeleteFlow(old(Model()), k)
    {
      DelKey(k);
      FlushCache();
    }

    method AddFlow(k: FlowKey, id: FlowId, ok: bool)
      requires Shape()
      modifies this`table
      ensures Model() == FlowModel.AddFlow(old(Model()), k, id, ok)
    {
      if ok { table := table[k := id]; }
    }

    // ----- Lookup and creation -----

    method InsertEntry(key: FlowKey, p: PktInfo, id: FlowId, ok1: bool, ok2: bool) returns (ok: bool)
      requires Shape()
      modifies this`table, this`flows, this`prevKey, this`cachedFlow
      ensures Shape() && (Model(), ok) == Insert(cfg, old(Model()), key, p, id, ok1, ok2)
    {
      if !ok1 { return false; }
      AddFlow(key, id, true);
      if !ok2 {
        DeleteFlow(key);
        return false;
      }
      AddFlow(InvertKey(key), id, true);
      flows := flows[id := NewFlow(cfg, key, p)];
      return true;
    }

    /** `dp_get_flow_val`. The key is built into the current buffer first; when that fails the buffer
        holds whatever was written and nothing else changes, in particular not the cached key. */
    method GetFlowVal(built: FlowKey, builtOk: bool, p: PktInfo, id: FlowId, ok1: bool, ok2: bool)
      returns (flow: Option<FlowId>, dir: Dir)
      requires Valid()
      modifies this, keyCache
      ensures Shape()
      ensures !builtOk ==> flow.None? && Model() == old(Model())
      ensures builtOk ==> Got(Model(), flow, dir) == GetFlow(cfg, old(Model()), built, p, id, ok1, ok2)
    {
      ghost var was := Model();
      keyCache[currKey] := built;
      assert Model() == was;
      if !builtOk { return None, p.dir; }

      if prevKey.Some? && keyCache[currKey] == keyCache[prevKey.value] {
        var f := flows[cachedFlow];
        dir := Direction(f, built, p.dir);
        flows := flows[cachedFlow := SetOffloadFlag(cfg, f, dir, p)];
        return Some(cachedFlow), dir;
      }

      if built !in table {
        var ok := InsertEntry(built, p, id, ok1, ok2);
        if !ok { return None, Org; }
        CacheFlowVal(id);
        return Some(id), Org;
      }

      var found := table[built];
      dir := Direction(flows[found], built, p.dir);
      flows := flows[found := SetOffloadFlag(cfg, flows[found], dir, p)];
      CacheFlowVal(found);
      return Some(found), dir;
    }

    /** `dp_cntrack_handle` */
    method HandlePacket(key: FlowKey, p: PktInfo, id: FlowId, ok1: bool, ok2: bool)
        returns (flow: Option<FlowId>, dir: Dir)
      requires Valid() && id !in flows
      modifies this, keyCache
      ensures Valid()
      ensures Got(Model(), flow, dir) == Handle(cfg, old(Model()), key, p, id, ok1, ok2)
    {
      assert Inv(Handle(cfg, Model(), key, p, id, ok1, ok2).w) by {
        HandleKeepsInv(cfg, Model(), key, p, id, ok1, ok2);
      }
      GetFlowKeepsInv(cfg, Model(), key, p, id, ok1, ok2);
      flow, dir := GetFlowVal(key, true, p, id, ok1, ok2);
      if flow.Some? { TouchFlow(flow.value, dir, p); }
    }

    /** What a packet changes in its flow: the timestamp and, for TCP, the state, the timeout and the
        offload decision. */
    method TouchFlow(id: FlowId, dir: Dir, p: PktInfo)
      requires Shape() && id in flows
      modifies this`flows
      ensures Model() == Update(old(Model()), id, Touch(cfg, old(flows)[id], dir, p))
    {
      var f := flows[id].(track := flows[id].track.(timestamp := p.now));
      if p.l4 == TCP && p.vnf != Lb {
        f := f.(track := f.track.(tcp := TrackFlow(f.track.tcp, p.tcpFlags)));
        f := f.(track := f.track.(timeout := FlowTimeout(f.track.tcp, cfg.timeout)));
        if f.track.tcp in {Established, FinWait, RstFin} { f := ChangeOffload(cfg, f, dir, p); }
      }
      flows := flows[id := f];
    }

    // ----- NAT and relay -----

    method ReplaceReply(id: FlowId, f: Flow, reply: FlowKey, addOk: bool)
      requires Shape()
      modifies this`table, this`flows, this`prevKey, this`cachedFlow
      ensures Shape() && Model() == FlowModel.ReplaceReply(old(Model()), id, f, reply, addOk)
    {
      DeleteFlow(f.reply);
      flows := flows[id := f.(reply := reply)];
      AddFlow(reply, id, addOk);
    }

    /** `dp_process_ipv4_snat` behind its guard in the SNAT node. */
    method ProcessSnat(id: FlowId, d: SnatData, vni: uint32, hash: uint32, overloadOk: bool, portmapOk: bool,
        addOk: bool)
      requires Valid() && id in flows
      modifies this, allocator
      ensures Valid()
      ensures Model() == Snat(old(Model()), id, d, vni, hash, overloadOk, portmapOk, addOk)
    {
      assert Inv(Snat(Model(), id, d, vni, hash, overloadOk, portmapOk, addOk)) by {
        SnatKeepsInv(Model(), id, d, vni, hash, overloadOk, portmapOk, addOk);
      }
      var f := flows[id];
      if f.marks.flags != {} || !f.org.src.IPv4? || !f.org.dst.IPv4? || (d.vipIp == 0 && d.natIp == 0) { return; }
      var f1 := if d.vipIp != 0 then f.(marks := f.marks.(natType := NatVip)) else f;
      if d.natIp == 0 {
        ReplaceReply(id, f1.(marks := f1.marks.(flags := {SrcNat})), f.reply.(dst := IPv4(d.vipIp)), addOk);
        return;
      }
      var port := allocator.AllocatePort(RequestFor(f.org, d, vni, hash), overloadOk, portmapOk);
      if port.None? {
        flows := flows[id := f1];
        return;
      }
      var f2 := f1.(marks := f1.marks.(natType := NatLocal, natVni := vni, flags := {SrcNat}));
      if f.org.proto == ICMP { f2 := NeverOffloaded(f2); }
      ReplaceReply(id, f2, f.reply.(dst := IPv4(d.natIp), portDst := port.value), addOk);
    }

    method ProcessDnat(id: FlowId, dnatIp: uint32, addOk: bool)
      requires Valid() && id in flows
      modifies this
      ensures Valid() && Model() == Dnat(old(Model()), id, dnatIp, addOk)
    {
      DnatKeepsInv(Model(), id, dnatIp, addOk);
      var f := flows[id];
      if f.marks.flags != {} || !f.org.src.IPv4? || !f.org.dst.IPv4? { return; }
      ReplaceReply(id, f.(marks := f.marks.(flags := {DstNat})), f.reply.(src := IPv4(dnatIp)), addOk);
    }

    method RelayFlow(id: FlowId, lb: bool)
      requires Valid() && id in flows
      modifies this
      ensures Valid() && Model() == Relay(old(Model()), id, lb)
    {
      RelayKeepsInv(Model(), id, lb);
      var f := flows[id];
      if f.marks.flags != {} { return; }
      flows := flows[id := Relayed(f, lb)];
      DeleteFlow(f.reply);
    }

    // ----- References -----

    method FreeFlow(id: FlowId)
      requires Shape() && id in flows
      modifies this, allocator
      ensures Shape() && Model() == FlowModel.FreeFlow(old(Model()), id)
    {
      var f := flows[id];
      if f.marks.natType == NatLocal && f.reply.dst.IPv4? {
        allocator.RemovePort(SourceOf(f), TupleOf(f));
      }
      DelKey(f.org);
      DelKey(f.reply);
      FlushCache();
      flows := flows - {id};
    }

    method RefDec(id: FlowId)
      requires Shape() && id in flows
      modifies this, allocator
      ensures Shape() && Model() == FlowModel.RefDec(old(Model()), id)
    {
      flows := flows[id := flows[id].(refs := flows[id].refs.(count := flows[id].refs.count - 1))];
      if flows[id].refs.count == 0 { FreeFlow(id); }
    }

    /** The scan of `dp_add_rte_age_ctx`. */
    static method FindSlot(slots: seq<Option<CtxId>>) returns (i: nat)
      ensures i == FirstFreeSlot(slots)
    {
      i := 0;
      while i < |slots| && slots[i].Some?
        invariant 0 <= i <= |slots|
        invariant FirstFreeSlot(slots) == i + FirstFreeSlot(slots[i..])
      {
        i := i + 1;
      }
    }

    /** `dp_install_rte_flow_with_indirect` */
    method Install(id: FlowId, c: CtxId, tcp: bool, hwOk: bool)
      requires Valid() && id in flows && c !in ctxs
      modifies this
      ensures Valid() && Model() == InstallRule(old(Model()), id, c, tcp, hwOk)
    {
      InstallKeepsInv(Model(), id, c, tcp, hwOk);
      var i := 0;
      if tcp {
        i := FindSlot(flows[id].refs.slots);
        if i == |flows[id].refs.slots| { return; }
      }
      if !hwOk { return; }  // a slot already taken is cleared again
      TakeReference(id, c, tcp, i);
    }

    /** The rule's context takes its slot, if it is a TCP rule, and one reference. */
    method TakeReference(id: FlowId, c: CtxId, tcp: bool, i: nat)
      requires Shape() && id in flows && i < |flows[id].refs.slots|
      requires i == if tcp then FirstFreeSlot(flows[id].refs.slots) else 0
      modifies this`flows, this`ctxs
      ensures Shape() && Model() == InstallRule(old(Model()), id, c, tcp, true)
    {
      var f := flows[id];
      var slots := if tcp then f.refs.slots[i := Some(c)] else f.refs.slots;
      flows := flows[id := f.(refs := f.refs.(count := f.refs.count + 1, slots := slots))];
      ctxs := ctxs[c := AgeCtx(id, i)];
    }

    /** `dp_destroy_rte_flow_agectx` */
    method DestroyAgeCtx(c: CtxId)
      requires Valid() && c in ctxs
      modifies this, allocator
      ensures Valid() && Model() == DestroyCtx(old(Model()), c)
    {
      SlotsAreCounted(Model(), ctxs[c].flow);
      DestroyKeepsInv(Model(), c);
      var x := ctxs[c];
      var f := flows[x.flow];
      flows := flows[x.flow := f.(refs := f.refs.(slots := f.refs.slots[x.index := None]))];
      ctxs := ctxs - {c};
      RefDec(x.flow);
    }

    method AgeOutFlow(id: FlowId)
      requires Valid() && id in flows && !flows[id].refs.aged
      modifies this, allocator
      ensures Valid() && Model() == AgeOut(old(Model()), id)
    {
      AgeOutKeepsInv(Model(), id);
      flows := flows[id := flows[id].(refs := flows[id].refs.(aged := true))];
      RefDec(id);
    }

    /** `dp_rte_flow_query_and_remove`; the result tells that the loop went on with a freed flow. */
    method QuerySlots(id: FlowId, answers: seq<Answer>) returns (usesFreed: bool)
      requires Valid() && |answers| == SLOTS
      modifies this, allocator
      ensures Valid()
      ensures QueryAndRemove(old(Model()), id, answers, 0) == if usesFreed then UsesFreed else Done(Model())
    {
      var i := 0;
      while i < SLOTS
        invariant 0 <= i <= SLOTS && Valid()
        invariant QueryAndRemove(old(Model()), id, answers, 0) == QueryAndRemove(Model(), id, answers, i)
      {
        if id !in flows { return true; }
        SlotsAreCounted(Model(), id);
        ghost var was := Model();
        var s := flows[id].refs.slots[i];
        if s.Some? && answers[i] != Busy {
          if answers[i] == QueryFailed { return false; }
          DestroyAgeCtx(s.value);
        }
        assert QueryAndRemove(was, id, answers, i) == QueryAndRemove(Model(), id, answers, i + 1);
        i := i + 1;
      }
      return false;
    }

    /** One position of the aging pass. */
    method VisitFlow(key: FlowKey, now: uint64, hz: uint64, answers: seq<Answer>) returns (usesFreed: bool)
      requires Valid() && |answers| == SLOTS
      modifies this, allocator
      ensures Valid()
      ensures AgeVisit(cfg, old(Model()), key, now, hz, answers) == if usesFreed then UsesFreed else Done(Model())
    {
      if key !in table { return false; }
      var id := table[key];
      if cfg.offload && key.proto == TCP {
        usesFreed := QuerySlots(id, answers);
        if usesFreed { return; }
      }
      if id !in flows { return true; }
      if TimedOut(flows[id], now, hz) && !flows[id].refs.aged { AgeOutFlow(id); }
      return false;
    }

    /** `dp_process_aged_flows_non_offload` over the positions of the table in iteration order. */
    method ProcessAgedFlows(order: seq<FlowKey>, now: uint64, hz: uint64, answers: seq<seq<Answer>>)
        returns (usesFreed: bool)
      requires Valid() && AnswersFit(order, answers)
      modifies this, allocator
      ensures Valid()
      ensures AgePass(cfg, old(Model()), order, now, hz, answers) == if usesFreed then UsesFreed else Done(Model())
    {
      for i := 0 to |order|
        invariant Valid()
        invariant AgePass(cfg, old(Model()), order, now, hz, answers)
                  == AgePass(cfg, Model(), order[i..], now, hz, answers[i..])
      {
        assert order[i..][1..] == order[i + 1..] && answers[i..][1..] == answers[i + 1..];
        usesFreed := VisitFlow(order[i], now, hz, answers[i]);
        if usesFreed { return; }
      }
      return false;
    }
  }
}
