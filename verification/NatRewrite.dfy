/**
 How the DNAT and SNAT nodes rewrite the packets of a translated flow, and that what they do to a
 reply undoes what they did to the packet it answers.
 */
module NatRewrite {
  import opened Words
  import opened FlowKeys
  import opened FlowModel
  import opened FlowSafety

  /** `dnat_node.c` on a packet of a flow that is already marked. */
  function DnatNode(f: Flow, dir: Dir, p: Packet): Option<Packet> {
    if DstNat in f.marks.flags && dir == Org then
      if !f.reply.src.IPv4? then None else Some(p.(dst := f.reply.src))
    else if SrcNat in f.marks.flags && dir == Reply then
      if !f.org.src.IPv4? then None
      else
        var q := p.(dst := f.org.src);
        if f.marks.natType != NatLocal then Some(q)
        else match p.l4
          case Ports(_, _) => Some(q.(l4 := p.l4.(dstPort := f.org.srcInfo)))
          case IcmpMsg(icmpType, _, _, quoted) =>
            if icmpType == ECHO_REPLY then Some(q.(l4 := p.l4.(ident := f.org.portDst)))
            else if icmpType == ICMP_ERROR then
              if quoted.proto != TCP && quoted.proto != UDP then None
              else if quoted.srcPort == 0 || quoted.dstPort == 0 then None
              else Some(q.(l4 := p.l4.(quoted := quoted.(src := f.org.src.addr, srcPort := f.org.srcInfo))))
            else Some(q)
          case NoL4 => Some(q)
    else Some(p)
  }

  /** `snat_node.c` on a packet of a flow that is already marked. */
  function SnatNode(f: Flow, dir: Dir, p: Packet): Option<Packet> {
    if SrcNat in f.marks.flags && dir == Org then
      if !f.reply.dst.IPv4? then None
      else
        var q := p.(src := f.reply.dst);
        if f.marks.natType != NatLocal then Some(q)
        else match p.l4
          case Ports(_, _) => Some(q.(l4 := p.l4.(srcPort := f.reply.portDst)))
          case IcmpMsg(_, _, _, _) => Some(q.(l4 := p.l4.(ident := f.reply.portDst)))
          case NoL4 => Some(q)
    else if DstNat in f.marks.flags && dir == Reply then
      if !f.org.dst.IPv4? then None else Some(p.(src := f.org.dst))
    else Some(p)
  }

  function Translate(f: Flow, dir: Dir, p: Packet): Option<Packet> {
    match DnatNode(f, dir, p)
    case None => None
    case Some(q) => SnatNode(f, dir, q)
  }

  /** Packet `p` belongs to the original direction of `f`. */
  predicate OriginalOf(f: Flow, p: Packet) {
    WellParsed(p) && BuildKey(p, f.org.vni, f.org.vnf) == Some(f.org)
  }

  /** For every TCP or UDP flow with source or destination NAT: the answer to a translated packet is
      recognised by the flow's reply key, and translating it gives exactly the answer to the original. */
  lemma ReplyIsTranslatedBack(f: Flow, p: Packet, before: Dir)
    requires KeysAgree(f) && (SrcNat in f.marks.flags || DstNat in f.marks.flags)
    requires p.proto in {TCP, UDP} && OriginalOf(f, p)
    ensures var t := Translate(f, Org, p);
            && t.Some? && WellParsed(SwapPacket(t.value))
            && BuildKey(SwapPacket(t.value), f.org.vni, f.org.vnf) == Some(f.reply)
            && Translate(f, Direction(f, f.reply, before), SwapPacket(t.value)) == Some(SwapPacket(p))
  {
  }

  /** The error about the translated packet finds the flow by its reply key. */
  predicate ErrorFindsFlow(f: Flow, p: Packet, router: uint32, code: uint8, ident: uint16) {
    var t := Translate(f, Org, p);
    && t.Some? && t.value.l4.Ports? && t.value.src.IPv4? && t.value.dst.IPv4?
    && BuildKey(ErrorAbout(t.value, router, code, ident), f.org.vni, f.org.vnf) == Some(f.reply)
  }

  /** An ICMP error about a packet translated by source NAT finds the flow, and reaches the sender as an error
      about the packet the sender sent if and only if network NAT translated it: for a VIP the quoted header
      is left as it is, which shows unless the VIP is the sender's own address. */
  lemma ErrorIsTranslatedBackIff(f: Flow, p: Packet, before: Dir, router: uint32, code: uint8, ident: uint16)
    requires KeysAgree(f) && SrcNat in f.marks.flags && f.reply != f.org
    requires p.proto in {TCP, UDP} && OriginalOf(f, p)
    requires code in {PROTO_UNREACHABLE, PORT_UNREACHABLE, FRAGMENT_NEEDED}
    requires p.l4.srcPort != 0 && p.l4.dstPort != 0 && f.reply.portDst != 0
    ensures ErrorFindsFlow(f, p, router, code, ident)
    ensures Translate(f, Direction(f, f.reply, before), ErrorAbout(Translate(f, Org, p).value, router, code, ident))
            == Some(ErrorAbout(p, router, code, ident))
            <==> f.marks.natType == NatLocal || f.reply.dst == f.org.src
  {
  }

  /** What the sender behind a VIP is shown instead: an error about a packet from the VIP. */
  lemma VipErrorQuotesVip(f: Flow, p: Packet, before: Dir, router: uint32, code: uint8, ident: uint16)
    requires KeysAgree(f) && f.marks.flags == {SrcNat} && f.marks.natType == NatVip && f.reply != f.org
    requires p.proto in {TCP, UDP} && OriginalOf(f, p)
    ensures var t := Translate(f, Org, p);
            && t.Some? && t.value.l4.Ports? && t.value.src.IPv4? && t.value.dst.IPv4?
            && var shown := Translate(f, Direction(f, f.reply, before), ErrorAbout(t.value, router, code, ident));
               && shown.Some? && shown.value.dst == p.src && shown.value.l4.IcmpMsg?
               && IPv4(shown.value.l4.quoted.src) == f.reply.dst
  {
  }

  /** Under destination NAT it finds the flow too, but its own source is replaced as well: it comes out right
      if and only if the destination itself sent it and is not translated to another address. */
  lemma ErrorThroughDnatIff(f: Flow, p: Packet, before: Dir, router: uint32, code: uint8, ident: uint16)
    requires KeysAgree(f) && DstNat in f.marks.flags && f.reply != f.org
    requires p.proto in {TCP, UDP} && OriginalOf(f, p)
    requires code in {PROTO_UNREACHABLE, PORT_UNREACHABLE, FRAGMENT_NEEDED}
    requires p.l4.srcPort != 0 && p.l4.dstPort != 0
    ensures ErrorFindsFlow(f, p, router, code, ident)
    ensures Translate(f, Direction(f, f.reply, before), ErrorAbout(Translate(f, Org, p).value, router, code, ident))
            == Some(ErrorAbout(p, router, code, ident))
            <==> f.org.dst == IPv4(router) && f.reply.src == f.org.dst
  {
  }

  /** The echo reply a host sends to an echo request. */
  function EchoReplyTo(p: Packet): Packet
    requires p.l4.IcmpMsg?
  {
    Packet.Packet(p.dst, p.src, p.proto, p.l4.(icmpType := ECHO_REPLY))
  }

  /** An echo request keeps its identifier for its sender through NAT. */
  lemma EchoIsTranslatedBack(f: Flow, p: Packet, before: Dir)
    requires KeysAgree(f) && SrcNat in f.marks.flags
    requires p.proto == ICMP && p.l4.IcmpMsg? && p.l4.icmpType == ECHO_REQUEST && OriginalOf(f, p)
    ensures var t := Translate(f, Org, p);
            && t.Some? && t.value.l4.IcmpMsg?
            && BuildKey(EchoReplyTo(t.value), f.org.vni, f.org.vnf) == Some(f.reply)
            && Translate(f, Direction(f, f.reply, before), EchoReplyTo(t.value)) == Some(EchoReplyTo(p))
  {
  }

  /** The whole path in any state the flow table can reach: for a translated TCP or UDP flow whose reply
      entry is in place, the answer to a translated packet finds that flow through cache and table, in
      reply direction, and comes out as the answer to the original packet. */
  lemma RoundTrip(cfg: Config, w: World, id: FlowId, p: Packet, info: PktInfo, spare: FlowId)
    requires Inv(w) && id in w.flows && w.flows[id].reply in w.table && w.table[w.flows[id].reply] == id
    requires SrcNat in w.flows[id].marks.flags || DstNat in w.flows[id].marks.flags
    requires p.proto in {TCP, UDP} && OriginalOf(w.flows[id], p)
    ensures var f := w.flows[id];
            var t := Translate(f, Org, p);
            && t.Some? && WellParsed(SwapPacket(t.value))
            && var key := BuildKey(SwapPacket(t.value), f.org.vni, f.org.vnf);
               && key.Some?
               && var g := GetFlow(cfg, w, key.value, info, spare, true, true);
                  && g.flow == Some(id) && id in g.w.flows
                  && (g.dir == Reply <==> f.reply != f.org)
                  && Translate(g.w.flows[id], g.dir, SwapPacket(t.value)) == Some(SwapPacket(p))
  {
    assert KeysAgree(w.flows[id]);
    ReplyIsTranslatedBack(w.flows[id], p, info.dir);
    ReplyFindsFlow(cfg, w, id, info, spare);
  }

  /** Source NAT puts the reply entry in place when its insertion succeeds: either the flow was not
      eligible or no port was left, and it is unmarked, or the entry leads to it. */
  lemma SnatPlacesReply(w: World, id: FlowId, d: SnatData, vni: uint32, hash: uint32, o: bool, q: bool)
    requires Inv(w) && id in w.flows && w.flows[id].marks.flags == {}
    ensures var v := Snat(w, id, d, vni, hash, o, q, true);
            v.flows[id].marks.flags == {} || (v.flows[id].reply in v.table && v.table[v.flows[id].reply] == id)
  {
  }

  lemma DnatPlacesReply(w: World, id: FlowId, dnatIp: uint32)
    requires Inv(w) && id in w.flows && w.flows[id].marks.flags == {}
    ensures var v := Dnat(w, id, dnatIp, true);
            v.flows[id].marks.flags == {} || (v.flows[id].reply in v.table && v.table[v.flows[id].reply] == id)
  {
  }

  /** A flow whose reply entry is in place is found by its reply key; the lookup changes nothing that
      translation depends on. */
  lemma ReplyFindsFlow(cfg: Config, w: World, id: FlowId, info: PktInfo, spare: FlowId)
    requires Inv(w) && id in w.flows && w.flows[id].reply in w.table && w.table[w.flows[id].reply] == id
    ensures var f, g := w.flows[id], GetFlow(cfg, w, w.flows[id].reply, info, spare, true, true);
            && g.flow == Some(id) && id in g.w.flows
            && g.dir == Direction(f, f.reply, info.dir)
            && SameMarks(f, g.w.flows[id])
            && forall p: Packet :: Translate(g.w.flows[id], g.dir, p) == Translate(f, g.dir, p)
  {
    var f := w.flows[id];
    TouchKeepsMarks(cfg, f, Direction(f, f.reply, info.dir), info);
  }
}
