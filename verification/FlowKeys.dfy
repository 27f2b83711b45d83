/**
 Flow keys: how a packet is turned into the key of the flow table, and how a key
 is inverted to obtain the key expected of the reply.
 */
module FlowKeys {
  import opened Words

  const ICMP: uint8 := 1
  const TCP: uint8 := 6
  const UDP: uint8 := 17
  const ICMPV6: uint8 := 58

  const ECHO_REPLY: uint8 := 0
  const ECHO_REQUEST: uint8 := 8
  const ICMP_ERROR: uint8 := 3
  const ECHO_REQUEST_V6: uint8 := 128
  const ECHO_REPLY_V6: uint8 := 129

  const PROTO_UNREACHABLE: uint8 := 2
  const PORT_UNREACHABLE: uint8 := 3
  const FRAGMENT_NEEDED: uint8 := 4

  datatype IpAddr = IPv4(addr: uint32) | IPv6(bytes: seq<uint8>)

  datatype VnfType = Undefined | LbAliasPfx | AliasPfx | Lb | Vip | Nat | InterfaceIp

  /** `srcInfo` is the source port, or the ICMP type of an ICMP flow. */
  datatype FlowKey = FlowKey(
    dst: IpAddr, proto: uint8, portDst: uint16,
    src: IpAddr, vnf: VnfType, srcInfo: uint16, vni: uint32)

  function InvertKey(k: FlowKey): FlowKey {
    var inv := k.(dst := k.src, src := k.dst);
    if k.proto == TCP || k.proto == UDP then
      inv.(srcInfo := k.portDst, portDst := k.srcInfo)
    else if k.proto == ICMP then
      inv.(srcInfo := if k.srcInfo == ECHO_REPLY then ECHO_REQUEST
                      else if k.srcInfo == ECHO_REQUEST then ECHO_REPLY
                      else 0)
    else if k.proto == ICMPV6 then
      inv.(srcInfo := if k.srcInfo == ECHO_REPLY_V6 then ECHO_REQUEST_V6
                      else if k.srcInfo == ECHO_REQUEST_V6 then ECHO_REPLY_V6
                      else 0)
    else
      inv.(portDst := 0, srcInfo := 0)
  }

  /** The keys on which inversion loses nothing. */
  predicate Invertible(k: FlowKey) {
    if k.proto == TCP || k.proto == UDP then true
    else if k.proto == ICMP then k.srcInfo in {ECHO_REPLY, ECHO_REQUEST}
    else if k.proto == ICMPV6 then k.srcInfo in {0, ECHO_REQUEST_V6, ECHO_REPLY_V6}
    else k.portDst == 0 && k.srcInfo == 0
  }

  /** Inversion is an involution on exactly the `Invertible` keys, and always lands in them. */
  lemma InvertTwice(k: FlowKey)
    ensures InvertKey(InvertKey(k)) == k <==> Invertible(k)
    ensures Invertible(InvertKey(k))
  {
    var once := InvertKey(k);
    assert once.proto == k.proto && once.dst == k.src && once.src == k.dst;
  }

  /** The header quoted inside an ICMP error message. */
  datatype Quoted = Quoted(src: uint32, dst: uint32, proto: uint8, srcPort: uint16, dstPort: uint16)

  /** What the key builder reads from a parsed packet. */
  datatype L4 =
    | Ports(srcPort: uint16, dstPort: uint16)
    | IcmpMsg(icmpType: uint8, icmpCode: uint8, ident: uint16, quoted: Quoted)
    | NoL4

  datatype Packet = Packet(src: IpAddr, dst: IpAddr, proto: uint8, l4: L4)

  predicate WellParsed(p: Packet) {
    match p.proto
    case 6 => p.l4.Ports?
    case 17 => p.l4.Ports?
    case 1 => p.l4.IcmpMsg?
    case 58 => p.l4.IcmpMsg?
    case _ => true
  }

  /** `dp_build_icmp_flow_key`: echo messages are keyed by identifier and type; a supported
      error message is keyed by the packet it complains about. */
  function BuildIcmpKey(base: FlowKey, m: L4): Option<FlowKey>
    requires m.IcmpMsg?
  {
    if m.icmpType == ECHO_REPLY || m.icmpType == ECHO_REQUEST then
      Some(base.(portDst := m.ident, srcInfo := m.icmpType))
    else if m.icmpType == ICMP_ERROR then
      if m.icmpCode != PROTO_UNREACHABLE && m.icmpCode != PORT_UNREACHABLE && m.icmpCode != FRAGMENT_NEEDED then None
      else if m.quoted.proto != TCP && m.quoted.proto != UDP then None  // ports stay zero
      else if m.quoted.srcPort == 0 || m.quoted.dstPort == 0 then None
      else
        Some(base.(dst := IPv4(m.quoted.src), src := IPv4(m.quoted.dst), proto := m.quoted.proto,
                   portDst := m.quoted.srcPort, srcInfo := m.quoted.dstPort))
    else None
  }

  function BuildKey(p: Packet, vni: uint32, vnf: VnfType): Option<FlowKey>
    requires WellParsed(p)
  {
    var base := FlowKey(p.dst, p.proto, 0, p.src, vnf, 0, vni);
    if p.proto == TCP || p.proto == UDP then
      Some(base.(portDst := p.l4.dstPort, srcInfo := p.l4.srcPort))
    else if p.proto == ICMP then BuildIcmpKey(base, p.l4)
    else if p.proto == ICMPV6 then
      Some(base.(portDst := p.l4.ident, srcInfo := p.l4.icmpType))
    else None
  }

  /** Every key built from a packet can be inverted back, except one of an ICMPv6 message that is neither an
      echo nor of type 0: inverting it twice loses the type. */
  lemma BuiltKeysAreInvertibleIff(p: Packet, vni: uint32, vnf: VnfType)
    requires WellParsed(p) && BuildKey(p, vni, vnf).Some?
    ensures Invertible(BuildKey(p, vni, vnf).value)
            <==> (p.proto == ICMPV6 ==> p.l4.icmpType in {0, ECHO_REQUEST_V6, ECHO_REPLY_V6})
  {
    if p.proto == ICMP && p.l4.icmpType == ICMP_ERROR {
      assert BuildKey(p, vni, vnf).value.proto == p.l4.quoted.proto;
    }
  }

  /** A neighbour solicitation has such a key. */
  lemma OtherIcmpv6LosesItsType(k: FlowKey)
    requires k.proto == ICMPV6 && k.srcInfo == 135
    ensures InvertKey(InvertKey(k)) == k.(srcInfo := 0) != k
  {
  }

  /** A packet sent back from destination to source over the same ports. */
  function SwapPacket(p: Packet): Packet {
    Packet(p.dst, p.src, p.proto,
           if p.l4.Ports? then Ports(p.l4.dstPort, p.l4.srcPort) else p.l4)
  }

  /** The ICMP error a router at `router` sends to the source of TCP or UDP packet `p`. */
  function ErrorAbout(p: Packet, router: uint32, code: uint8, ident: uint16): Packet
    requires p.l4.Ports? && p.src.IPv4? && p.dst.IPv4?
  {
    Packet(IPv4(router), p.src, ICMP,
           IcmpMsg(ICMP_ERROR, code, ident,
                   Quoted(p.src.addr, p.dst.addr, p.proto, p.l4.srcPort, p.l4.dstPort)))
  }

  /** The reply of a TCP or UDP packet carries the inverse key, and an ICMP error about the packet
      is given that same key, exactly when its code is supported and both ports are non-zero. */
  lemma RepliesAndErrorsShareTheInverseKey(p: Packet, vni: uint32, vnf: VnfType, router: uint32, code: uint8,
      ident: uint16)
    requires p.proto == TCP || p.proto == UDP
    requires p.l4.Ports? && p.src.IPv4? && p.dst.IPv4?
    ensures BuildKey(p, vni, vnf).Some?
    ensures BuildKey(SwapPacket(p), vni, vnf) == Some(InvertKey(BuildKey(p, vni, vnf).value))
    ensures var e := BuildKey(ErrorAbout(p, router, code, ident), vni, vnf);
            && (e.Some? <==> code in {PROTO_UNREACHABLE, PORT_UNREACHABLE, FRAGMENT_NEEDED}
                             && p.l4.srcPort != 0 && p.l4.dstPort != 0)
            && (e.Some? ==> e == BuildKey(SwapPacket(p), vni, vnf))
  {
  }

  /** The echo reply to an echo request carries the inverse key of the request. */
  lemma EchoReplyHasInverseKey(p: Packet, q: Packet, vni: uint32, vnf: VnfType)
    requires p.proto == ICMP && p.l4.IcmpMsg? && p.l4.icmpType == ECHO_REQUEST
    requires q == Packet(p.dst, p.src, ICMP, p.l4.(icmpType := ECHO_REPLY))
    ensures BuildKey(q, vni, vnf) == Some(InvertKey(BuildKey(p, vni, vnf).value))
    ensures BuildKey(p, vni, vnf) == Some(InvertKey(BuildKey(q, vni, vnf).value))
  {
  }
}
