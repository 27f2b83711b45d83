/**
 The network-NAT port allocator: a port map from an inside source to its NAT port with a count of
 flows, and a port-overload set holding every (NAT address and port, destination, protocol) in use.
 */
module NatPorts {
  import opened Words
  import opened FlowKeys

  datatype PortmapKey = PortmapKey(vni: uint32, srcIp: IpAddr, srcPort: uint16)
  datatype OverloadKey = OverloadKey(natIp: uint32, natPort: uint16, dstIp: uint32, dstPort: uint16, l4: uint8)
  datatype Mapping = Mapping(natIp: uint32, natPort: uint16, flowCnt: uint16)
  datatype Tables = Tables(portmap: map<PortmapKey, Mapping>, overload: set<OverloadKey>)

  /** One allocation: the packet's source and destination, the NAT configuration of its interface,
      and the hash of its source key. */
  datatype Request = Request(
    src: PortmapKey, dstIp: uint32, dstPort: uint16, l4: uint8,
    natIp: uint32, minPort: uint16, maxPort: uint16, hash: uint32)
  {
    function Tuple(port: uint16): OverloadKey {
      OverloadKey(natIp, port, dstIp, dstPort, l4)
    }

    /** The port tried in round `p`; `hash + p` is a 32-bit sum. */
    function Probe(p: nat): uint16
      requires minPort < maxPort
    {
      minPort + ((hash + p) % U32) % (maxPort - minPort)
    }
  }

  /** The first free port in probe order from round `p` on. */
  function FirstFree(overload: set<OverloadKey>, r: Request, p: nat): (port: Option<uint16>)
    requires r.minPort < r.maxPort
    ensures port.Some? ==> r.minPort <= port.value < r.maxPort && r.Tuple(port.value) !in overload
    ensures port.None? ==> forall q {:trigger r.Probe(q)} :: p <= q < r.maxPort - r.minPort ==>
        r.Tuple(r.Probe(q)) in overload
    decreases r.maxPort - r.minPort - p
  {
    if p >= r.maxPort - r.minPort then None
    else if r.Tuple(r.Probe(p)) !in overload then Some(r.Probe(p))
    else FirstFree(overload, r, p + 1)
  }

  /** The new-port search; port 0 stands for "nothing found". */
  function FindPort(overload: set<OverloadKey>, r: Request): Option<uint16> {
    if r.minPort >= r.maxPort then None
    else
      var port := FirstFree(overload, r, 0);
      if port == Some(0) then None else port
  }

  /** The source already has a NAT port and that port is free towards this destination. */
  predicate Reuses(t: Tables, r: Request) {
    r.src in t.portmap && r.Tuple(t.portmap[r.src].natPort) !in t.overload
  }

  /** `dp_allocate_network_snat_port`; the flags say whether the two hash insertions succeed. */
  function Allocate(t: Tables, r: Request, overloadOk: bool, portmapOk: bool): (Tables, Option<uint16>) {
    if Reuses(t, r) then
      var m := t.portmap[r.src];
      var counted := t.(portmap := t.portmap[r.src := m.(flowCnt := (m.flowCnt + 1) % U16)]);
      if !overloadOk then (counted, None)
      else (counted.(overload := t.overload + {r.Tuple(m.natPort)}), Some(m.natPort))
    else match FindPort(t.overload, r)
      case None => (t, None)
      case Some(port) =>
        if !overloadOk then (t, None)
        else
          var added := t.(overload := t.overload + {r.Tuple(port)});
          if !portmapOk then (added, None)
          else (added.(portmap := t.portmap[r.src := Mapping(r.natIp, port, 1)]), Some(port))
  }

  /** `dp_remove_network_snat_port` */
  function Remove(t: Tables, src: PortmapKey, tuple: OverloadKey): Tables {
    var freed := t.(overload := t.overload - {tuple});
    if src !in t.portmap then freed
    else
      var m := t.portmap[src];
      var cnt := (m.flowCnt - 1) % U16;
      freed.(portmap := if cnt == 0 then t.portmap - {src} else t.portmap[src := m.(flowCnt := cnt)])
  }

  /** The allocator as the program keeps it: two tables changed in place. */
  class Allocator {
    var portmap: map<PortmapKey, Mapping>
    var overload: set<OverloadKey>

    function Model(): Tables
      reads this
    {
      Tables(portmap, overload)
    }

    constructor ()
      ensures Model() == Tables(map[], {})
    {
      portmap, overload := map[], {};
    }

    method AllocatePort(r: Request, overloadOk: bool, portmapOk: bool) returns (port: Option<uint16>)
      modifies this
      ensures (Model(), port) == Allocate(old(Model()), r, overloadOk, portmapOk)
    {
      var needNew := true;
      var chosen: uint16 := 0;
      if r.src in portmap {
        var m := portmap[r.src];
        if r.Tuple(m.natPort) !in overload {
          portmap := portmap[r.src := m.(flowCnt := (m.flowCnt + 1) % U16)];
          chosen := m.natPort;
          needNew := false;
        }
      }
      if needNew {
        var p := 0;
        while p < r.maxPort - r.minPort
          invariant 0 <= p
          invariant r.minPort < r.maxPort ==> FirstFree(overload, r, 0) == FirstFree(overload, r, p)
          invariant chosen == 0
        {
          var tmp := r.Probe(p);
          if r.Tuple(tmp) !in overload {
            chosen := tmp;
            break;
          }
          p := p + 1;
        }
        if chosen == 0 { return None; }
      }
      if !overloadOk { return None; }
      overload := overload + {r.Tuple(chosen)};
      if needNew {
        if !portmapOk { return None; }
        portmap := portmap[r.src := Mapping(r.natIp, chosen, 1)];
      }
      return Some(chosen);
    }

    method RemovePort(src: PortmapKey, tuple: OverloadKey)
      modifies this
      ensures Model() == Remove(old(Model()), src, tuple)
    {
      overload := overload - {tuple};
      if src !in portmap { return; }
      var m := portmap[src];
      portmap := portmap[src := m.(flowCnt := (m.flowCnt - 1) % U16)];
      if portmap[src].flowCnt == 0 {
        portmap := portmap - {src};
      }
    }
  }

  // ----- What the probe visits -----

  /** A non-zero multiple of `n` is at least `n` away from zero. */
  lemma MultipleBound(x: int, n: int)
    requires n > 0
    ensures x >= 1 ==> x * n >= n
    ensures x <= -1 ==> x * n <= -n
  {
  }

  lemma ModOf(k: int, n: int, x: int)
    requires 0 <= x < n
    ensures (k * n + x) % n == x
  {
    var v := k * n + x;
    var d := v / n;
    assert (k - d) * n == v % n - x;
    MultipleBound(k - d, n);
  }

  /** The 32-bit sum does not wrap during the search, or wrapping does not disturb the residue. */
  predicate FullCycle(r: Request)
    requires r.minPort < r.maxPort
  {
    r.hash + (r.maxPort - r.minPort) <= U32 || U32 % (r.maxPort - r.minPort) == 0
  }

  ghost predicate Visits(r: Request, port: int)
    requires r.minPort < r.maxPort
  {
    exists p {:trigger r.Probe(p)} :: 0 <= p < r.maxPort - r.minPort && r.Probe(p) == port
  }

  /** On a full cycle round `p` tries residue `(hash + p) % n`. */
  lemma ProbeResidue(r: Request, p: nat)
    requires r.minPort < r.maxPort && FullCycle(r) && p < r.maxPort - r.minPort
    ensures r.Probe(p) == r.minPort + (r.hash + p) % (r.maxPort - r.minPort)
  {
    var v := r.hash + p;
    if v >= U32 {
      ModOf(1, U32, v - U32);
      DropMultiple(v, r.maxPort - r.minPort);
    } else {
      ModOf(0, U32, v);
    }
  }

  /** Taking 2^32 away does not change a residue modulo one of its divisors. */
  lemma DropMultiple(v: int, n: int)
    requires 0 < n && U32 % n == 0
    ensures (v - U32) % n == v % n
  {
    var c, d := U32 / n, v / n;
    assert v - U32 == (d - c) * n + v % n;
    ModOf(d - c, n, v % n);
  }

  lemma {:induction false} ProbeReaches(r: Request, port: int)
    requires r.minPort <= port < r.maxPort && FullCycle(r)
    ensures Visits(r, port)
  {
    var n, x := r.maxPort - r.minPort, port - r.minPort;
    var q, m := r.hash / n, r.hash % n;
    var p := if x >= m then x - m else x - m + n;
    ModOf(if x >= m then q else q + 1, n, x);
    assert r.hash + p == (if x >= m then q else q + 1) * n + x;
    ProbeResidue(r, p);
    assert r.Probe(p) == port;
  }

  lemma ResiduesDiffer(a: int, b: int, n: int)
    requires 0 < n && a < b < a + n
    ensures a % n != b % n
  {
    var d := b / n - a / n;
    assert d * n == (b / n) * n - (a / n) * n;
    MultipleBound(d, n);
  }

  lemma ProbeInjective(r: Request, p: nat, q: nat)
    requires r.minPort < r.maxPort && FullCycle(r) && p < q < r.maxPort - r.minPort
    ensures r.Probe(p) != r.Probe(q)
  {
    ProbeResidue(r, p);
    ProbeResidue(r, q);
    DifferFrom(r.minPort, r.hash + p, r.hash + q, r.maxPort - r.minPort, r.Probe(p), r.Probe(q));
  }

  lemma DifferFrom(base: int, a: int, b: int, n: int, x: int, y: int)
    requires 0 < n && a < b < a + n && x == base + a % n && y == base + b % n
    ensures x != y
  {
    ResiduesDiffer(a, b, n);
  }

  /** A port the wrapped probe never tries. */
  function MissedPort(r: Request): int
    requires r.minPort < r.maxPort
  {
    var n := r.maxPort - r.minPort;
    var x := U32 % n + (n - (U32 - r.hash)) - 1;
    r.minPort + (if x < n then x else n - 1)
  }

  lemma ProbeMisses(r: Request, p: nat)
    requires r.minPort < r.maxPort && !FullCycle(r) && p < r.maxPort - r.minPort
    ensures r.minPort <= MissedPort(r) < r.maxPort
    ensures r.Probe(p) != MissedPort(r)
  {
    if p < U32 - r.hash { MissedBeforeWrap(r, p); } else { MissedAfterWrap(r, p); }
  }

  /** Before the sum wraps the residues run up to that of 2^32 - 1. */
  lemma MissedBeforeWrap(r: Request, p: nat)
    requires r.minPort < r.maxPort && !FullCycle(r) && p < r.maxPort - r.minPort && p < U32 - r.hash
    ensures r.minPort <= MissedPort(r) < r.maxPort && r.Probe(p) != MissedPort(r)
  {
    ModOf(0, U32, r.hash + p);
    ResidueBelow(r.maxPort - r.minPort, U32 - r.hash - p);
  }

  /** The residue of a number less than `n` below 2^32. */
  lemma ResidueBelow(n: int, d: int)
    requires 0 < d < n
    ensures (U32 - d) % n == U32 % n - d + (if U32 % n < d then n else 0)
  {
    var c, y := U32 / n, U32 % n - d;
    assert U32 - d == c * n + y;
    if y >= 0 {
      ModOf(c, n, y);
    } else {
      assert c * n + y == (c - 1) * n + (y + n);
      ModOf(c - 1, n, y + n);
    }
  }

  /** After it has wrapped they start again from 0. */
  lemma MissedAfterWrap(r: Request, p: nat)
    requires r.minPort < r.maxPort && !FullCycle(r) && U32 - r.hash <= p < r.maxPort - r.minPort
    ensures r.minPort <= MissedPort(r) < r.maxPort && r.Probe(p) != MissedPort(r)
  {
    var n, a := r.maxPort - r.minPort, U32 - r.hash;
    ModOf(1, U32, p - a);
    assert r.hash + p == 1 * U32 + (p - a);
    ModOf(0, n, p - a);
  }

  /** The probe tries every port of the range if and only if the sum does not wrap harmfully,
      and then it tries each exactly once. */
  lemma ProbeCompleteIff(r: Request)
    requires r.minPort < r.maxPort
    ensures (forall port :: r.minPort <= port < r.maxPort ==> Visits(r, port)) <==> FullCycle(r)
    ensures FullCycle(r) ==>
              forall p: nat, q: nat :: p < q < r.maxPort - r.minPort ==> r.Probe(p) != r.Probe(q)
  {
    if FullCycle(r) {
      forall port | r.minPort <= port < r.maxPort ensures Visits(r, port) { ProbeReaches(r, port); }
      forall p: nat, q: nat | p < q < r.maxPort - r.minPort ensures r.Probe(p) != r.Probe(q) {
        ProbeInjective(r, p, q);
      }
    } else {
      forall p: nat | p < r.maxPort - r.minPort ensures r.Probe(p) != MissedPort(r) { ProbeMisses(r, p); }
      ProbeMisses(r, 0);
      assert !Visits(r, MissedPort(r));
    }
  }

  ghost predicate RangeFull(overload: set<OverloadKey>, r: Request) {
    forall port: uint16 :: r.minPort <= port < r.maxPort ==> r.Tuple(port) in overload
  }

  /** The search for a new port fails only when the range is full for this destination, whatever the
      tables hold, if and only if the probe is a full cycle. */
  lemma SearchCompleteIff(r: Request)
    requires 0 < r.minPort < r.maxPort
    ensures (forall o: set<OverloadKey> :: FindPort(o, r).None? <==> RangeFull(o, r)) <==> FullCycle(r)
  {
    if FullCycle(r) {
      forall o: set<OverloadKey> ensures FindPort(o, r).None? <==> RangeFull(o, r) {
        SearchFailsIffFull(o, r);
      }
    } else {
      SearchCanMiss(r);
    }
  }

  lemma SearchFailsIffFull(o: set<OverloadKey>, r: Request)
    requires 0 < r.minPort < r.maxPort && FullCycle(r)
    ensures FindPort(o, r).None? <==> RangeFull(o, r)
  {
    if FindPort(o, r).None? {
      forall port: uint16 | r.minPort <= port < r.maxPort ensures r.Tuple(port) in o {
        ProbeReaches(r, port);
      }
    }
  }

  lemma SearchCanMiss(r: Request)
    requires 0 < r.minPort < r.maxPort && !FullCycle(r)
    ensures exists o: set<OverloadKey> :: FindPort(o, r).None? && !RangeFull(o, r)
  {
    ProbeMisses(r, 0);
    var missed: uint16 := MissedPort(r);
    var o := set port: uint16 | r.minPort <= port < r.maxPort && port != missed :: r.Tuple(port);
    assert r.Tuple(missed) !in o;
    var found := FirstFree(o, r, 0);
    if found.Some? {
      assert found.value == missed;
      FirstFreeIsProbed(o, r, 0);
      var p: nat :| p < r.maxPort - r.minPort && r.Probe(p) == found.value;
      ProbeMisses(r, p);
      assert false;
    }
    assert FindPort(o, r).None? && !RangeFull(o, r);
  }

  lemma {:induction false} FirstFreeIsProbed(o: set<OverloadKey>, r: Request, p: nat)
    requires r.minPort < r.maxPort && FirstFree(o, r, p).Some?
    ensures exists q: nat {:trigger r.Probe(q)} ::
              p <= q < r.maxPort - r.minPort && r.Probe(q) == FirstFree(o, r, p).value
    decreases r.maxPort - r.minPort - p
  {
    if r.Tuple(r.Probe(p)) in o {
      FirstFreeIsProbed(o, r, p + 1);
    }
  }

  // ----- Runs of allocations and frees -----

  /** A live locally NATed flow: the source it was chosen for and the tuple it occupies. */
  datatype NatFlow = NatFlow(src: PortmapKey, tuple: OverloadKey)

  datatype NatState = NatState(t: Tables, live: map<int, NatFlow>)

  datatype Event =
    | Skip
    | Alloc(id: int, r: Request, overloadOk: bool, portmapOk: bool)
    | Free(id: int)

  const Empty: NatState := NatState(Tables(map[], {}), map[])

  function Apply(s: NatState, e: Event): NatState {
    match e
    case Skip => s
    case Alloc(id, r, overloadOk, portmapOk) =>
      var (t, port) := Allocate(s.t, r, overloadOk, portmapOk);
      NatState(t, if port.None? then s.live else s.live[id := NatFlow(r.src, r.Tuple(port.value))])
    case Free(id) =>
      if id !in s.live then s
      else NatState(Remove(s.t, s.live[id].src, s.live[id].tuple), s.live - {id})
  }

  function Run(s: NatState, es: seq<Event>): NatState
    decreases |es|
  {
    if es == [] then s else Run(Apply(s, es[0]), es[1..])
  }

  /** A new flow is not one of the live ones. */
  predicate FreshId(s: NatState, e: Event) {
    e.Alloc? ==> e.id !in s.live
  }

  ghost predicate Legal(s: NatState, es: seq<Event>)
    decreases |es|
  {
    es == [] || (FreshId(s, es[0]) && Legal(Apply(s, es[0]), es[1..]))
  }

  /** No event of the run is of the given kind. */
  ghost predicate Never(bad: (NatState, Event) -> bool, s: NatState, es: seq<Event>)
    decreases |es|
  {
    es == [] || (!bad(s, es[0]) && Never(bad, Apply(s, es[0]), es[1..]))
  }

  ghost predicate Isolated(s: NatState) {
    && (forall id :: id in s.live ==> s.live[id].tuple in s.t.overload)
    && (forall i, j :: i in s.live && j in s.live && i != j ==> s.live[i].tuple != s.live[j].tuple)
  }

  ghost predicate Occupied(s: NatState, o: OverloadKey) {
    exists id :: id in s.live && s.live[id].tuple == o
  }

  /** The overload set is exactly the set of tuples of live flows. */
  ghost predicate Exact(s: NatState) {
    Isolated(s) && forall o :: o in s.t.overload ==> Occupied(s, o)
  }

  ghost function FlowsOf(live: map<int, NatFlow>, src: PortmapKey): set<int> {
    set id | id in live && live[id].src == src
  }

  /** Every mapping counts at least one and at most all of the live flows of its source. */
  ghost predicate Counted(s: NatState) {
    forall k :: k in s.t.portmap ==> 1 <= s.t.portmap[k].flowCnt <= |FlowsOf(s.live, k)|
  }

  /** Every source with live flows has a mapping that counts all of them, and no other source has one. */
  ghost predicate Balanced(s: NatState) {
    forall k ::
      if k in s.t.portmap then |FlowsOf(s.live, k)| == s.t.portmap[k].flowCnt > 0
      else FlowsOf(s.live, k) == {}
  }

  /** The overload entry is added and the following port-map insertion fails. */
  predicate LeaksTuple(s: NatState, e: Event) {
    e.Alloc? && !Reuses(s.t, e.r) && FindPort(s.t.overload, e.r).Some? && e.overloadOk && !e.portmapOk
  }

  /** A mapping is counted up for a flow whose overload entry is then refused, or its 16-bit count wraps. */
  predicate Miscounts(s: NatState, e: Event) {
    e.Alloc? && Reuses(s.t, e.r) && (!e.overloadOk || s.t.portmap[e.r.src].flowCnt == U16 - 1)
  }

  /** A mapping is replaced because its port is already taken towards the new destination. */
  predicate Replaces(s: NatState, e: Event) {
    e.Alloc? && e.r.src in s.t.portmap && !Reuses(s.t, e.r)
    && FindPort(s.t.overload, e.r).Some? && e.overloadOk && e.portmapOk
  }

  lemma IsolatedStep(s: NatState, e: Event)
    requires Isolated(s) && FreshId(s, e)
    ensures Isolated(Apply(s, e))
  {
  }

  lemma ExactStep(s: NatState, e: Event)
    requires Exact(s) && FreshId(s, e)
    ensures Exact(Apply(s, e)) <==> !LeaksTuple(s, e)
  {
    IsolatedStep(s, e);
    var s' := Apply(s, e);
    if LeaksTuple(s, e) {
      var o := e.r.Tuple(FindPort(s.t.overload, e.r).value);
      assert o in s'.t.overload && !Occupied(s', o);
    } else {
      forall o | o in s'.t.overload ensures Occupied(s', o) {
        if o in s.t.overload {
          var id :| id in s.live && s.live[id].tuple == o;
          assert id in s'.live && s'.live[id].tuple == o;
        } else {
          assert e.id in s'.live && s'.live[e.id].tuple == o;
        }
      }
    }
  }

  /** How the flows of a source change when one flow is added or removed. */
  lemma FlowsOfChange(live: map<int, NatFlow>, id: int, f: NatFlow, k: PortmapKey)
    ensures id !in live ==>
              |FlowsOf(live[id := f], k)| == |FlowsOf(live, k)| + (if k == f.src then 1 else 0)
    ensures id in live ==>
              |FlowsOf(live - {id}, k)| == |FlowsOf(live, k)| - (if k == live[id].src then 1 else 0)
  {
    var was, added, removed := FlowsOf(live, k), FlowsOf(live[id := f], k), FlowsOf(live - {id}, k);
    assert added - {id} == was - {id} && removed == was - {id};
    SetChange(was, id);
    SetChange(added, id);
  }

  lemma CountedStep(s: NatState, e: Event)
    requires Counted(s) && FreshId(s, e) && !Miscounts(s, e)
    ensures Counted(Apply(s, e))
  {
    var s' := Apply(s, e);
    forall k | k in s'.t.portmap ensures 1 <= s'.t.portmap[k].flowCnt <= |FlowsOf(s'.live, k)| {
      match e
      case Skip =>
      case Alloc(id, r, _, _) => if id in s'.live { FlowsOfChange(s.live, id, s'.live[id], k); }
      case Free(id) => if id in s.live { FlowsOfChange(s.live, id, s.live[id], k); }
    }
  }

  ghost predicate BalancedAt(s: NatState, k: PortmapKey) {
    |FlowsOf(s.live, k)| == (if k in s.t.portmap then s.t.portmap[k].flowCnt else 0)
    && (k in s.t.portmap ==> s.t.portmap[k].flowCnt > 0)
  }

  lemma BalancedPointwise(s: NatState)
    ensures Balanced(s) <==> forall k :: BalancedAt(s, k)
  {
    if Balanced(s) {
      forall k ensures BalancedAt(s, k) {}
    } else {
      var k :| !(if k in s.t.portmap then |FlowsOf(s.live, k)| == s.t.portmap[k].flowCnt > 0
                 else FlowsOf(s.live, k) == {});
      assert !BalancedAt(s, k);
    }
  }

  lemma BalancedStepAt(s: NatState, e: Event, k: PortmapKey)
    requires FreshId(s, e) && BalancedAt(s, k) && (e.Free? && e.id in s.live ==> BalancedAt(s, s.live[e.id].src))
    ensures BalancedAt(Apply(s, e), k)
            <==> !(e.Alloc? && k == e.r.src && (Miscounts(s, e) || Replaces(s, e)))
  {
    var s' := Apply(s, e);
    match e
    case Skip =>
    case Alloc(id, r, _, _) => if id in s'.live { FlowsOfChange(s.live, id, s'.live[id], k); }
    case Free(id) => if id in s.live { FlowsOfChange(s.live, id, s.live[id], k); }
  }

  lemma BalancedStep(s: NatState, e: Event)
    requires Balanced(s) && FreshId(s, e)
    ensures Balanced(Apply(s, e)) <==> !Miscounts(s, e) && !Replaces(s, e)
  {
    var s' := Apply(s, e);
    BalancedPointwise(s);
    BalancedPointwise(s');
    forall k ensures BalancedAt(s', k) <==> !(e.Alloc? && k == e.r.src && (Miscounts(s, e) || Replaces(s, e))) {
      BalancedStepAt(s, e, k);
    }
    if e.Alloc? { assert BalancedAt(s', e.r.src) <==> !Miscounts(s, e) && !Replaces(s, e); }
  }

  /** Over every run, with or without insertion failures, no two live flows share a tuple and every
      live tuple is in the overload set. */
  lemma {:induction false} RunIsolated(s: NatState, es: seq<Event>)
    requires Isolated(s) && Legal(s, es)
    ensures Isolated(Run(s, es))
    decreases |es|
  {
    if es != [] {
      IsolatedStep(s, es[0]);
      RunIsolated(Apply(s, es[0]), es[1..]);
    }
  }

  /** Over every run in which no port-map insertion fails, the overload set is exactly the live tuples. */
  lemma {:induction false} RunExact(s: NatState, es: seq<Event>)
    requires Exact(s) && Legal(s, es) && Never(LeaksTuple, s, es)
    ensures Exact(Run(s, es))
    decreases |es|
  {
    if es != [] {
      ExactStep(s, es[0]);
      RunExact(Apply(s, es[0]), es[1..]);
    }
  }

  /** Over every run without miscounting, a mapping never counts more than its live flows, and so
      no mapping survives the last flow of its source. */
  lemma {:induction false} RunCounted(s: NatState, es: seq<Event>)
    requires Counted(s) && Legal(s, es) && Never(Miscounts, s, es)
    ensures Counted(Run(s, es))
    ensures forall k :: k in Run(s, es).t.portmap ==> FlowsOf(Run(s, es).live, k) != {}
    decreases |es|
  {
    if es != [] {
      CountedStep(s, es[0]);
      RunCounted(Apply(s, es[0]), es[1..]);
    } else {
      forall k | k in s.t.portmap ensures FlowsOf(s.live, k) != {} {
        assert |FlowsOf(s.live, k)| >= 1;
      }
    }
  }

  /** Over every run without miscounting and without replacement the counts are exact. */
  lemma {:induction false} RunBalanced(s: NatState, es: seq<Event>)
    requires Balanced(s) && Legal(s, es) && Never(Miscounts, s, es) && Never(Replaces, s, es)
    ensures Balanced(Run(s, es))
    decreases |es|
  {
    if es != [] {
      BalancedStep(s, es[0]);
      RunBalanced(Apply(s, es[0]), es[1..]);
    }
  }

  /** Both ways of going wrong from the first allocation on: a failed port-map insertion leaks the tuple,
      and a refused overload entry for a second flow of the same source leaves it counted. */
  lemma TablesCanGoWrong(r: Request, dstIp: uint32)
    requires 0 < r.minPort < r.maxPort && dstIp != r.dstIp
    ensures !Exact(Apply(Empty, Alloc(0, r, true, false)))
    ensures var s := Apply(Empty, Alloc(0, r, true, true));
            Balanced(s) && !Balanced(Apply(s, Alloc(1, r.(dstIp := dstIp), false, true)))
  {
    var first := FirstFree({}, r, 0);
    assert first == Some(r.Probe(0));
    ExactStep(Empty, Alloc(0, r, true, false));
    forall k ensures FlowsOf(Empty.live, k) == {} {}
    BalancedStep(Empty, Alloc(0, r, true, true));
    BalancedStep(Apply(Empty, Alloc(0, r, true, true)), Alloc(1, r.(dstIp := dstIp), false, true));
  }
}
