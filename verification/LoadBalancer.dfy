/**
 A load balancer's backend slots, its backend count and its round-robin position.
 */
module LoadBalancer {
  import opened Words

  const MAX_IPS: nat := 64
  const MAX_PORTS: nat := 16

  /** A backend address as the four words it is stored in; a zero first word marks a free slot. */
  datatype BackIp = BackIp(w0: uint32, w1: uint32, w2: uint32, w3: uint32)

  const ZeroIp: BackIp := BackIp(0, 0, 0, 0)

  datatype LbPort = LbPort(protocol: uint8, port: uint16)

  datatype Lb = Lb(ports: seq<LbPort>, ips: seq<BackIp>, last: nat, cnt: uint16)

  predicate WellFormed(lb: Lb) {
    |lb.ports| == MAX_PORTS && |lb.ips| == MAX_IPS && lb.last < MAX_IPS
  }

  function Occupied(ips: seq<BackIp>): set<nat> {
    set i: nat | i < |ips| && ips[i].w0 != 0
  }

  /** The port loop of `dp_lb_rr_backend` from entry `k` on: a free entry ends the list, and a full list
      serves every port. */
  predicate Served(ports: seq<LbPort>, p: LbPort, k: nat)
    requires k <= |ports|
    decreases |ports| - k
  {
    k == |ports| || ports[k] == p || (ports[k].port != 0 && Served(ports, p, k + 1))
  }

  /** The entry for `p` comes before the end of the list. */
  ghost predicate Configured(ports: seq<LbPort>, p: LbPort) {
    exists k :: 0 <= k < |ports| && ports[k] == p && forall j :: 0 <= j < k ==> ports[j].port != 0
  }

  /** The list has no free entry. */
  predicate FullList(ports: seq<LbPort>) {
    forall j :: 0 <= j < |ports| ==> ports[j].port != 0
  }

  lemma {:induction false} ServedFrom(ports: seq<LbPort>, p: LbPort, k: nat)
    requires k <= |ports| && forall j :: 0 <= j < k ==> ports[j].port != 0 && ports[j] != p
    ensures Served(ports, p, k) <==> Configured(ports, p) || FullList(ports)
    decreases |ports| - k
  {
    if k < |ports| && ports[k] != p && ports[k].port != 0 { ServedFrom(ports, p, k + 1); }
  }

  /** A port is served if and only if it is configured or the list is full; so that only configured ports are
      served holds of a list if and only if it has a free entry. */
  lemma ServedIffConfigured(ports: seq<LbPort>, p: LbPort)
    ensures Served(ports, p, 0) <==> Configured(ports, p) || FullList(ports)
    ensures (forall q :: Served(ports, q, 0) ==> Configured(ports, q)) <==> !FullList(ports)
  {
    forall q ensures Served(ports, q, 0) <==> Configured(ports, q) || FullList(ports) { ServedFrom(ports, q, 0); }
    assert FullList(ports) ==> !Configured(ports, LbPort(0, 0));
  }

  const TcpPorts: seq<LbPort> := seq(MAX_PORTS, i requires 0 <= i < MAX_PORTS => LbPort(6, i + 1))

  /** With all entries used for TCP ports, every UDP port is served too. */
  lemma FullListServesOthers(p: LbPort)
    requires p.protocol == 17
    ensures p !in TcpPorts && Served(TcpPorts, p, 0)
  {
    ServedFrom(TcpPorts, p, 0);
  }

  /** The first occupied slot at or after `k`. */
  function FirstOccupied(ips: seq<BackIp>, k: nat): (r: Option<nat>)
    requires k <= |ips|
    ensures r.Some? ==> k <= r.value < |ips| && ips[r.value].w0 != 0
    ensures forall j :: k <= j < |ips| && (r.Some? ==> j < r.value) ==> ips[j].w0 == 0
    decreases |ips| - k
  {
    if k == |ips| then None else if ips[k].w0 != 0 then Some(k) else FirstOccupied(ips, k + 1)
  }

  /** The first occupied slot `d` or more positions after `last`, going round, short of `last` itself. */
  function NextOccupied(ips: seq<BackIp>, last: nat, d: nat): (r: Option<nat>)
    requires |ips| == MAX_IPS && last < MAX_IPS && d <= MAX_IPS
    ensures r.Some? ==> r.value < MAX_IPS && ips[r.value].w0 != 0
    decreases MAX_IPS - d
  {
    if d == MAX_IPS then None
    else if ips[(last + d) % MAX_IPS].w0 != 0 then Some((last + d) % MAX_IPS)
    else NextOccupied(ips, last, d + 1)
  }

  /** `dp_lb_rr_backend` */
  function RrBackend(lb: Lb, p: LbPort): (r: Option<nat>)
    requires WellFormed(lb)
    ensures r.Some? ==> r.value in Occupied(lb.ips)
  {
    if !Served(lb.ports, p, 0) then None
    else if lb.cnt == 1 then FirstOccupied(lb.ips, 0)
    else NextOccupied(lb.ips, lb.last, 1)
  }

  /** `dp_lb_get_backend_ip`: a selection moves the round-robin position. */
  function Select(lb: Lb, p: LbPort): Lb
    requires WellFormed(lb)
  {
    match RrBackend(lb, p)
    case None => lb
    case Some(pos) => lb.(last := pos)
  }

  datatype Status = Ok | AlreadyExists | LimitReached | NotFound

  /** The index of `ip` at or after `k`, or the number of slots. */
  function IndexOf(ips: seq<BackIp>, ip: BackIp, k: nat): (i: nat)
    requires k <= |ips|
    ensures k <= i <= |ips| && (i < |ips| ==> ips[i] == ip)
    ensures forall j :: k <= j < i ==> ips[j] != ip
    decreases |ips| - k
  {
    if k == |ips| || ips[k] == ip then k else IndexOf(ips, ip, k + 1)
  }

  /** The first free slot at or after `k`, or the number of slots. */
  function FreePos(ips: seq<BackIp>, k: nat): (i: nat)
    requires k <= |ips|
    ensures k <= i <= |ips| && (i < |ips| ==> ips[i].w0 == 0)
    ensures forall j :: k <= j < i ==> ips[j].w0 != 0
    decreases |ips| - k
  {
    if k == |ips| || ips[k].w0 == 0 then k else FreePos(ips, k + 1)
  }

  /** `dp_add_lb_back_ip` on one load balancer. */
  function Add(lb: Lb, ip: BackIp): (Lb, Status) {
    if ip in lb.ips then (lb, AlreadyExists)
    else
      var pos := FreePos(lb.ips, 0);
      if pos == |lb.ips| then (lb, LimitReached)
      else (lb.(ips := lb.ips[pos := ip], cnt := (lb.cnt + 1) % U16), Ok)
  }

  /** `dp_lb_delete_back_ip` */
  function Delete(lb: Lb, ip: BackIp): (Lb, Status) {
    var i := IndexOf(lb.ips, ip, 0);
    if i == |lb.ips| then (lb, NotFound)
    else (lb.(ips := lb.ips[i := ZeroIp], cnt := (lb.cnt - 1) % U16), Ok)
  }

  // ----- The count -----

  ghost predicate CountOk(lb: Lb) {
    lb.cnt == |Occupied(lb.ips)|
  }

  lemma {:induction false} OccupiedBound(ips: seq<BackIp>)
    ensures |Occupied(ips)| <= |ips|
  {
    if ips != [] {
      var n := |ips| - 1;
      OccupiedBound(ips[..n]);
      assert Occupied(ips) == Occupied(ips[..n]) + (if ips[n].w0 != 0 then {n} else {});
    }
  }

  lemma OccupiedUpdate(ips: seq<BackIp>, i: nat, ip: BackIp)
    requires i < |ips|
    ensures |Occupied(ips[i := ip])|
            == |Occupied(ips)| - (if ips[i].w0 != 0 then 1 else 0) + (if ip.w0 != 0 then 1 else 0)
  {
    var was, now := Occupied(ips), Occupied(ips[i := ip]);
    assert i in was <==> ips[i].w0 != 0;
    SetChange(was, i);
    if ip.w0 != 0 {
      assert now == was + {i};
    } else {
      assert now == was - {i};
    }
  }

  /** Adding a backend keeps the count equal to the number of occupied slots if and only if the address has a
      non-zero first word, is there already, or finds no free slot. */
  lemma AddKeepsCountIff(lb: Lb, ip: BackIp)
    requires WellFormed(lb) && CountOk(lb)
    ensures CountOk(Add(lb, ip).0) <==> ip.w0 != 0 || ip in lb.ips || |Occupied(lb.ips)| == MAX_IPS
  {
    FullIffNoFree(lb.ips);
    var pos := FreePos(lb.ips, 0);
    if ip !in lb.ips && pos < MAX_IPS { CountAfter(lb, pos, ip); }
  }

  /** Deleting one keeps it if and only if the address has a non-zero first word or is not there: the zero
      address matches a free slot and would be counted off. */
  lemma DeleteKeepsCountIff(lb: Lb, ip: BackIp)
    requires WellFormed(lb) && CountOk(lb)
    ensures CountOk(Delete(lb, ip).0) <==> ip.w0 != 0 || ip !in lb.ips
  {
    var i := IndexOf(lb.ips, ip, 0);
    if i < MAX_IPS { CountAfter(lb, i, ZeroIp); }
  }

  /** All slots are occupied exactly when the search for a free one fails. */
  lemma FullIffNoFree(ips: seq<BackIp>)
    ensures |Occupied(ips)| == |ips| <==> FreePos(ips, 0) == |ips|
  {
    var i := FreePos(ips, 0);
    if i < |ips| {
      OccupiedUpdate(ips, i, BackIp(1, 0, 0, 0));
      OccupiedBound(ips[i := BackIp(1, 0, 0, 0)]);
    } else {
      AllOccupied(ips, |ips|);
    }
  }

  lemma {:induction false} AllOccupied(ips: seq<BackIp>, n: nat)
    requires n <= |ips| && forall j :: 0 <= j < n ==> ips[j].w0 != 0
    ensures |Occupied(ips[..n])| == n
    ensures n == |ips| ==> |Occupied(ips)| == n
  {
    if n > 0 {
      AllOccupied(ips, n - 1);
      assert Occupied(ips[..n]) == Occupied(ips[..n - 1]) + {n - 1};
    }
    assert n == |ips| ==> ips[..n] == ips;
  }

  lemma CountAfter(lb: Lb, i: nat, ip: BackIp)
    requires WellFormed(lb) && CountOk(lb) && i < MAX_IPS
    ensures lb.cnt <= MAX_IPS
    ensures |Occupied(lb.ips[i := ip])| == lb.cnt - (if lb.ips[i].w0 != 0 then 1 else 0) + (if ip.w0 != 0 then 1 else 0)
  {
    OccupiedBound(lb.ips);
    OccupiedUpdate(lb.ips, i, ip);
  }

  /** Both happen to an empty load balancer: an address with a zero first word is counted but never selected,
      and deleting the zero address wraps the count. */
  lemma ZeroFirstWordIsMiscounted(ports: seq<LbPort>, p: LbPort)
    requires |ports| == MAX_PORTS
    ensures var lb := Lb(ports, seq(MAX_IPS, _ => ZeroIp), 0, 0);
            var (added, st) := Add(lb, BackIp(0, 0, 0, 1));
            && CountOk(lb) && st == Ok && !CountOk(added) && RrBackend(added, p).None?
            && Delete(lb, ZeroIp).0.cnt == U16 - 1
  {
    var lb := Lb(ports, seq(MAX_IPS, _ => ZeroIp), 0, 0);
    assert forall i :: 0 <= i < MAX_IPS ==> lb.ips[i].w0 == 0;
    assert Occupied(lb.ips) == {};
    var (added, st) := Add(lb, BackIp(0, 0, 0, 1));
    assert lb.ips[0] == ZeroIp && FreePos(lb.ips, 0) == 0 && IndexOf(lb.ips, ZeroIp, 0) == 0;
    AddKeepsCountIff(lb, BackIp(0, 0, 0, 1));
    assert Occupied(added.ips) == {};
  }

  datatype Op = AddIp(ip: BackIp) | DelIp(ip: BackIp) | Pick(p: LbPort)

  function Step(lb: Lb, op: Op): (r: Lb)
    requires WellFormed(lb)
    ensures WellFormed(r)
  {
    match op
    case AddIp(ip) => Add(lb, ip).0
    case DelIp(ip) => Delete(lb, ip).0
    case Pick(p) => Select(lb, p)
  }

  function RunOps(lb: Lb, ops: seq<Op>): (r: Lb)
    requires WellFormed(lb)
    ensures WellFormed(r)
    decreases |ops|
  {
    if ops == [] then lb else RunOps(Step(lb, ops[0]), ops[1..])
  }

  /** Over every run whose addresses have a non-zero first word the count is the number of backends. */
  lemma {:induction false} RunKeepsCount(lb: Lb, ops: seq<Op>)
    requires WellFormed(lb) && CountOk(lb)
    requires forall i :: 0 <= i < |ops| && !ops[i].Pick? ==> ops[i].ip.w0 != 0
    ensures CountOk(RunOps(lb, ops))
    decreases |ops|
  {
    if ops != [] {
      if ops[0].AddIp? { AddKeepsCountIff(lb, ops[0].ip); }
      if ops[0].DelIp? { DeleteKeepsCountIff(lb, ops[0].ip); }
      RunKeepsCount(Step(lb, ops[0]), ops[1..]);
    }
  }

  // ----- Fairness -----

  /** Selecting for a served port fails if and only if there is no backend. */
  lemma SelectionFailsIffEmpty(lb: Lb, p: LbPort)
    requires WellFormed(lb) && CountOk(lb) && Served(lb.ports, p, 0)
    ensures RrBackend(lb, p).None? <==> Occupied(lb.ips) == {}
  {
    var o := Occupied(lb.ips);
    if RrBackend(lb, p).None? {
      if lb.cnt != 1 {
        OnlyLastLeft(lb.ips, lb.last);
        SubsetSize(o, {lb.last});
      }
    }
  }

  /** A search that fails leaves at most the slot it started from. */
  lemma OnlyLastLeft(ips: seq<BackIp>, last: nat)
    requires |ips| == MAX_IPS && last < MAX_IPS && NextOccupied(ips, last, 1).None?
    ensures Occupied(ips) <= {last}
  {
    NextFindsAll(ips, last, 1);
    forall q | q in Occupied(ips) ensures q == last { ApartIsPositive(q, last); }
  }

  lemma ApartIsPositive(q: nat, last: nat)
    requires q < MAX_IPS && last < MAX_IPS
    ensures q == last || 1 <= (q - last) % MAX_IPS
  {
    SlotAtDistance(q, last);
  }

  /** A search that fails has seen every slot but `last` empty. */
  lemma {:induction false} NextFindsAll(ips: seq<BackIp>, last: nat, d: nat)
    requires |ips| == MAX_IPS && last < MAX_IPS && d <= MAX_IPS && NextOccupied(ips, last, d).None?
    ensures forall q: nat :: q < MAX_IPS && d <= (q - last) % MAX_IPS ==> ips[q].w0 == 0
    decreases MAX_IPS - d
  {
    if d < MAX_IPS {
      NextFindsAll(ips, last, d + 1);
      forall q: nat | q < MAX_IPS && d <= (q - last) % MAX_IPS ensures ips[q].w0 == 0 {
        SlotAtDistance(q, last);
      }
    }
  }

  lemma SlotAtDistance(q: nat, last: nat)
    requires q < MAX_IPS && last < MAX_IPS
    ensures q == (last + (q - last) % MAX_IPS) % MAX_IPS
  {
  }

  /** The positions of the next `n` selections. */
  function Picks(lb: Lb, p: LbPort, n: nat): seq<nat>
    requires WellFormed(lb)
    decreases n
  {
    if n == 0 then []
    else
      var r := RrBackend(lb, p);
      (if r.Some? then [r.value] else []) + Picks(Select(lb, p), p, n - 1)
  }

  /** How far slot `q` lies behind the round-robin position `start`: 0 for the slot right after it, 63 for
      `start` itself. */
  function Behind(start: nat, q: nat): nat {
    (q - start - 1) % MAX_IPS
  }

  /** The occupied slots further behind `start` than `t`. */
  ghost function Pending(ips: seq<BackIp>, start: nat, t: int): set<nat> {
    set q: nat | q < |ips| && ips[q].w0 != 0 && Behind(start, q) > t
  }

  lemma BehindInjective(start: nat, q: nat, r: nat)
    requires start < MAX_IPS && q < MAX_IPS && r < MAX_IPS && Behind(start, q) == Behind(start, r)
    ensures q == r
  {
  }

  /** The slot `d` positions after the one at distance `t`. */
  lemma BehindAfter(start: nat, t: int, d: nat)
    requires start < MAX_IPS && -1 <= t && 1 <= d && t + d < MAX_IPS
    ensures Behind(start, (Slot(start, t) + d) % MAX_IPS) == t + d
  {
  }

  /** The slot at distance `t` behind `start`; distance -1 is `start`. */
  function Slot(start: nat, t: int): nat {
    (start + 1 + t) % MAX_IPS
  }

  lemma SlotBehind(start: nat, q: nat)
    requires start < MAX_IPS && q < MAX_IPS
    ensures Slot(start, Behind(start, q)) == q
  {
  }

  /** From the slot at distance `t` the search reaches the nearest pending slot, if one is nearer than a
      full turn. */
  lemma {:induction false} NextIsNearestPending(ips: seq<BackIp>, start: nat, t: int, d: nat)
    requires |ips| == MAX_IPS && start < MAX_IPS && -1 <= t < MAX_IPS && 1 <= d
    requires exists q :: q in Pending(ips, start, t + d - 1) && Behind(start, q) < t + MAX_IPS
    ensures var r := NextOccupied(ips, Slot(start, t), d);
            && r.Some? && r.value in Pending(ips, start, t + d - 1)
            && Pending(ips, start, Behind(start, r.value)) == Pending(ips, start, t + d - 1) - {r.value}
    decreases MAX_IPS - d
  {
    var q :| q in Pending(ips, start, t + d - 1) && Behind(start, q) < t + MAX_IPS;
    var cur := Slot(start, t);
    var next := (cur + d) % MAX_IPS;
    BehindAfter(start, t, d);
    forall r: nat | r < MAX_IPS && Behind(start, r) == t + d ensures r == next { BehindInjective(start, r, next); }
    if ips[next].w0 == 0 {
      assert Pending(ips, start, t + d) == Pending(ips, start, t + d - 1);
      assert q in Pending(ips, start, t + d);
      NextIsNearestPending(ips, start, t, d + 1);
    }
  }

  /** One selection takes the nearest pending backend and leaves the others pending. */
  lemma SelectTakesNearest(lb: Lb, p: LbPort, start: nat, t: int) returns (r: nat, next: int)
    requires WellFormed(lb) && CountOk(lb) && lb.cnt >= 2 && Served(lb.ports, p, 0)
    requires start < MAX_IPS && -1 <= t < MAX_IPS && lb.last == Slot(start, t)
    requires Pending(lb.ips, start, t) != {}
    ensures RrBackend(lb, p) == Some(r) && r in Pending(lb.ips, start, t)
    ensures t < next < MAX_IPS && r == Slot(start, next)
    ensures Pending(lb.ips, start, next) == Pending(lb.ips, start, t) - {r}
  {
    NearPending(lb, start, t);
    assert t + 1 - 1 == t;
    NextIsNearestPending(lb.ips, start, t, 1);
    r := NextOccupied(lb.ips, lb.last, 1).value;
    next := Behind(start, r);
    SlotBehind(start, r);
  }

  lemma PicksStep(lb: Lb, p: LbPort, n: nat, r: nat)
    requires WellFormed(lb) && n > 0 && RrBackend(lb, p) == Some(r)
    ensures r < MAX_IPS && Picks(lb, p, n) == [r] + Picks(lb.(last := r), p, n - 1)
  {
  }

  lemma PendingAll(lb: Lb)
    requires WellFormed(lb)
    ensures Pending(lb.ips, lb.last, -1) == Occupied(lb.ips) && Slot(lb.last, -1) == lb.last
  {
  }

  /** With at least two backends, from any position: the next `n` selections, `n` the number of backends
      still pending, pick each pending backend exactly once. */
  lemma {:induction false} PicksArePending(lb: Lb, p: LbPort, start: nat, t: int)
    requires WellFormed(lb) && CountOk(lb) && lb.cnt >= 2 && Served(lb.ports, p, 0)
    requires start < MAX_IPS && -1 <= t < MAX_IPS && lb.last == Slot(start, t)
    ensures var todo := Pending(lb.ips, start, t);
            multiset(Picks(lb, p, |todo|)) == multiset(todo)
    decreases MAX_IPS - t
  {
    var todo := Pending(lb.ips, start, t);
    if todo != {} {
      var r, next := SelectTakesNearest(lb, p, start, t);
      PicksStep(lb, p, |todo|, r);
      var rest := Pending(lb.ips, start, next);
      RemoveOne(todo, r);
      PicksArePending(lb.(last := r), p, start, next);
      PickedFirst(todo, r, Picks(lb.(last := r), p, |rest|));
    }
  }

  lemma PickedFirst(todo: set<nat>, r: nat, more: seq<nat>)
    requires r in todo && multiset(more) == multiset(todo - {r})
    ensures multiset([r] + more) == multiset(todo)
  {
    MultisetAdd(todo - {r}, r);
    assert todo == (todo - {r}) + {r};
  }

  /** With two backends or more, a pending one is nearer than a full turn. */
  lemma NearPending(lb: Lb, start: nat, t: int)
    requires WellFormed(lb) && CountOk(lb) && lb.cnt >= 2
    requires start < MAX_IPS && -1 <= t < MAX_IPS && Pending(lb.ips, start, t) != {}
    ensures exists q :: q in Pending(lb.ips, start, t) && Behind(start, q) < t + MAX_IPS
  {
    if t >= 0 {
      var q := PickFrom(Pending(lb.ips, start, t));
    } else {
      RemoveOccupied(lb, start);
      var q := PickFrom(Occupied(lb.ips) - {start});
      if Behind(start, q) == MAX_IPS - 1 { BehindInjective(start, q, start); }
      assert q in Pending(lb.ips, start, t) && Behind(start, q) < t + MAX_IPS;
    }
  }

  lemma RemoveOccupied(lb: Lb, q: nat)
    requires CountOk(lb) && lb.cnt >= 2
    ensures Occupied(lb.ips) - {q} != {}
  {
    if Occupied(lb.ips) - {q} == {} {
      assert Occupied(lb.ips) <= {q};
      SubsetSize(Occupied(lb.ips), {q});
    }
  }

  lemma {:induction false} SubsetSize<T>(a: set<T>, b: set<T>)
    requires a <= b
    ensures |a| <= |b|
  {
    if a != {} {
      var x := PickFrom(a);
      SubsetSize(a - {x}, b - {x});
      RemoveOne(a, x);
      RemoveOne(b, x);
    }
  }

  /** Round-robin fairness: with `n` backends unchanged, any `n` consecutive selections for a served port
      pick each backend exactly once, wherever the position stands. */
  lemma Fairness(lb: Lb, p: LbPort)
    requires WellFormed(lb) && CountOk(lb) && Served(lb.ports, p, 0)
    ensures multiset(Picks(lb, p, lb.cnt)) == multiset(Occupied(lb.ips))
  {
    var o := Occupied(lb.ips);
    if lb.cnt == 1 {
      SelectionFailsIffEmpty(lb, p);
      var r := RrBackend(lb, p).value;
      RemoveOne(o, r);
      assert o == {r};
      assert Picks(lb, p, 1) == [r] + Picks(Select(lb, p), p, 0);
    } else if lb.cnt >= 2 {
      PendingAll(lb);
      PicksArePending(lb, p, lb.last, -1);
    }
  }

  /** The load balancer as the program keeps it. */
  class LbValue {
    const ports: seq<LbPort>
    const backEndIps: array<BackIp>
    var lastSelPos: nat
    var backEndCnt: uint16

    ghost predicate Valid()
      reads this, backEndIps
    {
      WellFormed(Model())
    }

    ghost function Model(): Lb
      reads this, backEndIps
    {
      Lb(ports, backEndIps[..], lastSelPos, backEndCnt)
    }

    constructor (ports: seq<LbPort>)
      requires |ports| == MAX_PORTS
      ensures Valid() && fresh(backEndIps)
      ensures Model() == Lb(ports, seq(MAX_IPS, _ => ZeroIp), 0, 0)
    {
      this.ports := ports;
      backEndIps := new BackIp[MAX_IPS](_ => ZeroIp);
      lastSelPos, backEndCnt := 0, 0;
      new;
      assert backEndIps[..] == seq(MAX_IPS, _ => ZeroIp);
    }

    method IsInserted(ip: BackIp) returns (found: bool)
      requires Valid()
      ensures found <==> ip in backEndIps[..]
    {
      for i := 0 to MAX_IPS
        invariant ip !in backEndIps[..i]
      {
        if backEndIps[i] == ip { return true; }
      }
      assert backEndIps[..MAX_IPS] == backEndIps[..];
      return false;
    }

    method LastFreePos() returns (pos: nat)
      requires Valid()
      ensures pos == FreePos(backEndIps[..], 0)
    {
      pos := 0;
      while pos < MAX_IPS && backEndIps[pos].w0 != 0
        invariant pos <= MAX_IPS && FreePos(backEndIps[..], 0) == FreePos(backEndIps[..], pos)
      {
        pos := pos + 1;
      }
    }

    method AddBackIp(ip: BackIp) returns (status: Status)
      requires Valid()
      modifies this`backEndCnt, backEndIps
      ensures Valid() && (Model(), status) == Add(old(Model()), ip)
    {
      var found := IsInserted(ip);
      if found { return AlreadyExists; }
      var pos := LastFreePos();
      if pos == MAX_IPS { return LimitReached; }
      backEndIps[pos] := ip;
      backEndCnt := (backEndCnt + 1) % U16;
      return Ok;
    }

    method DeleteBackIp(ip: BackIp) returns (status: Status)
      requires Valid()
      modifies this`backEndCnt, backEndIps
      ensures Valid() && (Model(), status) == Delete(old(Model()), ip)
    {
      for i := 0 to MAX_IPS
        invariant IndexOf(backEndIps[..], ip, 0) == IndexOf(backEndIps[..], ip, i)
        invariant backEndIps[..] == old(backEndIps[..])
      {
        if backEndIps[i] == ip {
          backEndIps[i] := ZeroIp;
          backEndCnt := (backEndCnt - 1) % U16;
          return Ok;
        }
      }
      return NotFound;
    }

    method FindBackend(p: LbPort) returns (pos: Option<nat>)
      requires Valid()
      ensures pos == RrBackend(Model(), p)
    {
      var k := 0;
      while k < MAX_PORTS && ports[k] != p
        invariant k <= MAX_PORTS && Served(ports, p, 0) == Served(ports, p, k)
      {
        if ports[k].port == 0 { return None; }
        k := k + 1;
      }
      if backEndCnt == 1 {
        k := 0;
        while k < MAX_IPS && backEndIps[k].w0 == 0
          invariant k <= MAX_IPS && FirstOccupied(backEndIps[..], 0) == FirstOccupied(backEndIps[..], k)
        {
          k := k + 1;
        }
        return if k == MAX_IPS then None else Some(k);
      }
      k := lastSelPos;
      while k < MAX_IPS + lastSelPos && (backEndIps[k % MAX_IPS].w0 == 0 || k == lastSelPos)
        invariant lastSelPos <= k <= MAX_IPS + lastSelPos
        invariant NextOccupied(backEndIps[..], lastSelPos, 1)
                  == NextOccupied(backEndIps[..], lastSelPos, if k == lastSelPos then 1 else k - lastSelPos)
      {
        k := k + 1;
      }
      return if k == MAX_IPS + lastSelPos then None else Some(k % MAX_IPS);
    }

    method GetBackendIp(p: LbPort) returns (ip: Option<BackIp>)
      requires Valid()
      modifies this`lastSelPos
      ensures Valid() && Model() == Select(old(Model()), p)
      ensures ip == match RrBackend(old(Model()), p) { case None => None case Some(i) => Some(backEndIps[i]) }
    {
      var pos := FindBackend(p);
      if pos.None? { return None; }
      lastSelPos := pos.value;
      return Some(backEndIps[pos.value]);
    }
  }
}
