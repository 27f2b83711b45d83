/**
 The connections of one virtual service: an array of slots, one per outside port, a table from the
 inside (VF port, address, L4 port) to its slot, and the scan for a slot that may be reused.
 */
module VirtsvcConnections {
  import opened Words
  import opened TcpTracking

  const SYSTEM_PORTS: nat := 1024
  const PORTCOUNT: nat := 0x1_0000 - 1024

  datatype ConnKey = ConnKey(vfPort: uint16, l4Port: uint16, ip: uint32)

  /** A slot is in use while its timestamp is not zero. */
  datatype Conn = Conn(stamp: uint64, key: ConnKey, state: ConnState)

  datatype Timeouts = Timeouts(base: uint64, established: uint64)

  datatype Svc = Svc(conns: seq<Conn>, open: map<ConnKey, nat>, last: nat)

  const FreeConn: Conn := Conn(0, ConnKey(0, 0, 0), Transient)

  /** `dp_virtsvc_is_connection_old` */
  predicate Old(c: Conn, now: uint64, t: Timeouts) {
    now > (c.stamp + (if c.state == ConnEstablished then t.established else t.base)) % U64
  }

  // ----- The scan -----

  /** The first old slot in `[lo, hi)`, or `hi`. */
  function FirstOld(conns: seq<Conn>, now: uint64, t: Timeouts, lo: nat, hi: nat): (i: nat)
    requires lo <= hi <= |conns|
    ensures lo <= i <= hi && (i < hi ==> Old(conns[i], now, t))
    ensures forall j :: lo <= j < i ==> !Old(conns[j], now, t)
    decreases hi - lo
  {
    if lo == hi || Old(conns[lo], now, t) then lo else FirstOld(conns, now, t, lo + 1, hi)
  }

  /** `dp_virtsvc_get_free_port` */
  function FreePort(conns: seq<Conn>, last: nat, now: uint64, t: Timeouts): Option<nat>
    requires last < |conns|
  {
    var i := FirstOld(conns, now, t, last + 1, |conns|);
    if i < |conns| then Some(i)
    else
      var j := FirstOld(conns, now, t, 0, last + 1);
      if j <= last then Some(j) else None
  }

  /** How many slots after the last assigned one slot `i` comes; the last assigned one comes last. */
  function Turn(last: nat, i: nat, n: nat): nat
    requires i < n && last < n
  {
    if i > last then i - last - 1 else i + n - last - 1
  }

  /** The scan returns the old slot that comes first after the last assigned one, going round, and fails
      if and only if no slot is old. */
  lemma ScanIsFirstInTurn(conns: seq<Conn>, last: nat, now: uint64, t: Timeouts)
    requires last < |conns|
    ensures FreePort(conns, last, now, t).None? <==> forall i :: 0 <= i < |conns| ==> !Old(conns[i], now, t)
    ensures FreePort(conns, last, now, t).Some? ==>
              var p := FreePort(conns, last, now, t).value;
              && p < |conns| && Old(conns[p], now, t)
              && forall i :: 0 <= i < |conns| && Old(conns[i], now, t) ==>
                  Turn(last, p, |conns|) <= Turn(last, i, |conns|)
  {
  }

  // ----- Operations -----

  /** The table after slot `p` has been taken from its holder, if it has one. */
  function Evicted(s: Svc, p: nat): map<ConnKey, nat>
    requires p < |s.conns|
  {
    if s.conns[p].stamp != 0 then s.open - {s.conns[p].key} else s.open
  }

  /** `dp_virtsvc_create_connection`; the table holds at most `PORTCOUNT` entries, and `addOk` says whether
      the insertion succeeds when there is room. A refused insertion does not undo the eviction. */
  function Create(s: Svc, key: ConnKey, now: uint64, t: Timeouts, addOk: bool): (Svc, Option<nat>)
    requires s.last < |s.conns|
  {
    match FreePort(s.conns, s.last, now, t)
    case None => (s, None)
    case Some(p) =>
      if p >= |s.conns| then (s, None)
      else
        var open := Evicted(s, p);
        if !addOk || (key !in open && |open| >= PORTCOUNT) then (s.(open := open, last := p), None)
        else (Svc(s.conns[p := s.conns[p].(key := key, state := Transient)], open[key := p], p), Some(p))
  }

  /** A packet of a connection refreshes it and, for TCP, moves its state. */
  function Refresh(c: Conn, now: uint64, tcp: Option<Flags>): Conn {
    c.(stamp := now, state := if tcp.Some? then TrackConn(c.state, tcp.value) else c.state)
  }

  function OutsidePort(idx: nat): nat { idx + SYSTEM_PORTS }

  /** The index of the slot for an outside port, a 16-bit difference. */
  function SlotIndex(port: uint16): uint16 { (port - SYSTEM_PORTS) % U16 }

  /** `virtsvc_request_next`: the outside port a request leaves from, if it is not dropped. */
  function Request(s: Svc, key: ConnKey, now: uint64, t: Timeouts, tcp: Option<Flags>, addOk: bool): (Svc, Option<nat>)
    requires s.last < |s.conns|
  {
    var (s1, idx) := if key in s.open then (s, Some(s.open[key])) else Create(s, key, now, t, addOk);
    if idx.None? || idx.value >= |s1.conns| then (s1, None)
    else (s1.(conns := s1.conns[idx.value := Refresh(s1.conns[idx.value], now, tcp)]), Some(OutsidePort(idx.value)))
  }

  datatype Verdict = Delivered(to: ConnKey) | Dropped | OutsideTable

  /** `virtsvc_reply_next`: who receives a reply to an outside port. */
  function Reply(s: Svc, port: uint16, now: uint64, tcp: Option<Flags>): (Svc, Verdict) {
    var idx := SlotIndex(port);
    if idx >= |s.conns| then (s, OutsideTable)
    else
      var c := s.conns[idx];
      if c.stamp == 0 then (s, Dropped)
      else (s.(conns := s.conns[idx := Refresh(c, now, tcp)]), Delivered(c.key))
  }

  predicate Belongs(c: Conn, vfPort: uint16) {
    c.key.vfPort == vfPort && c.stamp != 0
  }

  function ClearConn(c: Conn, vfPort: uint16): Conn {
    if Belongs(c, vfPort) then c.(stamp := 0) else c
  }

  function Cleared(conns: seq<Conn>, vfPort: uint16): seq<Conn> {
    seq(|conns|, i requires 0 <= i < |conns| => ClearConn(conns[i], vfPort))
  }

  /** The keys of the first `n` slots that belong to a VF port. */
  function KeysOf(conns: seq<Conn>, vfPort: uint16, n: nat): set<ConnKey>
    requires n <= |conns|
  {
    set i: nat | i < n && Belongs(conns[i], vfPort) :: conns[i].key
  }

  /** `dp_virtsvc_del_iface` */
  function DelIface(s: Svc, vfPort: uint16): Svc {
    Svc(Cleared(s.conns, vfPort), s.open - KeysOf(s.conns, vfPort, |s.conns|), s.last)
  }

  // ----- Table and slots -----

  /** Every table entry is backed by a slot in use that names it. */
  ghost predicate Backed(s: Svc) {
    && |s.conns| == PORTCOUNT && s.last < PORTCOUNT
    && (forall k :: k in s.open ==>
          s.open[k] < PORTCOUNT && s.conns[s.open[k]].stamp != 0 && s.conns[s.open[k]].key == k)
  }

  /** Every slot in use has its table entry. */
  ghost predicate Covered(s: Svc) {
    forall i :: 0 <= i < |s.conns| && s.conns[i].stamp != 0 ==>
      s.conns[i].key in s.open && s.open[s.conns[i].key] == i
  }

  /** The table and the slots in use are inverse to each other. */
  ghost predicate Inverse(s: Svc) {
    Backed(s) && Covered(s)
  }

  const Initial: Svc := Svc(seq(PORTCOUNT, _ => FreeConn), map[], 0)

  ghost predicate Injective(m: map<ConnKey, nat>) {
    forall k, l :: k in m && l in m && m[k] == m[l] ==> k == l
  }

  lemma {:induction false} InjectiveFits(m: map<ConnKey, nat>, n: nat)
    requires Injective(m) && forall k :: k in m ==> m[k] < n
    ensures |m| <= n
    decreases n
  {
    if m != map[] {
      var k := PickFrom(m.Keys);
      assert n > 0;
      if k' :| k' in m && m[k'] == n - 1 {
        var rest := m - {k'};
        assert rest.Keys == m.Keys - {k'};
        RemoveOne(m.Keys, k');
        InjectiveFits(rest, n - 1);
      } else {
        InjectiveFits(m, n - 1);
      }
    }
  }

  /** A table that avoids one slot still has room for one entry. */
  lemma RoomForOne(m: map<ConnKey, nat>, key: ConnKey, p: nat)
    requires Injective(m) && key !in m && p < PORTCOUNT
    requires forall k :: k in m ==> m[k] < PORTCOUNT && m[k] != p
    ensures |m| < PORTCOUNT
  {
    var more := m[key := p];
    InjectiveFits(more, PORTCOUNT);
    assert more.Keys == m.Keys + {key};
  }

  /** The table after making room in slot `p` avoids `p` and is not full. */
  lemma MakingRoom(s: Svc, key: ConnKey, p: nat)
    requires Backed(s) && key !in s.open && p < PORTCOUNT
    ensures var open := Evicted(s, p);
            && |open| < PORTCOUNT && key !in open
            && (forall k :: k in open ==> k in s.open && open[k] == s.open[k] != p)
  {
    RoomForOne(Evicted(s, p), key, p);
  }

  /** Creation with the full-table case ruled out. */
  lemma CreateShape(s: Svc, key: ConnKey, now: uint64, t: Timeouts, addOk: bool)
    requires Backed(s) && key !in s.open
    ensures match FreePort(s.conns, s.last, now, t)
            case None => Create(s, key, now, t, addOk) == (s, None)
            case Some(p) =>
              && p < PORTCOUNT
              && Create(s, key, now, t, addOk) ==
                 if addOk then
                   (Svc(s.conns[p := s.conns[p].(key := key, state := Transient)], Evicted(s, p)[key := p], p), Some(p))
                 else (s.(open := Evicted(s, p), last := p), None)
  {
    ScanIsFirstInTurn(s.conns, s.last, now, t);
    var p := FreePort(s.conns, s.last, now, t);
    if p.Some? { MakingRoom(s, key, p.value); }
  }

  /** A request is refused exactly when no slot is old or the hash insertion fails: the table is never full.
      The slot's own timestamp is set by the caller. */
  lemma CreateSucceedsIffOldSlot(s: Svc, key: ConnKey, now: uint64, t: Timeouts, addOk: bool)
    requires Backed(s) && key !in s.open
    ensures Create(s, key, now, t, addOk).1.None?
            <==> !addOk || forall i :: 0 <= i < PORTCOUNT ==> !Old(s.conns[i], now, t)
    ensures (forall i :: 0 <= i < PORTCOUNT ==> !Old(s.conns[i], now, t)) ==> Create(s, key, now, t, addOk).0 == s
  {
    ScanIsFirstInTurn(s.conns, s.last, now, t);
    CreateShape(s, key, now, t, addOk);
  }

  // ----- Requests -----

  /** The service after slot `p` has been given to `key` and refreshed. */
  function Renewed(s: Svc, key: ConnKey, p: nat, now: uint64, tcp: Option<Flags>): Svc
    requires p < |s.conns|
  {
    Svc(s.conns[p := Refresh(s.conns[p].(key := key, state := Transient), now, tcp)], Evicted(s, p)[key := p], p)
  }

  lemma RequestShape(s: Svc, key: ConnKey, now: uint64, t: Timeouts, tcp: Option<Flags>, addOk: bool)
    requires Backed(s) && key !in s.open
    ensures match FreePort(s.conns, s.last, now, t)
            case None => Request(s, key, now, t, tcp, addOk) == (s, None)
            case Some(p) =>
              && p < PORTCOUNT
              && Request(s, key, now, t, tcp, addOk) ==
                 if addOk then (Renewed(s, key, p, now, tcp), Some(OutsidePort(p)))
                 else (s.(open := Evicted(s, p), last := p), None)
  {
    CreateShape(s, key, now, t, addOk);
    var p := FreePort(s.conns, s.last, now, t);
    if p.Some? {
      var c := s.conns[p.value].(key := key, state := Transient);
      assert s.conns[p.value := c][p.value := Refresh(c, now, tcp)] == s.conns[p.value := Refresh(c, now, tcp)];
    }
  }

  lemma RefreshKeepsBoth(s: Svc, i: nat, now: uint64, tcp: Option<Flags>)
    requires Backed(s) && i < PORTCOUNT && s.conns[i].stamp != 0 && now != 0
    ensures Backed(s.(conns := s.conns[i := Refresh(s.conns[i], now, tcp)]))
    ensures Covered(s) ==> Covered(s.(conns := s.conns[i := Refresh(s.conns[i], now, tcp)]))
  {
  }

  lemma RenewedKeepsBacked(s: Svc, key: ConnKey, p: nat, now: uint64, tcp: Option<Flags>)
    requires Backed(s) && key !in s.open && p < PORTCOUNT && now != 0
    ensures Backed(Renewed(s, key, p, now, tcp))
  {
    MakingRoom(s, key, p);
  }

  lemma RenewedKeepsCovered(s: Svc, key: ConnKey, p: nat, now: uint64, tcp: Option<Flags>)
    requires Inverse(s) && key !in s.open && p < PORTCOUNT && now != 0
    ensures Covered(Renewed(s, key, p, now, tcp))
  {
    var s' := Renewed(s, key, p, now, tcp);
    forall i | 0 <= i < PORTCOUNT && i != p && s.conns[i].stamp != 0
      ensures s'.conns[i].key in s'.open && s'.open[s'.conns[i].key] == i
    {
      assert s'.conns[i] == s.conns[i] && s.open[s.conns[i].key] == i;
    }
  }

  /** The slot chosen for a new connection has a holder, and the insertion of the new key is refused. */
  predicate RefusedEviction(s: Svc, key: ConnKey, now: uint64, t: Timeouts, addOk: bool)
    requires s.last < |s.conns|
  {
    !addOk && key !in s.open
    && var p := FreePort(s.conns, s.last, now, t);
       p.Some? && p.value < |s.conns| && s.conns[p.value].stamp != 0
  }

  /** A request keeps every entry backed, whether or not its insertion is refused, and leaves from the port
      of its own entry. It keeps table and slots inverse if and only if it is not a refused eviction. */
  lemma RequestKeepsInverseIff(s: Svc, key: ConnKey, now: uint64, t: Timeouts, tcp: Option<Flags>, addOk: bool)
    requires Backed(s) && now != 0
    ensures var (s', port) := Request(s, key, now, t, tcp, addOk);
            && Backed(s')
            && (port.Some? ==> key in s'.open && port.value == OutsidePort(s'.open[key]))
            && (Covered(s) ==> (Inverse(s') <==> !RefusedEviction(s, key, now, t, addOk)))
  {
    if key in s.open {
      RefreshKeepsBoth(s, s.open[key], now, tcp);
    } else {
      RequestShape(s, key, now, t, tcp, addOk);
      var p := FreePort(s.conns, s.last, now, t);
      if p.Some? {
        if addOk {
          RenewedKeepsBacked(s, key, p.value, now, tcp);
          if Covered(s) { RenewedKeepsCovered(s, key, p.value, now, tcp); }
        } else {
          RefusedKeepsBacked(s, key, p.value);
        }
      }
    }
  }

  lemma RefusedKeepsBacked(s: Svc, key: ConnKey, p: nat)
    requires Backed(s) && key !in s.open && p < PORTCOUNT
    ensures var s' := s.(open := Evicted(s, p), last := p);
            Backed(s') && (Covered(s) ==> (Covered(s') <==> s.conns[p].stamp == 0))
  {
    var s' := s.(open := Evicted(s, p), last := p);
    if s.conns[p].stamp != 0 {
      assert s'.conns[p].key !in s'.open;
    }
  }

  /** What a refused eviction leaves behind: the old holder has no entry, yet a reply to its former port is
      still delivered to it. */
  lemma RefusedHolderStillAnswered(s: Svc, key: ConnKey, now: uint64, t: Timeouts, tcp: Option<Flags>)
    requires Inverse(s) && RefusedEviction(s, key, now, t, false)
    ensures var s', p := Request(s, key, now, t, tcp, false).0, FreePort(s.conns, s.last, now, t).value;
            && p < PORTCOUNT && s.conns[p].key !in s'.open
            && Reply(s', OutsidePort(p), now, tcp).1 == Delivered(s.conns[p].key)
  {
    RequestShape(s, key, now, t, tcp, false);
    PortsAndSlots(OutsidePort(FreePort(s.conns, s.last, now, t).value));
  }

  /** Reclaiming such a slot later takes the entry away that its former holder was given meanwhile, although
      that entry's own slot is in use. */
  lemma ReclaimingTakesNewEntry(s: Svc, key: ConnKey, now: uint64, t: Timeouts, addOk: bool)
    requires Backed(s) && key !in s.open && FreePort(s.conns, s.last, now, t).Some?
    requires var p := FreePort(s.conns, s.last, now, t).value;
             p < PORTCOUNT && s.conns[p].stamp != 0 && s.conns[p].key in s.open && s.open[s.conns[p].key] != p
    ensures var k := s.conns[FreePort(s.conns, s.last, now, t).value].key;
            var s' := Create(s, key, now, t, addOk).0;
            k !in s'.open && s'.conns[s.open[k]].stamp != 0 && s'.conns[s.open[k]].key == k
  {
    CreateShape(s, key, now, t, addOk);
  }

  // ----- Replies and removal of interfaces -----

  lemma ReplyKeepsInverse(s: Svc, port: uint16, now: uint64, tcp: Option<Flags>)
    requires Backed(s) && now != 0
    ensures Backed(Reply(s, port, now, tcp).0)
    ensures Covered(s) ==> Inverse(Reply(s, port, now, tcp).0)
  {
    var i := SlotIndex(port);
    if i < PORTCOUNT && s.conns[i].stamp != 0 { RefreshKeepsBoth(s, i, now, tcp); }
  }

  /** Removing an interface closes exactly its connections. */
  lemma DelIfaceKeepsInverse(s: Svc, vfPort: uint16)
    requires Backed(s)
    ensures Backed(DelIface(s, vfPort))
    ensures Covered(s) ==> Inverse(DelIface(s, vfPort))
    ensures forall k :: k in DelIface(s, vfPort).open <==> k in s.open && k.vfPort != vfPort
  {
    var s' := DelIface(s, vfPort);
    var gone := KeysOf(s.conns, vfPort, |s.conns|);
    forall k | k in s.open ensures k in gone <==> k.vfPort == vfPort {
      if k.vfPort == vfPort { assert Belongs(s.conns[s.open[k]], vfPort) && s.conns[s.open[k]].key == k; }
    }
    forall k | k in s'.open ensures s'.conns[s'.open[k]].stamp != 0 && s'.conns[s'.open[k]].key == k {
      assert k in s.open && k !in gone;
    }
    if Covered(s) {
      forall i | 0 <= i < PORTCOUNT && s'.conns[i].stamp != 0
        ensures s'.conns[i].key in s'.open && s'.open[s'.conns[i].key] == i
      {
        assert s'.conns[i] == s.conns[i] && !Belongs(s.conns[i], vfPort);
      }
    }
  }

  // ----- Runs -----

  datatype Op =
    | Ask(key: ConnKey, now: uint64, tcp: Option<Flags>, addOk: bool)
    | Answer(port: uint16, now: uint64, tcp: Option<Flags>)
    | DropIface(vfPort: uint16)

  function Step(s: Svc, t: Timeouts, op: Op): Svc
    requires s.last < |s.conns|
  {
    match op
    case Ask(key, now, tcp, addOk) => Request(s, key, now, t, tcp, addOk).0
    case Answer(port, now, tcp) => Reply(s, port, now, tcp).0
    case DropIface(vfPort) => DelIface(s, vfPort)
  }

  /** The cycle counter is running. */
  predicate Timed(op: Op) {
    (op.Ask? || op.Answer?) ==> op.now != 0
  }

  predicate Orphans(s: Svc, t: Timeouts, op: Op)
    requires s.last < |s.conns|
  {
    op.Ask? && RefusedEviction(s, op.key, op.now, t, op.addOk)
  }

  /** Every step keeps every entry backed, and keeps table and slots inverse if and only if it is not a
      refused eviction. */
  lemma StepKeepsInverseIff(s: Svc, t: Timeouts, op: Op)
    requires Backed(s) && Timed(op)
    ensures Backed(Step(s, t, op))
    ensures Covered(s) ==> (Inverse(Step(s, t, op)) <==> !Orphans(s, t, op))
  {
    match op
    case Ask(key, now, tcp, addOk) => RequestKeepsInverseIff(s, key, now, t, tcp, addOk);
    case Answer(port, now, tcp) => ReplyKeepsInverse(s, port, now, tcp);
    case DropIface(vfPort) => DelIfaceKeepsInverse(s, vfPort);
  }

  function RunOps(s: Svc, t: Timeouts, ops: seq<Op>): (r: Svc)
    requires Backed(s) && forall i :: 0 <= i < |ops| ==> Timed(ops[i])
    ensures Backed(r)
    decreases |ops|
  {
    if ops == [] then s
    else
      StepKeepsInverseIff(s, t, ops[0]);
      RunOps(Step(s, t, ops[0]), t, ops[1..])
  }

  /** No step of the run is a refused eviction. */
  ghost predicate NoOrphans(s: Svc, t: Timeouts, ops: seq<Op>)
    requires Backed(s) && forall i :: 0 <= i < |ops| ==> Timed(ops[i])
    decreases |ops|
  {
    ops == [] ||
    (!Orphans(s, t, ops[0]) && (StepKeepsInverseIff(s, t, ops[0]); NoOrphans(Step(s, t, ops[0]), t, ops[1..])))
  }

  lemma {:induction false} RunKeepsInverse(s: Svc, t: Timeouts, ops: seq<Op>)
    requires Inverse(s) && (forall i :: 0 <= i < |ops| ==> Timed(ops[i])) && NoOrphans(s, t, ops)
    ensures Inverse(RunOps(s, t, ops))
    decreases |ops|
  {
    if ops != [] {
      StepKeepsInverseIff(s, t, ops[0]);
      RunKeepsInverse(Step(s, t, ops[0]), t, ops[1..]);
    }
  }

  /** A holder's request leaves from its port and a reply to that port is delivered to it; when table and
      slots are inverse, a reply to a port that has a slot is delivered to nobody but its holder. */
  lemma ReplyIffHolder(s: Svc, t: Timeouts, port: uint16, k: ConnKey, now: uint64, tcp: Option<Flags>, addOk: bool)
    requires Backed(s)
    ensures k in s.open ==> Request(s, k, now, t, tcp, addOk).1 == Some(OutsidePort(s.open[k]))
    ensures k in s.open && port == OutsidePort(s.open[k]) ==> Reply(s, port, now, tcp).1 == Delivered(k)
    ensures Covered(s) && port >= SYSTEM_PORTS && Reply(s, port, now, tcp).1 == Delivered(k) ==>
              k in s.open && port == OutsidePort(s.open[k])
  {
    PortsAndSlots(port);
  }

  /** No two connections share an outside port, and each one's requests leave from its port and the replies
      to that port are delivered to it. */
  ghost predicate HoldersServed(s: Svc, t: Timeouts, now: uint64, tcp: Option<Flags>, addOk: bool)
    requires s.last < |s.conns|
  {
    && (forall k, l :: k in s.open && l in s.open && k != l ==> OutsidePort(s.open[k]) != OutsidePort(s.open[l]))
    && (forall k :: k in s.open ==>
          && OutsidePort(s.open[k]) < U16
          && Request(s, k, now, t, tcp, addOk).1 == Some(OutsidePort(s.open[k]))
          && Reply(s, OutsidePort(s.open[k]), now, tcp).1 == Delivered(k))
  }

  /** A reply to a port that has a slot is delivered to the holder of that port and to nobody else. */
  ghost predicate OnlyHoldersServed(s: Svc, now: uint64, tcp: Option<Flags>) {
    forall port: uint16, k :: port >= SYSTEM_PORTS ==>
      (Reply(s, port, now, tcp).1 == Delivered(k) <==> k in s.open && port == OutsidePort(s.open[k]))
  }

  /** After every run from the initial state, whatever insertions were refused, the table never exceeds the
      number of slots and every connection in it is served. If no eviction was refused its insertion,
      table and slots are inverse and nobody else is served. */
  lemma RepliesReachTheirRequester(t: Timeouts, ops: seq<Op>, now: uint64, tcp: Option<Flags>, addOk: bool)
    requires forall i :: 0 <= i < |ops| ==> Timed(ops[i])
    ensures var s := RunOps(Initial, t, ops);
            && Backed(s) && |s.open| <= PORTCOUNT && HoldersServed(s, t, now, tcp, addOk)
            && (NoOrphans(Initial, t, ops) ==> Inverse(s) && OnlyHoldersServed(s, now, tcp))
  {
    BackedServesHolders(RunOps(Initial, t, ops), t, now, tcp, addOk);
    if NoOrphans(Initial, t, ops) {
      RunKeepsInverse(Initial, t, ops);
      InverseServesOnlyHolders(RunOps(Initial, t, ops), t, now, tcp);
    }
  }

  lemma BackedServesHolders(s: Svc, t: Timeouts, now: uint64, tcp: Option<Flags>, addOk: bool)
    requires Backed(s)
    ensures |s.open| <= PORTCOUNT && HoldersServed(s, t, now, tcp, addOk)
  {
    InjectiveFits(s.open, PORTCOUNT);
    forall k | k in s.open
      ensures Request(s, k, now, t, tcp, addOk).1 == Some(OutsidePort(s.open[k]))
      ensures Reply(s, OutsidePort(s.open[k]), now, tcp).1 == Delivered(k)
    {
      ReplyIffHolder(s, t, OutsidePort(s.open[k]), k, now, tcp, addOk);
    }
  }

  lemma InverseServesOnlyHolders(s: Svc, t: Timeouts, now: uint64, tcp: Option<Flags>)
    requires Inverse(s)
    ensures OnlyHoldersServed(s, now, tcp)
  {
    forall port: uint16, k | port >= SYSTEM_PORTS
      ensures Reply(s, port, now, tcp).1 == Delivered(k) <==> k in s.open && port == OutsidePort(s.open[k])
    {
      ReplyIffHolder(s, t, port, k, now, tcp, true);
    }
  }

  /** Exactly the ports from 1024 up have a slot, and slot and port determine each other. A reply to any other
      port indexes past the slots. */
  lemma PortsAndSlots(port: uint16)
    ensures SlotIndex(port) < PORTCOUNT <==> port >= SYSTEM_PORTS
    ensures port >= SYSTEM_PORTS ==> OutsidePort(SlotIndex(port)) == port
  {
  }

  /** While a connection stays in the table it keeps its outside port. */
  lemma PortIsStable(s: Svc, t: Timeouts, op: Op, k: ConnKey)
    requires Backed(s) && Timed(op) && k in s.open && k in Step(s, t, op).open
    ensures Step(s, t, op).open[k] == s.open[k]
  {
    if op.Ask? && op.key !in s.open {
      ScanIsFirstInTurn(s.conns, s.last, op.now, t);
    }
  }

  /** A connection leaves the table only with its interface or when its slot is old and taken away. */
  lemma OnlyOldConnectionsAreEvicted(s: Svc, t: Timeouts, op: Op, k: ConnKey)
    requires Inverse(s) && Timed(op) && k in s.open && k !in Step(s, t, op).open
    ensures match op
            case Ask(key, now, _, _) => key !in s.open && Old(s.conns[s.open[k]], now, t)
            case Answer(_, _, _) => false
            case DropIface(vfPort) => vfPort == k.vfPort
  {
    match op
    case Ask(key, now, tcp, _) => ScanIsFirstInTurn(s.conns, s.last, now, t);
    case Answer(_, _, _) =>
    case DropIface(vfPort) => DelIfaceKeepsInverse(s, vfPort);
  }

  // ----- A run to a refused eviction -----

  function KeyOf(i: nat): ConnKey
    requires i < PORTCOUNT
  {
    ConnKey(1, i, 0)
  }

  /** Connection `i` of UDP packets at time 100. */
  function AskOf(i: nat): Op
    requires i < PORTCOUNT
  {
    Ask(KeyOf(i), 100, None, true)
  }

  /** The slot taken by connection `n`: slots are taken from 1 up, slot 0 last of all. */
  function SlotInTurn(n: nat): nat
    requires n <= PORTCOUNT
  {
    if n == PORTCOUNT then 0 else n
  }

  /** Connections 1 to `n`, one after the other; the last slot in turn is slot 0. */
  function Asks(n: nat): seq<Op>
    requires n <= PORTCOUNT
  {
    seq(n, i requires 0 <= i < n => AskOf(SlotInTurn(i + 1)))
  }

  const Short: Timeouts := Timeouts(30, 60)

  /** Slots 1 to `n` were taken in turn, and slot 0 last of all. */
  ghost predicate Filled(s: Svc, n: nat)
    requires n <= PORTCOUNT
  {
    && Inverse(s) && s.last == SlotInTurn(n)
    && (forall i :: 1 <= i < PORTCOUNT ==> s.conns[i] == if i <= n then Conn(100, KeyOf(i), Transient) else FreeConn)
    && s.conns[0] == if n == PORTCOUNT then Conn(100, KeyOf(0), Transient) else FreeConn
  }

  lemma {:induction false} RunSnoc(s: Svc, t: Timeouts, ops: seq<Op>, op: Op)
    requires Backed(s) && (forall i :: 0 <= i < |ops| ==> Timed(ops[i])) && Timed(op)
    ensures RunOps(s, t, ops + [op]) == Step(RunOps(s, t, ops), t, op)
    decreases |ops|
  {
    if ops == [] {
      StepKeepsInverseIff(s, t, op);
      assert ([] + [op])[1..] == [];
    } else {
      StepKeepsInverseIff(s, t, ops[0]);
      assert (ops + [op])[1..] == ops[1..] + [op];
      RunSnoc(Step(s, t, ops[0]), t, ops[1..], op);
    }
  }

  lemma NextIsFree(s: Svc, n: nat)
    requires n < PORTCOUNT && Filled(s, n)
    ensures var p := SlotInTurn(n + 1);
            s.conns[p] == FreeConn && FreePort(s.conns, s.last, 100, Short) == Some(p) && KeyOf(p) !in s.open
  {
    var p := SlotInTurn(n + 1);
    assert s.conns[p] == FreeConn && Old(FreeConn, 100, Short);
    if KeyOf(p) in s.open { NotTaken(s, n, s.open[KeyOf(p)]); }
  }

  /** No slot in use has the next connection's key. */
  lemma NotTaken(s: Svc, n: nat, i: nat)
    requires n < PORTCOUNT && Filled(s, n) && i < PORTCOUNT && s.conns[i].stamp != 0
    ensures s.conns[i].key != KeyOf(SlotInTurn(n + 1))
  {
  }

  lemma NextSlot(s: Svc, n: nat)
    requires n < PORTCOUNT && Filled(s, n)
    ensures Filled(Step(s, Short, AskOf(SlotInTurn(n + 1))), n + 1)
  {
    var p := SlotInTurn(n + 1);
    NextIsFree(s, n);
    var s' := Step(s, Short, AskOf(p));
    assert s'.last == p && s'.conns == s.conns[p := Conn(100, KeyOf(p), Transient)] by {
      RequestShape(s, KeyOf(p), 100, Short, None, true);
    }
    StepKeepsInverseIff(s, Short, AskOf(p));
    FilledOneMore(s, s', n);
  }

  lemma FilledOneMore(s: Svc, s': Svc, n: nat)
    requires n < PORTCOUNT && Filled(s, n) && Inverse(s')
    requires var p := SlotInTurn(n + 1);
             s'.last == p && s'.conns == s.conns[p := Conn(100, KeyOf(p), Transient)]
    ensures Filled(s', n + 1)
  {
  }

  lemma AsksNext(n: nat)
    requires n < PORTCOUNT
    ensures Asks(n + 1) == Asks(n) + [AskOf(SlotInTurn(n + 1))]
  {
  }

  lemma {:induction false} AsksFill(n: nat)
    requires n <= PORTCOUNT
    ensures Filled(RunOps(Initial, Short, Asks(n)), n)
  {
    if n > 0 {
      AsksFill(n - 1);
      AsksNext(n - 1);
      RunSnoc(Initial, Short, Asks(n - 1), AskOf(SlotInTurn(n)));
      NextSlot(RunOps(Initial, Short, Asks(n - 1)), n - 1);
    }
  }

  /** Once every slot has been used and its connection has timed out, a new connection whose insertion is
      refused is a refused eviction: the holder of slot 1 is still answered but has no entry. */
  lemma RefusedEvictionIsReachable(key: ConnKey)
    requires key.vfPort != 1
    ensures var s := RunOps(Initial, Short, Asks(PORTCOUNT));
            && Inverse(s) && RefusedEviction(s, key, 131, Short, false)
            && var s' := Request(s, key, 131, Short, None, false).0;
               && !Inverse(s') && KeyOf(1) !in s'.open
               && Reply(s', OutsidePort(1), 131, None).1 == Delivered(KeyOf(1))
  {
    AsksFill(PORTCOUNT);
    FilledThenRefused(RunOps(Initial, Short, Asks(PORTCOUNT)), key);
  }

  lemma FilledThenRefused(s: Svc, key: ConnKey)
    requires Filled(s, PORTCOUNT) && key.vfPort != 1
    ensures RefusedEviction(s, key, 131, Short, false)
    ensures var s' := Request(s, key, 131, Short, None, false).0;
            && !Inverse(s') && KeyOf(1) !in s'.open
            && Reply(s', OutsidePort(1), 131, None).1 == Delivered(KeyOf(1))
  {
    assert Old(s.conns[1], 131, Short);
    assert FreePort(s.conns, s.last, 131, Short) == Some(1);
    RefusedHolderStillAnswered(s, key, 131, Short, None);
    RequestKeepsInverseIff(s, key, 131, Short, None, false);
  }

  /** The service as the program keeps it. */
  class VirtSvc {
    const timeouts: Timeouts
    const connections: array<Conn>
    var openPorts: map<ConnKey, nat>
    var lastAssignedPort: nat

    ghost function Model(): Svc
      reads this, connections
    {
      Svc(connections[..], openPorts, lastAssignedPort)
    }

    ghost predicate Valid()
      reads this, connections
    {
      Backed(Model())
    }

    constructor (timeouts: Timeouts)
      ensures Valid() && fresh(connections) && Model() == Initial && this.timeouts == timeouts
    {
      this.timeouts := timeouts;
      connections := new Conn[PORTCOUNT](_ => FreeConn);
      openPorts, lastAssignedPort := map[], 0;
      new;
      assert connections[..] == Initial.conns;
    }

    method GetFreePort(now: uint64) returns (port: Option<nat>)
      requires connections.Length == PORTCOUNT && lastAssignedPort < PORTCOUNT
      modifies this`lastAssignedPort
      ensures port == FreePort(connections[..], old(lastAssignedPort), now, timeouts)
      ensures lastAssignedPort == if port.Some? then port.value else old(lastAssignedPort)
    {
      ghost var conns := connections[..];
      var p := lastAssignedPort + 1;
      while p < PORTCOUNT
        invariant lastAssignedPort + 1 <= p <= PORTCOUNT
        invariant FirstOld(conns, now, timeouts, lastAssignedPort + 1, PORTCOUNT)
            == FirstOld(conns, now, timeouts, p, PORTCOUNT)
      {
        if Old(connections[p], now, timeouts) {
          lastAssignedPort := p;
          return Some(p);
        }
        p := p + 1;
      }
      p := 0;
      while p <= lastAssignedPort
        invariant 0 <= p <= lastAssignedPort + 1
        invariant FirstOld(conns, now, timeouts, 0, lastAssignedPort + 1)
            == FirstOld(conns, now, timeouts, p, lastAssignedPort + 1)
      {
        if Old(connections[p], now, timeouts) {
          lastAssignedPort := p;
          return Some(p);
        }
        p := p + 1;
      }
      return None;
    }

    method CreateConnection(key: ConnKey, now: uint64, addOk: bool) returns (idx: Option<nat>)
      requires Valid()
      modifies this, connections
      ensures (Model(), idx) == Create(old(Model()), key, now, timeouts, addOk)
    {
      ScanIsFirstInTurn(connections[..], lastAssignedPort, now, timeouts);
      var port := GetFreePort(now);
      if port.None? { return None; }
      var c := connections[port.value];
      if c.stamp != 0 { openPorts := openPorts - {c.key}; }
      if !addOk || (key !in openPorts && |openPorts| >= PORTCOUNT) { return None; }
      openPorts := openPorts[key := port.value];
      connections[port.value] := c.(key := key, state := Transient);
      return port;
    }

    method HandleRequest(key: ConnKey, now: uint64, tcp: Option<Flags>, addOk: bool) returns (port: Option<nat>)
      requires Valid() && now != 0
      modifies this, connections
      ensures Valid() && (Model(), port) == Request(old(Model()), key, now, timeouts, tcp, addOk)
    {
      assert Backed(Request(Model(), key, now, timeouts, tcp, addOk).0) by {
        RequestKeepsInverseIff(Model(), key, now, timeouts, tcp, addOk);
      }
      var idx: Option<nat>;
      if key in openPorts {
        idx := Some(openPorts[key]);
      } else {
        ScanIsFirstInTurn(connections[..], lastAssignedPort, now, timeouts);
        idx := CreateConnection(key, now, addOk);
        if idx.None? { return None; }
      }
      connections[idx.value] := Refresh(connections[idx.value], now, tcp);
      return Some(idx.value + SYSTEM_PORTS);
    }

    method HandleReply(port: uint16, now: uint64, tcp: Option<Flags>) returns (v: Verdict)
      requires Valid() && now != 0
      modifies this, connections
      ensures Valid() && (Model(), v) == Reply(old(Model()), port, now, tcp)
    {
      ReplyKeepsInverse(Model(), port, now, tcp);
      var idx := SlotIndex(port);
      if idx >= PORTCOUNT { return OutsideTable; }
      if connections[idx].stamp == 0 { return Dropped; }
      connections[idx] := Refresh(connections[idx], now, tcp);
      return Delivered(connections[idx].key);
    }

    method DeleteIface(vfPort: uint16)
      requires Valid()
      modifies this, connections
      ensures Valid() && Model() == DelIface(old(Model()), vfPort)
    {
      ghost var was := connections[..];
      for i := 0 to PORTCOUNT
        invariant forall j :: 0 <= j < i ==> connections[j] == ClearConn(was[j], vfPort)
        invariant forall j :: i <= j < PORTCOUNT ==> connections[j] == was[j]
        invariant openPorts == old(openPorts) - KeysOf(was, vfPort, i)
        invariant lastAssignedPort == old(lastAssignedPort)
      {
        KeysOfStep(was, vfPort, i);
        var c := connections[i];
        if c.key.vfPort == vfPort && c.stamp != 0 {
          connections[i] := c.(stamp := 0);
          openPorts := openPorts - {c.key};
        }
      }
      assert connections[..] == Cleared(was, vfPort);
      DelIfaceKeepsInverse(old(Model()), vfPort);
    }
  }

  lemma KeysOfStep(conns: seq<Conn>, vfPort: uint16, n: nat)
    requires n < |conns|
    ensures KeysOf(conns, vfPort, n + 1)
        == KeysOf(conns, vfPort, n) + (if Belongs(conns[n], vfPort) then {conns[n].key} else {})
  {
  }
}
