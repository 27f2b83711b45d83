/**
 Reference counting of VNI route tables by interfaces and load balancers, through the request handlers
 that create and delete them, with their rollback paths.
 */
module VniRefs {
  import opened Words

  type PortId = int
  type Id = string

  /** What matters of a port: its interface is set up in a VNI, and the port has been started. */
  datatype Port = Port(ready: bool, vni: uint32, started: bool)

  datatype LbKey = LbKey(vni: uint32, ip: uint32)

  datatype World = World(
    vnis: map<uint32, int>,
    ports: map<PortId, Port>,
    ifaceIds: map<Id, PortId>,
    lbs: set<LbKey>,
    lbIds: map<Id, LbKey>,
    dangling: set<LbKey>)

  // ----- Counting -----

  ghost function ReadyIn(ports: map<PortId, Port>, v: uint32): set<PortId> {
    set p | p in ports && ports[p].ready && ports[p].vni == v
  }

  ghost function LbsIn(lbs: set<LbKey>, v: uint32): set<LbKey> {
    set k | k in lbs && k.vni == v
  }

  ghost function Users(w: World, v: uint32): nat {
    |ReadyIn(w.ports, v)| + |LbsIn(w.lbs, v)|
  }

  /** Route tables exist exactly for the VNIs in use, and their reference count is the number of users. */
  ghost predicate CountsAt(w: World, v: uint32) {
    if v in w.vnis then w.vnis[v] == Users(w, v) > 0 else Users(w, v) == 0
  }

  ghost predicate Conserved(w: World) {
    forall v: uint32 :: CountsAt(w, v)
  }

  /** Identifiers name ready interfaces on started ports and existing load balancers, one each. */
  ghost predicate Named(w: World) {
    && (forall p :: p in w.ports && w.ports[p].ready ==> w.ports[p].started)
    && (forall i :: i in w.ifaceIds ==> w.ifaceIds[i] in w.ports && w.ports[w.ifaceIds[i]].ready)
    && (forall i, j :: i in w.ifaceIds && j in w.ifaceIds && i != j ==> w.ifaceIds[i] != w.ifaceIds[j])
    && (forall i :: i in w.lbIds ==> w.lbIds[i] in w.lbs)
    && (forall i, j :: i in w.lbIds && j in w.lbIds && i != j ==> w.lbIds[i] != w.lbIds[j])
  }

  /** No entry of the load-balancer table points to a value that has been freed. */
  predicate Pointed(w: World) {
    w.dangling == {}
  }

  ghost predicate Inv(w: World) {
    Conserved(w) && Named(w) && Pointed(w)
  }

  // ----- Route tables -----

  /** `dp_create_vni_route_tables`; `ok` says whether new tables can be allocated. */
  function CreateVni(w: World, v: uint32, ok: bool): (World, bool) {
    if v in w.vnis then (w.(vnis := w.vnis[v := w.vnis[v] + 1]), true)
    else if ok then (w.(vnis := w.vnis[v := 1]), true)
    else (w, false)
  }

  /** `dp_delete_vni_route_tables` */
  function DeleteVni(w: World, v: uint32): World {
    if v !in w.vnis then w
    else if w.vnis[v] - 1 == 0 then w.(vnis := w.vnis - {v})
    else w.(vnis := w.vnis[v := w.vnis[v] - 1])
  }

  // ----- Interfaces -----

  /** The step of interface creation that fails, if any. */
  datatype IfaceFailure =
    NoFailure | VnfFails | IdFails | TablesFail | RouteFails | Route6Fails | MeterFails | StartFails

  datatype Status =
    Ok | NotFound | AlreadyExists | VnfInsert | VmHandle | VniInit | RouteError | PortMeter | PortStart | OutOfMemory

  /** `dp_delete_iface`: gives the VNI reference back and wipes the interface. */
  function DeleteIface(w: World, p: PortId): World
    requires p in w.ports
  {
    DeleteVni(w, w.ports[p].vni).(ports := w.ports[p := w.ports[p].(ready := false, vni := 0)])
  }

  /** `dp_process_create_interface` */
  function CreateInterface(w: World, id: Id, p: PortId, v: uint32, f: IfaceFailure): (World, Status) {
    if p !in w.ports then (w, NotFound)
    else if w.ports[p].started then (w, AlreadyExists)
    else if f == VnfFails then (w, VnfInsert)
    else if id in w.ifaceIds || f == IdFails then (w, VmHandle)
    else
      var (w1, ok) := CreateVni(w.(ifaceIds := w.ifaceIds[id := p]), v, f != TablesFail);
      if !ok then (w1.(ifaceIds := w1.ifaceIds - {id}), VniInit)
      else
        var w2 := w1.(ports := w1.ports[p := w1.ports[p].(ready := true, vni := v)]);
        if f in {RouteFails, Route6Fails, MeterFails, StartFails} then
          var w3 := DeleteIface(w2, p);
          (w3.(ifaceIds := w3.ifaceIds - {id}),
           if f == MeterFails then PortMeter else if f == StartFails then PortStart else RouteError)
        else (w2.(ports := w2.ports[p := w2.ports[p].(started := true)]), Ok)
  }

  /** `dp_process_delete_interface`; stopping the port may fail and is carried on from. */
  function DeleteInterface(w: World, id: Id, stopOk: bool): World {
    if id !in w.ifaceIds || w.ifaceIds[id] !in w.ports then w
    else
      var p := w.ifaceIds[id];
      var w1 := if stopOk then w.(ports := w.ports[p := w.ports[p].(started := false)]) else w;
      DeleteIface(w1.(ifaceIds := w1.ifaceIds - {id}), p)
  }

  // ----- Load balancers -----

  datatype LbFailure = NoLbFailure | LbVnfFails | ValueFails | MapFails | LbTablesFail

  /** `dp_delete_lb` */
  function DropLb(w: World, id: Id): World {
    if id !in w.lbIds then w
    else w.(lbs := w.lbs - {w.lbIds[id]}, lbIds := w.lbIds - {id})
  }

  /** `dp_process_create_lb` with `dp_create_lb`: an identifier already in use is mapped anew, and a failure
      to map the identifier frees the value and leaves the entry in the load-balancer table. */
  function CreateLb(w: World, id: Id, k: LbKey, f: LbFailure): (World, Status) {
    if f == LbVnfFails then (w, VnfInsert)
    else if k in w.lbs then (w, AlreadyExists)
    else if f == ValueFails then (w, OutOfMemory)
    else
      var w1 := w.(lbs := w.lbs + {k});
      if f == MapFails then (w1.(dangling := w1.dangling + {k}), OutOfMemory)
      else
        var (w2, ok) := CreateVni(w1.(lbIds := w1.lbIds[id := k]), k.vni, f != LbTablesFail);
        if !ok then (DropLb(w2, id), VniInit) else (w2, Ok)
  }

  /** `dp_process_delete_lb` */
  function DeleteLb(w: World, id: Id): World {
    if id !in w.lbIds || w.lbIds[id] !in w.lbs then w
    else DeleteVni(DropLb(w, id), w.lbIds[id].vni)
  }

  // ----- What each change does to the counts -----

  lemma ReadyInUpdate(ports: map<PortId, Port>, p: PortId, q: Port, v: uint32)
    requires p in ports
    ensures |ReadyIn(ports[p := q], v)|
            == |ReadyIn(ports, v)|
               - (if ports[p].ready && ports[p].vni == v then 1 else 0) + (if q.ready && q.vni == v then 1 else 0)
  {
    OtherPortsStay(ports, p, q, v);
    SetChange(ReadyIn(ports, v), p);
    SetChange(ReadyIn(ports[p := q], v), p);
  }

  lemma OtherPortsStay(ports: map<PortId, Port>, p: PortId, q: Port, v: uint32)
    requires p in ports
    ensures ReadyIn(ports[p := q], v) - {p} == ReadyIn(ports, v) - {p}
    ensures p in ReadyIn(ports[p := q], v) <==> q.ready && q.vni == v
    ensures p in ReadyIn(ports, v) <==> ports[p].ready && ports[p].vni == v
  {
    forall x ensures x in ReadyIn(ports[p := q], v) - {p} <==> x in ReadyIn(ports, v) - {p} {}
  }

  lemma LbsInUpdate(lbs: set<LbKey>, k: LbKey, v: uint32)
    ensures k !in lbs ==> |LbsIn(lbs + {k}, v)| == |LbsIn(lbs, v)| + (if k.vni == v then 1 else 0)
    ensures k in lbs ==> |LbsIn(lbs - {k}, v)| == |LbsIn(lbs, v)| - (if k.vni == v then 1 else 0)
  {
    if k !in lbs {
      assert LbsIn(lbs + {k}, v) == LbsIn(lbs, v) + (if k.vni == v then {k} else {});
    } else {
      assert LbsIn(lbs - {k}, v) == LbsIn(lbs, v) - (if k.vni == v then {k} else {});
    }
  }

  /** A new user with its reference, in a state that differs from `w` only by that user. */
  lemma GainUser(w: World, w': World, v: uint32, ok: bool)
    requires Conserved(w) && CreateVni(w, v, ok).1 && w'.vnis == CreateVni(w, v, ok).0.vnis
    requires forall u: uint32 :: Users(w', u) == Users(w, u) + (if u == v then 1 else 0)
    ensures Conserved(w')
  {
    forall u: uint32 ensures CountsAt(w', u) { assert CountsAt(w, u); }
  }

  lemma LoseUser(w: World, w': World, v: uint32)
    requires Conserved(w) && w'.vnis == DeleteVni(w, v).vnis
    requires forall u: uint32 :: Users(w', u) == Users(w, u) - (if u == v then 1 else 0)
    ensures Conserved(w')
  {
    forall u: uint32 ensures CountsAt(w', u) { assert CountsAt(w, u); }
  }

  lemma SameUsers(w: World, w': World)
    requires Conserved(w) && w'.vnis == w.vnis && forall u: uint32 :: Users(w', u) == Users(w, u)
    ensures Conserved(w')
  {
    forall u: uint32 ensures CountsAt(w', u) { assert CountsAt(w, u); }
  }

  /** Undoing a reference just taken restores the counts. */
  lemma CreateThenDelete(w: World, v: uint32, ok: bool)
    requires CountsAt(w, v) && CreateVni(w, v, ok).1
    ensures DeleteVni(CreateVni(w, v, ok).0, v).vnis == w.vnis
  {
  }

  /** The users of a VNI before and after port `p`, which had no interface, is given state `q`. */
  lemma PortChangesUsers(w: World, w': World, p: PortId, q: Port)
    requires p in w.ports && !w.ports[p].ready && w'.ports == w.ports[p := q] && w'.lbs == w.lbs
    ensures forall u: uint32 :: Users(w', u) == Users(w, u) + (if q.ready && q.vni == u then 1 else 0)
  {
    forall u: uint32 ensures Users(w', u) == Users(w, u) + (if q.ready && q.vni == u then 1 else 0) {
      ReadyInUpdate(w.ports, p, q, u);
    }
  }

  /** What an interface creation that gets past its checks amounts to. */
  lemma CreateInterfaceShape(w: World, id: Id, p: PortId, v: uint32, f: IfaceFailure)
    requires CountsAt(w, v) && p in w.ports && !w.ports[p].started && f !in {VnfFails, IdFails} && id !in w.ifaceIds
    ensures var (w', st) := CreateInterface(w, id, p, v, f);
            var (t, ok) := CreateVni(w, v, f != TablesFail);
            && w'.lbs == w.lbs && w'.lbIds == w.lbIds
            && (st == Ok <==> ok && f in {NoFailure, TablesFail})
            && (st == Ok ==>
                  && w'.vnis == t.vnis && w'.ports == w.ports[p := Port(true, v, true)]
                  && w'.ifaceIds == w.ifaceIds[id := p])
            && (st != Ok ==> w'.vnis == w.vnis && w'.ifaceIds == w.ifaceIds
                             && w'.ports == (if ok then w.ports[p := Port(false, 0, false)] else w.ports))
  {
    PutThenRemove(w.ifaceIds, id, p);
    if CreateVni(w, v, f != TablesFail).1 {
      CreateThenDelete(w, v, f != TablesFail);
      PortWritten(w.ports, p, v);
    }
  }

  lemma PortWritten(ports: map<PortId, Port>, p: PortId, v: uint32)
    ensures ports[p := Port(true, v, false)][p := Port(false, 0, false)] == ports[p := Port(false, 0, false)]
    ensures ports[p := Port(true, v, false)][p := Port(true, v, true)] == ports[p := Port(true, v, true)]
  {
    PutTwice(ports, p, Port(true, v, false), Port(false, 0, false));
    PutTwice(ports, p, Port(true, v, false), Port(true, v, true));
  }

  lemma PutThenRemove<K, V>(m: map<K, V>, k: K, v: V)
    requires k !in m
    ensures m[k := v] - {k} == m
  {
  }

  lemma PutTwice<K, V>(m: map<K, V>, k: K, v: V, v': V)
    ensures m[k := v][k := v'] == m[k := v']
  {
  }

  /** Creating an interface, through every failure and rollback, keeps the counts; a failure leaves the
      counts, the identifiers and the users of every VNI exactly as they were. */
  lemma CreateInterfaceKeepsInv(w: World, id: Id, p: PortId, v: uint32, f: IfaceFailure)
    requires Inv(w)
    ensures var (w', st) := CreateInterface(w, id, p, v, f);
            && Inv(w')
            && (st != Ok ==>
                  && w'.vnis == w.vnis && w'.ifaceIds == w.ifaceIds
                  && forall u: uint32 :: Users(w', u) == Users(w, u))
  {
    var (w', st) := CreateInterface(w, id, p, v, f);
    if p in w.ports && !w.ports[p].started && f !in {VnfFails, IdFails} && id !in w.ifaceIds {
      assert CountsAt(w, v) && !w.ports[p].ready;
      CreateInterfaceShape(w, id, p, v, f);
      if st == Ok {
        PortChangesUsers(w, w', p, Port(true, v, true));
        GainUser(w, w', v, f != TablesFail);
      } else {
        if w'.ports != w.ports { PortChangesUsers(w, w', p, Port(false, 0, false)); }
        SameUsers(w, w');
      }
    }
  }

  lemma DeleteInterfaceKeepsInv(w: World, id: Id, stopOk: bool)
    requires Inv(w)
    ensures Inv(DeleteInterface(w, id, stopOk))
  {
    if id in w.ifaceIds {
      var p := w.ifaceIds[id];
      var w' := DeleteInterface(w, id, stopOk);
      var down := Port(false, 0, w.ports[p].started && !stopOk);
      assert w'.ports == w.ports[p := down];
      forall u: uint32 ensures Users(w', u) == Users(w, u) - (if u == w.ports[p].vni then 1 else 0) {
        ReadyInUpdate(w.ports, p, down, u);
      }
      LoseUser(w, w', w.ports[p].vni);
    }
  }

  /** Creating a load balancer keeps the counts if and only if it is not a new address whose identifier cannot be
      mapped: that entry stays in the table without a reference. */
  lemma CreateLbConservesIff(w: World, id: Id, k: LbKey, f: LbFailure)
    requires Inv(w)
    ensures Named(CreateLb(w, id, k, f).0)
    ensures Conserved(CreateLb(w, id, k, f).0) <==> !(f == MapFails && k !in w.lbs)
  {
    var (w', st) := CreateLb(w, id, k, f);
    if f != LbVnfFails && k !in w.lbs && f != ValueFails {
      forall u: uint32 ensures |LbsIn(w.lbs + {k}, u)| == |LbsIn(w.lbs, u)| + (if u == k.vni then 1 else 0) {
        LbsInUpdate(w.lbs, k, u);
      }
      if f == MapFails {
        assert CountsAt(w, k.vni) && !CountsAt(w', k.vni);
      } else if st == Ok {
        GainUser(w, w', k.vni, f != LbTablesFail);
      } else {
        assert w'.lbs == w.lbs;
        SameUsers(w, w');
      }
    }
  }

  /** In the same case, and no other, an entry is left whose value has been freed. */
  lemma CreateLbPointsIff(w: World, id: Id, k: LbKey, f: LbFailure)
    requires Pointed(w)
    ensures Pointed(CreateLb(w, id, k, f).0) <==> !(f == MapFails && k !in w.lbs)
  {
    assert k in w.dangling + {k};
  }

  /** The first load balancer already shows it: its entry stays with a freed value, the VNI has no route tables,
      and no identifier is left to delete it by. */
  lemma UnmappedLbStays(id: Id, k: LbKey, ports: map<PortId, Port>)
    requires forall p :: p in ports ==> !ports[p].ready
    ensures var w := World(map[], ports, map[], {}, map[], {});
            var (w', st) := CreateLb(w, id, k, MapFails);
            && Inv(w) && !Conserved(w') && st == OutOfMemory
            && k in w'.lbs && k in w'.dangling && k.vni !in w'.vnis && DeleteLb(w', id) == w'
            && CreateLb(w', id, k, NoLbFailure) == (w', AlreadyExists)
  {
    StartIsConserved(ports);
    CreateLbConservesIff(World(map[], ports, map[], {}, map[], {}), id, k, MapFails);
  }

  lemma DeleteLbKeepsInv(w: World, id: Id)
    requires Inv(w)
    ensures Inv(DeleteLb(w, id))
  {
    if id in w.lbIds {
      var w' := DeleteLb(w, id);
      forall u: uint32 ensures Users(w', u) == Users(w, u) - (if u == w.lbIds[id].vni then 1 else 0) {
        LbsInUpdate(w.lbs, w.lbIds[id], u);
      }
      LoseUser(w, w', w.lbIds[id].vni);
    }
  }

  // ----- Runs -----

  datatype Op =
    | AddIface(id: Id, p: PortId, v: uint32, f: IfaceFailure)
    | DelIface(id: Id, stopOk: bool)
    | AddLb(id: Id, k: LbKey, lf: LbFailure)
    | DelLb(id: Id)

  function Step(w: World, op: Op): World {
    match op
    case AddIface(id, p, v, f) => CreateInterface(w, id, p, v, f).0
    case DelIface(id, stopOk) => DeleteInterface(w, id, stopOk)
    case AddLb(id, k, lf) => CreateLb(w, id, k, lf).0
    case DelLb(id) => DeleteLb(w, id)
  }

  function RunOps(w: World, ops: seq<Op>): World
    decreases |ops|
  {
    if ops == [] then w else RunOps(Step(w, ops[0]), ops[1..])
  }

  /** Over every run in which no identifier mapping fails, with every other failure allowed: the reference
      count of a VNI is the number of ready interfaces and load balancers in it, and its route tables
      exist exactly while that number is positive. */
  lemma {:induction false} VniConservation(w: World, ops: seq<Op>)
    requires Inv(w)
    requires forall i :: 0 <= i < |ops| && ops[i].AddLb? ==> ops[i].lf != MapFails
    ensures Inv(RunOps(w, ops))
    decreases |ops|
  {
    if ops != [] {
      match ops[0] {
        case AddIface(id, p, v, f) => CreateInterfaceKeepsInv(w, id, p, v, f);
        case DelIface(id, stopOk) => DeleteInterfaceKeepsInv(w, id, stopOk);
        case AddLb(id, k, lf) =>
          CreateLbConservesIff(w, id, k, lf);
          CreateLbPointsIff(w, id, k, lf);
        case DelLb(id) => DeleteLbKeepsInv(w, id);
      }
      VniConservation(Step(w, ops[0]), ops[1..]);
    }
  }

  /** The state after start-up: ports known, some of them started without an interface. */
  lemma StartIsConserved(ports: map<PortId, Port>)
    requires forall p :: p in ports ==> !ports[p].ready
    ensures Inv(World(map[], ports, map[], {}, map[], {}))
  {
    var w := World(map[], ports, map[], {}, map[], {});
    forall v: uint32 ensures CountsAt(w, v) { NoUsers(w, v); }
  }

  lemma NoUsers(w: World, v: uint32)
    requires w.lbs == {} && forall p :: p in w.ports ==> !w.ports[p].ready
    ensures Users(w, v) == 0
  {
    var ready, lbs := ReadyIn(w.ports, v), LbsIn(w.lbs, v);
    forall p | p in w.ports ensures p !in ready {}
    assert ready == {} && lbs == {};
  }

  /** The request handlers as the program runs them. */
  class Handlers {
    var vnis: map<uint32, int>
    var ports: map<PortId, Port>
    var ifaceIds: map<Id, PortId>
    var lbs: set<LbKey>
    var lbIds: map<Id, LbKey>
    ghost var dangling: set<LbKey>

    ghost function Model(): World
      reads this
    {
      World(vnis, ports, ifaceIds, lbs, lbIds, dangling)
    }

    constructor (ports: map<PortId, Port>)
      requires forall p :: p in ports ==> !ports[p].ready
      ensures Model() == World(map[], ports, map[], {}, map[], {}) && Inv(Model())
    {
      vnis, ifaceIds, lbs, lbIds, dangling := map[], map[], {}, map[], {};
      this.ports := ports;
      new;
      StartIsConserved(ports);
    }

    method CreateRouteTables(v: uint32, ok: bool) returns (done: bool)
      modifies this`vnis
      ensures (Model(), done) == CreateVni(old(Model()), v, ok)
    {
      if v !in vnis {
        if !ok { return false; }
        vnis := vnis[v := 1];
        return true;
      }
      vnis := vnis[v := vnis[v] + 1];
      return true;
    }

    method DeleteRouteTables(v: uint32)
      modifies this`vnis
      ensures Model() == DeleteVni(old(Model()), v)
    {
      if v !in vnis { return; }
      vnis := vnis[v := vnis[v] - 1];
      if vnis[v] == 0 { vnis := vnis - {v}; }
    }

    method WipeIface(p: PortId)
      requires p in ports
      modifies this`vnis, this`ports
      ensures Model() == DeleteIface(old(Model()), p)
    {
      DeleteRouteTables(ports[p].vni);
      ports := ports[p := ports[p].(ready := false, vni := 0)];
    }

    method ProcessCreateInterface(id: Id, p: PortId, v: uint32, f: IfaceFailure) returns (st: Status)
      requires Inv(Model())
      modifies this
      ensures Inv(Model()) && (Model(), st) == CreateInterface(old(Model()), id, p, v, f)
    {
      CreateInterfaceKeepsInv(Model(), id, p, v, f);
      if p !in ports { return NotFound; }
      if ports[p].started { return AlreadyExists; }
      if f == VnfFails { return VnfInsert; }
      if id in ifaceIds || f == IdFails { return VmHandle; }
      ifaceIds := ifaceIds[id := p];
      var done := CreateRouteTables(v, f != TablesFail);
      if !done {
        ifaceIds := ifaceIds - {id};
        return VniInit;
      }
      ports := ports[p := ports[p].(ready := true, vni := v)];
      if f in {RouteFails, Route6Fails, MeterFails, StartFails} {
        WipeIface(p);
        ifaceIds := ifaceIds - {id};
        return if f == MeterFails then PortMeter else if f == StartFails then PortStart else RouteError;
      }
      ports := ports[p := ports[p].(started := true)];
      return Ok;
    }

    method ProcessDeleteInterface(id: Id, stopOk: bool)
      requires Inv(Model())
      modifies this
      ensures Inv(Model()) && Model() == DeleteInterface(old(Model()), id, stopOk)
    {
      DeleteInterfaceKeepsInv(Model(), id, stopOk);
      if id !in ifaceIds { return; }
      var p := ifaceIds[id];
      if stopOk { ports := ports[p := ports[p].(started := false)]; }
      ifaceIds := ifaceIds - {id};
      WipeIface(p);
    }

    method RemoveLb(id: Id)
      modifies this`lbs, this`lbIds
      ensures Model() == DropLb(old(Model()), id)
    {
      if id !in lbIds { return; }
      lbs := lbs - {lbIds[id]};
      lbIds := lbIds - {id};
    }

    method ProcessCreateLb(id: Id, k: LbKey, f: LbFailure) returns (st: Status)
      modifies this
      ensures (Model(), st) == CreateLb(old(Model()), id, k, f)
    {
      if f == LbVnfFails { return VnfInsert; }
      if k in lbs { return AlreadyExists; }
      if f == ValueFails { return OutOfMemory; }
      lbs := lbs + {k};
      if f == MapFails {
        dangling := dangling + {k};
        return OutOfMemory;
      }
      lbIds := lbIds[id := k];
      var done := CreateRouteTables(k.vni, f != LbTablesFail);
      if !done {
        RemoveLb(id);
        return VniInit;
      }
      return Ok;
    }

    method ProcessDeleteLb(id: Id)
      requires Inv(Model())
      modifies this
      ensures Inv(Model()) && Model() == DeleteLb(old(Model()), id)
    {
      DeleteLbKeepsInv(Model(), id);
      if id !in lbIds { return; }
      if lbIds[id] !in lbs { return; }
      var v := lbIds[id].vni;
      RemoveLb(id);
      DeleteRouteTables(v);
    }
  }
}
