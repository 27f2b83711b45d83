/**
 The two TCP state machines: the one kept in a conntrack flow (with its timeout) and the one
 kept in a virtual-service connection, run over arbitrary packet traces.
 */
module TcpTracking {
  import opened Words

  datatype Flags = Flags(syn: bool, ack: bool, fin: bool, rst: bool) {
    predicate Closes() { fin || rst }
    predicate SynAck() { syn && ack }
  }

  datatype TcpState = NoState | NewSyn | NewSynAck | Established | FinWait | RstFin

  datatype ConnState = Transient | TransientSyn | TransientSynAck | ConnEstablished

  const EXTENDED_TIMEOUT: uint32 := 60 * 60 * 24

  /** `dp_cntrack_tcp_state` */
  function TrackFlow(s: TcpState, f: Flags): TcpState {
    if f.rst then RstFin
    else if f.fin then (if s == Established then FinWait else RstFin)
    else match s
      case NoState => if f.syn then NewSyn else s
      case RstFin => if f.syn then NewSyn else s
      case NewSyn => if f.SynAck() then NewSynAck else s
      case NewSynAck => if f.ack then Established else s
      case _ => s
  }

  /** `dp_cntrack_set_timeout_tcp_flow`; `base` is the configured flow timeout. */
  function FlowTimeout(s: TcpState, base: uint32): uint32 {
    if s == Established then EXTENDED_TIMEOUT else base
  }

  /** `virtsvc_tcp_state_change` */
  function TrackConn(s: ConnState, f: Flags): ConnState {
    if f.rst then Transient
    else if f.fin then Transient
    else match s
      case Transient => if f.syn then TransientSyn else s
      case TransientSyn => if f.SynAck() then TransientSynAck else s
      case TransientSynAck => if f.ack then ConnEstablished else s
      case ConnEstablished => s
  }

  function RunFlow(t: seq<Flags>): TcpState {
    if t == [] then NoState else TrackFlow(RunFlow(t[..|t| - 1]), t[|t| - 1])
  }

  function RunConn(t: seq<Flags>): ConnState {
    if t == [] then Transient else TrackConn(RunConn(t[..|t| - 1]), t[|t| - 1])
  }

  lemma Snoc(t: seq<Flags>, f: Flags)
    ensures RunFlow(t + [f]) == TrackFlow(RunFlow(t), f)
    ensures RunConn(t + [f]) == TrackConn(RunConn(t), f)
  {
    assert (t + [f])[..|t|] == t;
  }

  /** No FIN or RST at or after position `i`. */
  ghost predicate OpenSince(t: seq<Flags>, i: nat) {
    forall m :: i <= m < |t| ==> !t[m].Closes()
  }

  ghost predicate SynAt(t: seq<Flags>, i: nat) {
    i < |t| && t[i].syn && OpenSince(t, i)
  }

  ghost predicate SynAckAt(t: seq<Flags>, i: nat, j: nat) {
    SynAt(t, i) && i < j < |t| && t[j].SynAck()
  }

  ghost predicate HandshakeAt(t: seq<Flags>, i: nat, j: nat, k: nat) {
    SynAckAt(t, i, j) && j < k < |t| && t[k].ack
  }

  ghost predicate SeenSyn(t: seq<Flags>) { exists i: nat :: SynAt(t, i) }
  ghost predicate SeenSynAck(t: seq<Flags>) { exists i: nat, j: nat :: SynAckAt(t, i, j) }
  ghost predicate SeenHandshake(t: seq<Flags>) { exists i: nat, j: nat, k: nat :: HandshakeAt(t, i, j, k) }

  /** How one more packet changes what has been seen since the last FIN or RST. */
  lemma SeenStep(t: seq<Flags>, f: Flags)
    ensures SeenSyn(t + [f]) <==> !f.Closes() && (SeenSyn(t) || f.syn)
    ensures SeenSynAck(t + [f]) <==> !f.Closes() && (SeenSynAck(t) || (SeenSyn(t) && f.SynAck()))
    ensures SeenHandshake(t + [f]) <==> !f.Closes() && (SeenHandshake(t) || (SeenSynAck(t) && f.ack))
  {
    var u, n := t + [f], |t|;
    assert u[n] == f;
    forall i: nat | i <= n
      ensures OpenSince(u, i) <==> OpenSince(t, i) && !f.Closes()
    {
      assert forall m :: i <= m < n ==> t[m] == u[m];
    }
    if !f.Closes() {
      if SeenSyn(t) { var i: nat :| SynAt(t, i); assert SynAt(u, i); }
      if f.syn { assert SynAt(u, n); }
      if SeenSynAck(t) { var i: nat, j: nat :| SynAckAt(t, i, j); assert SynAckAt(u, i, j); }
      if SeenSyn(t) && f.SynAck() { var i: nat :| SynAt(t, i); assert SynAt(u, i) && SynAckAt(u, i, n); }
      if SeenHandshake(t) { var i: nat, j: nat, k: nat :| HandshakeAt(t, i, j, k); assert HandshakeAt(u, i, j, k); }
      if SeenSynAck(t) && f.ack {
        var i: nat, j: nat :| SynAckAt(t, i, j);
        assert SynAckAt(u, i, j) && HandshakeAt(u, i, j, n);
      }
    }
    if SeenSyn(u) { var i: nat :| SynAt(u, i); assert i == n || SynAt(t, i); }
    if SeenSynAck(u) {
      var i: nat, j: nat :| SynAckAt(u, i, j);
      assert SynAt(t, i);
      assert j == n || SynAckAt(t, i, j);
    }
    if SeenHandshake(u) {
      var i: nat, j: nat, k: nat :| HandshakeAt(u, i, j, k);
      assert SynAckAt(t, i, j);
      assert k == n || HandshakeAt(t, i, j, k);
    }
  }

  /** A virtual-service connection is in a given state exactly when the packets after the last FIN or
      RST hold the corresponding prefix of SYN, then SYN+ACK, then ACK. */
  lemma {:induction false} ConnStateIsHandshakeProgress(t: seq<Flags>)
    ensures RunConn(t) != Transient <==> SeenSyn(t)
    ensures RunConn(t) in {TransientSynAck, ConnEstablished} <==> SeenSynAck(t)
    ensures RunConn(t) == ConnEstablished <==> SeenHandshake(t)
  {
    if t != [] {
      var p, f := t[..|t| - 1], t[|t| - 1];
      assert t == p + [f];
      ConnStateIsHandshakeProgress(p);
      SeenStep(p, f);
    }
  }

  /** The connection state that corresponds to a flow state outside `FinWait`. */
  function Matching(s: TcpState): ConnState
    requires s != FinWait
  {
    match s
    case NoState => Transient
    case RstFin => Transient
    case NewSyn => TransientSyn
    case NewSynAck => TransientSynAck
    case Established => ConnEstablished
  }

  /** The two machines agree state by state except while the flow is in `FinWait`, for every trace. */
  lemma {:induction false} MachinesCorrespond(t: seq<Flags>)
    ensures RunFlow(t) != FinWait ==> RunConn(t) == Matching(RunFlow(t))
  {
    if t != [] {
      MachinesCorrespond(t[..|t| - 1]);
    }
  }

  /** A flow leaves `FinWait` only on a FIN or RST, and that packet brings both machines back together. */
  lemma FinWaitResynchronises(t: seq<Flags>, f: Flags)
    requires RunFlow(t) == FinWait
    ensures if f.Closes() then RunFlow(t + [f]) == RstFin && RunConn(t + [f]) == Transient
            else RunFlow(t + [f]) == FinWait
  {
    Snoc(t, f);
  }

  /** Packet `f` after trace `t` ends a connection in good order: a FIN, not a RST, after a full handshake. */
  ghost predicate GoodClose(t: seq<Flags>, f: Flags) {
    f.fin && !f.rst && SeenHandshake(t)
  }

  /** How many of the last FINs and RSTs of the trace, up to the very last one, are good closes in a row. */
  ghost function GoodCloses(t: seq<Flags>): nat {
    if t == [] then 0
    else
      var p, f := t[..|t| - 1], t[|t| - 1];
      if !f.Closes() then GoodCloses(p) else if GoodClose(p, f) then GoodCloses(p) + 1 else 0
  }

  /** Over every trace: a flow waits for a second FIN exactly when the good closes in a row at the end of the
      trace are odd in number. Every second one is taken for the other side's FIN. */
  lemma {:induction false} FinWaitIffOddCloses(t: seq<Flags>)
    ensures RunFlow(t) == FinWait <==> GoodCloses(t) % 2 == 1
  {
    if t != [] {
      var p := t[..|t| - 1];
      FinWaitIffOddCloses(p);
      MachinesCorrespond(p);
      ConnStateIsHandshakeProgress(p);
    }
  }

  /** Over every trace: a flow is established, and so kept for a day, exactly when a full handshake has been
      seen with no FIN or RST since its SYN and the good closes in a row before it are even in number. */
  lemma EstablishedIffHandshake(t: seq<Flags>, base: uint32)
    requires base != EXTENDED_TIMEOUT
    ensures RunFlow(t) == Established <==> SeenHandshake(t) && GoodCloses(t) % 2 == 0
    ensures FlowTimeout(RunFlow(t), base) == EXTENDED_TIMEOUT <==> SeenHandshake(t) && GoodCloses(t) % 2 == 0
  {
    MachinesCorrespond(t);
    ConnStateIsHandshakeProgress(t);
    FinWaitIffOddCloses(t);
  }

  /** The exception is real: after a FIN on an established flow a second handshake establishes the
      connection but not the flow. */
  lemma {:induction false} FinWaitMissesSecondHandshake()
    ensures var syn, synack, ack, fin :=
              Flags(true, false, false, false), Flags(true, true, false, false),
              Flags(false, true, false, false), Flags(false, true, true, false);
            var t := [syn, synack, ack, fin, syn, synack, ack];
            RunFlow(t) == FinWait && RunConn(t) == ConnEstablished
  {
    var syn, synack, ack, fin :=
      Flags(true, false, false, false), Flags(true, true, false, false),
      Flags(false, true, false, false), Flags(false, true, true, false);
    var t := [syn, synack, ack, fin, syn, synack, ack];
    var t1 := [] + [syn];
    var t2 := t1 + [synack];
    var t3 := t2 + [ack];
    var t4 := t3 + [fin];
    var t5 := t4 + [syn];
    var t6 := t5 + [synack];
    Snoc([], syn);
    Snoc(t1, synack);
    Snoc(t2, ack);
    Snoc(t3, fin);
    Snoc(t4, syn);
    Snoc(t5, synack);
    Snoc(t6, ack);
    assert t == t6 + [ack];
  }
}
