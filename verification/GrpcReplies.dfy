/**
 Replies of the worker to the gRPC thread. A reply is a chain of packets, each holding up to
 `capacity` messages; the chain is queued on a ring and read back until a packet says that none follows.
 */
module GrpcReplies {
  import opened Words

  /** A ring of 64 slots holds 63 packets. */
  const RING_CAPACITY: nat := 63
  const MAX_REPLIES: nat := 48

  datatype Pkt<M> = Pkt(reqType: nat, chained: bool, msgCount: uint16, err: uint32, messages: seq<M>)

  /** The responder: the packets so far, the last of which is being filled with `count` messages. */
  datatype Responder<M> = Responder(reqType: nat, replies: seq<Pkt<M>>, capacity: nat, count: nat)

  /** `dp_grpc_init_responder`, with the message count the packet is sent with. */
  function Init<M>(reqType: nat): Responder<M> {
    Responder(reqType, [Pkt(reqType, false, 0, 0, [])], 1, 0)
  }

  function SetMultireply<M>(r: Responder<M>, capacity: nat): Responder<M> {
    r.(capacity := capacity)
  }

  /** `dp_grpc_alloc_reply`: closes the last packet as chained and full and starts a new one. */
  function AllocReply<M>(r: Responder<M>, mbufOk: bool): (Responder<M>, bool)
    requires r.replies != []
  {
    if r.capacity >= U16 || |r.replies| >= MAX_REPLIES || !mbufOk then (r, false)
    else
      var n := |r.replies| - 1;
      var closed := r.replies[n].(chained := true, msgCount := r.capacity);
      (r.(replies := r.replies[n := closed] + [Pkt(r.reqType, false, 0, 0, [])], count := 0), true)
  }

  /** `dp_grpc_add_reply` and the write of the message by its caller. */
  function AddReply<M>(r: Responder<M>, m: M, mbufOk: bool): (Responder<M>, bool)
    requires r.replies != []
  {
    var (r1, ok) := if r.count >= r.capacity then AllocReply(r, mbufOk) else (r, true);
    if !ok then (r, false)
    else
      var n := |r1.replies| - 1;
      var last := r1.replies[n].(messages := r1.replies[n].messages + [m]);
      (r1.(replies := r1.replies[n := last], count := r1.count + 1), true)
  }

  /** `dp_grpc_send_response`: the error code goes into the first packet, the count into the last. */
  function Finished<M>(r: Responder<M>, err: uint32): seq<Pkt<M>>
    requires r.replies != [] && r.count < U16
  {
    var n := |r.replies| - 1;
    var counted := r.replies[n := r.replies[n].(msgCount := r.count)];
    counted[0 := counted[0].(err := err)]
  }

  /** All packets but the last are full and chained; the last holds what has been counted. */
  ghost predicate Good<M>(r: Responder<M>) {
    && 1 <= |r.replies| <= MAX_REPLIES && 1 <= r.capacity < U16 && r.count <= r.capacity
    && (forall i :: 0 <= i < |r.replies| ==> r.replies[i].reqType == r.reqType && r.replies[i].err == 0)
    && (forall i :: 0 <= i < |r.replies| - 1 ==>
          r.replies[i].chained && r.replies[i].msgCount == r.capacity == |r.replies[i].messages|)
    && !r.replies[|r.replies| - 1].chained
    && |r.replies[|r.replies| - 1].messages| == r.count
  }

  /** Every message held by the first `n` packets, in order. */
  function Contents<M>(pkts: seq<Pkt<M>>): seq<M> {
    if pkts == [] then [] else Contents(pkts[..|pkts| - 1]) + pkts[|pkts| - 1].messages
  }

  /** Messages added one after the other until one is refused; `spare` packets can still be allocated. */
  function AddAll<M>(r: Responder<M>, ms: seq<M>, spare: nat): (Responder<M>, bool)
    requires r.replies != []
    decreases |ms|
  {
    if ms == [] then (r, true)
    else
      var (r1, ok) := AddReply(r, ms[0], spare > 0);
      if !ok then (r, false)
      else AddAll(r1, ms[1..], if |r1.replies| > |r.replies| && spare > 0 then spare - 1 else spare)
  }

  /** Room left: the free places of the last packet and of the packets that can still be allocated. */
  function Room<M>(r: Responder<M>, spare: nat): int {
    var more := MAX_REPLIES - |r.replies|;
    (r.capacity - r.count) + (if spare < more then spare else more) * r.capacity
  }

  lemma ContentsUpdate<M>(pkts: seq<Pkt<M>>, p: Pkt<M>)
    requires pkts != []
    ensures Contents(pkts[|pkts| - 1 := p]) == Contents(pkts[..|pkts| - 1]) + p.messages
  {
    assert pkts[|pkts| - 1 := p][..|pkts| - 1] == pkts[..|pkts| - 1];
  }

  lemma ContentsAppend<M>(pkts: seq<Pkt<M>>, p: Pkt<M>)
    ensures Contents(pkts + [p]) == Contents(pkts) + p.messages
  {
    assert (pkts + [p])[..|pkts|] == pkts;
  }

  /** Starting a packet keeps what has been added. */
  lemma AllocKeeps<M>(r: Responder<M>, mbufOk: bool)
    requires Good(r) && r.count == r.capacity
    ensures var (r1, ok) := AllocReply(r, mbufOk);
            && (ok <==> mbufOk && |r.replies| < MAX_REPLIES)
            && (ok ==> Good(r1) && Contents(r1.replies) == Contents(r.replies) && |r1.replies| == |r.replies| + 1
                       && r1.capacity == r.capacity && r1.count == 0 && r1.reqType == r.reqType)
  {
    var n := |r.replies| - 1;
    var closed := r.replies[n].(chained := true, msgCount := r.capacity);
    ContentsUpdate(r.replies, closed);
    ContentsAppend(r.replies[n := closed], Pkt(r.reqType, false, 0, 0, []));
  }

  lemma AddKeeps<M>(r: Responder<M>, m: M, mbufOk: bool)
    requires Good(r)
    ensures var (r1, ok) := AddReply(r, m, mbufOk);
            && (ok <==> r.count < r.capacity || (mbufOk && |r.replies| < MAX_REPLIES))
            && (ok ==>
                  && Good(r1) && Contents(r1.replies) == Contents(r.replies) + [m]
                  && r1.capacity == r.capacity && r1.reqType == r.reqType
                  && (if r.count < r.capacity then |r1.replies| == |r.replies| && r1.count == r.count + 1
                      else |r1.replies| == |r.replies| + 1 && r1.count == 1))
  {
    if r.count >= r.capacity { AllocKeeps(r, mbufOk); }
    var (r0, ok) := if r.count >= r.capacity then AllocReply(r, mbufOk) else (r, true);
    if ok { FillKeeps(r0, m); }
  }

  lemma FillKeeps<M>(r: Responder<M>, m: M)
    requires Good(r) && r.count < r.capacity
    ensures var n := |r.replies| - 1;
            var p := r.replies[n].(messages := r.replies[n].messages + [m]);
            && Good(r.(replies := r.replies[n := p], count := r.count + 1))
            && Contents(r.replies[n := p]) == Contents(r.replies) + [m]
  {
    var n := |r.replies| - 1;
    ContentsUpdate(r.replies, r.replies[n].(messages := r.replies[n].messages + [m]));
  }

  /** The chain holds the messages added, in order, up to the room there was; adding fails exactly when
      there is a message too many. */
  lemma {:induction false} AddAllKeepsPrefix<M>(r: Responder<M>, ms: seq<M>, spare: nat)
    requires Good(r)
    ensures Room(r, spare) >= 0
    ensures var (r1, ok) := AddAll(r, ms, spare);
            && Good(r1) && r1.reqType == r.reqType && r1.capacity == r.capacity
            && (ok <==> |ms| <= Room(r, spare))
            && Contents(r1.replies) == Contents(r.replies) + (if ok then ms else ms[..Room(r, spare)])
    decreases |ms|
  {
    RoomPositive(r, spare);
    if ms != [] {
      AddKeeps(r, ms[0], spare > 0);
      var (r0, ok) := AddReply(r, ms[0], spare > 0);
      if ok {
        var left := if |r0.replies| > |r.replies| && spare > 0 then spare - 1 else spare;
        RoomStep(r, r0, spare, left);
        AddAllKeepsPrefix(r0, ms[1..], left);
        PrefixStep(Contents(r.replies), ms, Room(r0, left));
      }
    }
  }

  lemma PrefixStep<M>(before: seq<M>, ms: seq<M>, room: nat)
    requires ms != []
    ensures (before + [ms[0]]) + ms[1..] == before + ms
    ensures |ms| > room + 1 ==> (before + [ms[0]]) + ms[1..][..room] == before + ms[..room + 1]
  {
  }

  lemma RoomPositive<M>(r: Responder<M>, spare: nat)
    requires Good(r)
    ensures Room(r, spare) >= 0
    ensures Room(r, spare) > 0 <==> r.count < r.capacity || (spare > 0 && |r.replies| < MAX_REPLIES)
  {
    var more := MAX_REPLIES - |r.replies|;
    ProductSign(if spare < more then spare else more, r.capacity);
  }

  lemma ProductSign(k: nat, c: nat)
    requires c > 0
    ensures k * c >= 0 && (k * c > 0 <==> k > 0)
  {
  }

  lemma RoomStep<M>(r: Responder<M>, r1: Responder<M>, spare: nat, left: nat)
    requires Good(r) && Good(r1) && r1.capacity == r.capacity
    requires if r.count < r.capacity then |r1.replies| == |r.replies| && r1.count == r.count + 1 && left == spare
             else spare > 0 && |r1.replies| == |r.replies| + 1 && r1.count == 1 && left == spare - 1
    ensures Room(r1, left) == Room(r, spare) - 1
  {
    var more := MAX_REPLIES - |r.replies|;
    var k := if spare < more then spare else more;
    assert (k - 1) * r.capacity == k * r.capacity - r.capacity;
  }

  // ----- Reading -----

  datatype Ending = Complete | NotReady | WrongType

  datatype Read<M> = Read(msgs: seq<M>, status: uint32, rest: seq<Pkt<M>>, ending: Ending)

  /** The messages taken from one packet. */
  function Taken<M>(p: Pkt<M>): seq<M> {
    if p.err == 0 && p.msgCount <= |p.messages| then p.messages[..p.msgCount] else []
  }

  /** The loop of `MultiReplyCall::HandleReply` on the ring: messages of packets without error are taken,
      the status is that of the packet read last, an empty ring means "not ready", a packet of another
      request type fails the call. */
  function ReadChain<M>(ring: seq<Pkt<M>>, reqType: nat, status: uint32): Read<M> {
    if ring == [] then Read([], status, [], NotReady)
    else if ring[0].reqType != reqType then Read([], status, ring[1..], WrongType)
    else if !ring[0].chained then Read(Taken(ring[0]), ring[0].err, ring[1..], Complete)
    else
      var more := ReadChain(ring[1..], reqType, ring[0].err);
      more.(msgs := Taken(ring[0]) + more.msgs)
  }

  /** What is left of the contents when the first packet is skipped. */
  function AfterFirst<M>(pkts: seq<Pkt<M>>): seq<M>
    requires pkts != []
  {
    Contents(pkts[1..])
  }

  /** A closed chain: full chained packets, then an unchained one, no errors past the first packet. */
  ghost predicate Closed<M>(c: seq<Pkt<M>>) {
    && c != []
    && (forall i :: 0 <= i < |c| ==> c[i].msgCount == |c[i].messages| && (c[i].chained <==> i < |c| - 1))
    && (forall i :: 1 <= i < |c| ==> c[i].err == 0)
  }

  lemma Regroup<M>(a: seq<M>, b: seq<M>, c: seq<M>)
    ensures (a + b) + c == a + (b + c)
  {
  }

  lemma {:induction false} ContentsFront<M>(c: seq<Pkt<M>>)
    requires c != []
    ensures Contents(c) == c[0].messages + Contents(c[1..])
    decreases |c|
  {
    var n := |c| - 1;
    if n == 0 {
      assert c[..0] == [] && c[1..] == [];
    } else {
      ContentsFront(c[..n]);
      Middle(c);
      Regroup(c[0].messages, Contents(c[..n][1..]), c[n].messages);
    }
  }

  lemma Middle<M>(c: seq<M>)
    requires |c| >= 2
    ensures c[1..][..|c| - 2] == c[..|c| - 1][1..] && c[1..][|c| - 2] == c[|c| - 1] && c[..|c| - 1][0] == c[0]
  {
  }

  /** Reading a closed chain takes exactly the chain and leaves what follows it on the ring; it yields all
      messages and no error if the worker reported none, and otherwise loses the first packet's messages
      and, unless the chain is a single packet, the error as well. */
  lemma {:induction false} ReadTakesExactlyTheChain<M>(c: seq<Pkt<M>>, rest: seq<Pkt<M>>, reqType: nat, status: uint32)
    requires Closed(c) && forall i :: 0 <= i < |c| ==> c[i].reqType == reqType
    ensures ReadChain(c + rest, reqType, status)
            == Read(if c[0].err == 0 then Contents(c) else AfterFirst(c),
                    if |c| == 1 then c[0].err else 0, rest, Complete)
    decreases |c|
  {
    var ring := c + rest;
    ContentsFront(c);
    assert ring[0] == c[0] && ring[1..] == c[1..] + rest;
    assert c[0].messages[..c[0].msgCount] == c[0].messages;
    if |c| > 1 {
      ReadTakesExactlyTheChain(c[1..], rest, reqType, c[0].err);
    } else {
      assert c[1..] == [] && ring[1..] == rest;
    }
  }

  lemma FinishedIsClosed<M>(r: Responder<M>, err: uint32)
    requires Good(r)
    ensures Closed(Finished(r, err)) && |Finished(r, err)| == |r.replies|
    ensures Contents(Finished(r, err)) == Contents(r.replies) && Finished(r, err)[0].err == err
    ensures forall i :: 0 <= i < |r.replies| ==> Finished(r, err)[i].reqType == r.reqType
  {
    var c := Finished(r, err);
    forall i | 0 <= i < |r.replies| ensures c[i].messages == r.replies[i].messages {}
    SameMessages(c, r.replies);
  }

  lemma {:induction false} SameMessages<M>(a: seq<Pkt<M>>, b: seq<Pkt<M>>)
    requires |a| == |b| && forall i :: 0 <= i < |a| ==> a[i].messages == b[i].messages
    ensures Contents(a) == Contents(b)
  {
    if a != [] { SameMessages(a[..|a| - 1], b[..|b| - 1]); }
  }

  // ----- The whole exchange -----

  /** The error a list handler reports when a message is refused. */
  const ErrOutOfMemory: uint32 := 208

  /** A request: single-reply ones are answered without messages; `ms` is what a list handler adds before it
      returns `err`, which is zero when the list is complete. */
  datatype Request<M> =
    | Single(reqType: nat, err: uint32)
    | Multi(reqType: nat, ms: seq<M>, err: uint32, capacity: nat, spare: nat)

  ghost predicate Sensible<M>(q: Request<M>) {
    q.Multi? ==> 1 <= q.capacity < U16
  }

  /** How many messages of a list reply fit. */
  function Fits<M>(q: Request<M>): nat
    requires q.Multi? && q.capacity >= 1
  {
    (1 + (if q.spare < MAX_REPLIES - 1 then q.spare else MAX_REPLIES - 1)) * q.capacity
  }

  /** The packets the worker queues for a request. */
  function Answer<M>(q: Request<M>): (c: seq<Pkt<M>>) {
    match q
    case Single(ty, err) => Finished(Init<M>(ty), err)
    case Multi(ty, ms, err, capacity, spare) =>
      var (r, ok) := AddAll(SetMultireply(Init<M>(ty), capacity), ms, spare);
      if r.replies == [] || r.count >= U16 then [] else Finished(r, if ok then err else ErrOutOfMemory)
  }

  /** The answer to a request is a closed chain of at most 48 packets holding the messages that fit; it
      carries the handler's error, or another one exactly when a message did not fit. */
  lemma AnswerIsChain<M>(q: Request<M>)
    requires Sensible(q)
    ensures var c := Answer(q);
            && Closed(c) && |c| <= MAX_REPLIES
            && (forall i :: 0 <= i < |c| ==> c[i].reqType == q.reqType)
            && (q.Single? ==> |c| == 1 && Contents(c) == [] && c[0].err == q.err)
            && (q.Multi? ==>
                  if |q.ms| <= Fits(q) then Contents(c) == q.ms && c[0].err == q.err
                  else Contents(c) == q.ms[..Fits(q)] && c[0].err == ErrOutOfMemory)
  {
    match q
    case Single(ty, err) =>
      assert Good(Init<M>(ty));
      assert Contents(Init<M>(ty).replies) == [];
      FinishedIsClosed(Init<M>(ty), err);
    case Multi(ty, ms, err, capacity, spare) =>
      var r0 := SetMultireply(Init<M>(ty), capacity);
      assert Good(r0) && Contents(r0.replies) == [];
      AddAllKeepsPrefix(r0, ms, spare);
      var (r, ok) := AddAll(r0, ms, spare);
      var k := if spare < MAX_REPLIES - 1 then spare else MAX_REPLIES - 1;
      assert (1 + k) * capacity == capacity + k * capacity;
      assert Room(r0, spare) == Fits(q);
      FinishedIsClosed(r, if ok then err else ErrOutOfMemory);
  }

  /** What the gRPC thread is doing: nothing, waiting for the worker, or about to read the answer. */
  datatype Phase<M> = Idle | Sent(q: Request<M>) | Answered(q: Request<M>)

  /** A finished call and what it was given. */
  datatype Done<M> = Done(q: Request<M>, msgs: seq<M>, status: uint32, failed: bool)

  /** `partial` is what the outstanding list call has parsed so far. */
  datatype Exchange<M> = Exchange(phase: Phase<M>, ring: seq<Pkt<M>>, partial: seq<M>, log: seq<Done<M>>)

  datatype Action<M> = Call(q: Request<M>) | Work | Poll

  /** A burst is queued as far as the ring has room; the rest is freed. */
  function Enqueue<M>(ring: seq<Pkt<M>>, pkts: seq<Pkt<M>>): seq<Pkt<M>> {
    if |ring| >= RING_CAPACITY then ring
    else if |ring| + |pkts| <= RING_CAPACITY then ring + pkts
    else ring + pkts[..RING_CAPACITY - |ring|]
  }

  /** One action of either thread. The gRPC thread starts a call only when it is idle, because it polls
      until the call it started is finished. A reply of the wrong type, or a chained reply to a
      single-reply call, fails the call. */
  function Act<M>(x: Exchange<M>, a: Action<M>): Exchange<M> {
    match a
    case Call(q) => if x.phase.Idle? then x.(phase := Sent(q)) else x
    case Work =>
      if x.phase.Sent? then x.(phase := Answered(x.phase.q), ring := Enqueue(x.ring, Answer(x.phase.q))) else x
    case Poll =>
      if x.phase.Idle? || x.ring == [] then x
      else
        var q, p := x.phase.q, x.ring[0];
        if q.Single? then
          var failed := p.reqType != q.reqType || p.chained || p.msgCount != 0;
          Exchange(Idle, x.ring[1..], [], x.log + [Done(q, [], p.err, failed)])
        else
          var r := ReadChain(x.ring, q.reqType, 0);
          if r.ending == NotReady then x.(ring := r.rest, partial := x.partial + r.msgs)
          else Exchange(Idle, r.rest, [], x.log + [Done(q, x.partial + r.msgs, r.status, r.ending == WrongType)])
  }

  function ActAll<M>(x: Exchange<M>, actions: seq<Action<M>>): Exchange<M>
    decreases |actions|
  {
    if actions == [] then x else ActAll(Act(x, actions[0]), actions[1..])
  }

  /** The error code of the answer to a list request. */
  function ErrOf<M>(q: Request<M>): uint32
    requires q.Multi? && q.capacity >= 1
  {
    if |q.ms| <= Fits(q) then q.err else ErrOutOfMemory
  }

  /** What a call is owed: its own answer, whole when there was no error; otherwise the messages after those
      of the first packet, under a status that hides the error unless there was only one packet. */
  ghost predicate Owed<M>(d: Done<M>) {
    && !d.failed
    && var c := Answer(d.q);
       && c != []
       && (d.q.Single? ==> d.status == d.q.err && d.msgs == [])
       && (d.q.Multi? && d.q.capacity >= 1 ==>
             if ErrOf(d.q) == 0 then d.msgs == d.q.ms && d.status == 0
             else d.msgs == AfterFirst(c) && d.status == if |c| == 1 then ErrOf(d.q) else 0)
  }

  /** The ring holds exactly the answer to the outstanding call, or nothing. */
  ghost predicate InStep<M>(x: Exchange<M>) {
    && (x.phase.Answered? ==> Sensible(x.phase.q) && x.ring == Answer(x.phase.q))
    && (x.phase.Sent? ==> Sensible(x.phase.q))
    && (!x.phase.Answered? ==> x.ring == []) && x.partial == []
    && (forall i :: 0 <= i < |x.log| ==> Owed(x.log[i]))
  }

  /** Polling once when the whole answer is on the ring finishes the call with what it is owed. */
  lemma AnswerIsOwed<M>(q: Request<M>, log: seq<Done<M>>)
    requires Sensible(q)
    ensures var x := Act(Exchange(Answered(q), Answer(q), [], log), Poll);
            && x.phase == Idle && x.ring == [] && x.partial == []
            && |x.log| == |log| + 1 && x.log[..|log|] == log && Owed(x.log[|log|])
  {
    AnswerIsChain(q);
    if q.Single? {
      assert Answer(q)[1..] == [];
    } else {
      ListAnswerIsRead(q);
      assert [] + ReadChain(Answer(q), q.reqType, 0).msgs == ReadChain(Answer(q), q.reqType, 0).msgs;
    }
  }

  /** Reading the whole answer to a list request gives what the request is owed. */
  lemma ListAnswerIsRead<M>(q: Request<M>)
    requires Sensible(q) && q.Multi?
    ensures var r := ReadChain(Answer(q), q.reqType, 0);
            r.ending == Complete && r.rest == [] && Owed(Done(q, r.msgs, r.status, false))
  {
    var c := Answer(q);
    AnswerIsChain(q);
    assert c + [] == c;
    ReadTakesExactlyTheChain(c, [], q.reqType, 0);
  }

  lemma PollIsOwed<M>(x: Exchange<M>)
    requires InStep(x)
    ensures InStep(Act(x, Poll))
  {
    if x.phase.Answered? {
      AnswerIsOwed(x.phase.q, x.log);
      var x' := Act(Exchange(Answered(x.phase.q), Answer(x.phase.q), [], x.log), Poll);
      assert x == Exchange(Answered(x.phase.q), Answer(x.phase.q), [], x.log);
      forall i | 0 <= i < |x'.log| ensures Owed(x'.log[i]) {
        if i < |x.log| { assert x'.log[i] == x'.log[..|x.log|][i]; }
      }
    }
  }

  lemma ActKeepsStep<M>(x: Exchange<M>, a: Action<M>)
    requires InStep(x) && (a.Call? ==> Sensible(a.q))
    ensures InStep(Act(x, a))
  {
    match a
    case Call(_) =>
    case Work => if x.phase.Sent? { AnswerIsChain(x.phase.q); assert [] + Answer(x.phase.q) == Answer(x.phase.q); }
    case Poll => PollIsOwed(x);
  }

  /** Over every interleaving of calls, worker steps and polls: the ring never overflows or mixes answers,
      and every finished call was given its own answer. */
  lemma {:induction false} CallsNeverMix<M>(x: Exchange<M>, actions: seq<Action<M>>)
    requires InStep(x)
    requires forall i :: 0 <= i < |actions| && actions[i].Call? ==> Sensible(actions[i].q)
    ensures InStep(ActAll(x, actions))
    decreases |actions|
  {
    if actions != [] {
      ActKeepsStep(x, actions[0]);
      CallsNeverMix(Act(x, actions[0]), actions[1..]);
    }
  }

  function Start<M>(): (x: Exchange<M>)
    ensures InStep(x)
  {
    Exchange(Idle, [], [], [])
  }

  /** In particular from the start: every call that ever finishes has been given what it is owed. */
  lemma EveryCallIsOwed<M>(actions: seq<Action<M>>)
    requires forall i :: 0 <= i < |actions| && actions[i].Call? ==> Sensible(actions[i].q)
    ensures var x := ActAll(Start<M>(), actions);
            InStep(x) && forall i :: 0 <= i < |x.log| ==> Owed(x.log[i])
  {
    CallsNeverMix(Start<M>(), actions);
  }

  // ----- When an incomplete list passes for a complete one -----

  lemma {:induction false} NoSpareNoChain<M>(r: Responder<M>, ms: seq<M>)
    requires Good(r) && |r.replies| == 1
    ensures |AddAll(r, ms, 0).0.replies| == 1
    decreases |ms|
  {
    if ms != [] {
      AddKeeps(r, ms[0], false);
      var (r1, ok) := AddReply(r, ms[0], false);
      if ok { NoSpareNoChain(r1, ms[1..]); }
    }
  }

  /** An answer is a single packet if and only if its messages fit into one or no other can be allocated. */
  lemma SinglePacketIff<M>(q: Request<M>)
    requires Sensible(q) && q.Multi?
    ensures |Answer(q)| == 1 <==> |q.ms| <= q.capacity || q.spare == 0
  {
    var r0 := SetMultireply(Init<M>(q.reqType), q.capacity);
    assert Good(r0);
    AnswerIsChain(q);
    AddAllKeepsPrefix(r0, q.ms, q.spare);
    if q.spare == 0 {
      NoSpareNoChain(r0, q.ms);
    } else if |q.ms| <= q.capacity {
      OnePacketIsEnough(r0, q.ms, q.spare);
    } else {
      ContentsFront(Answer(q));
      MoreThanOne(q);
    }
  }

  lemma {:induction false} OnePacketIsEnough<M>(r: Responder<M>, ms: seq<M>, spare: nat)
    requires Good(r) && |r.replies| == 1 && |ms| <= r.capacity - r.count
    ensures |AddAll(r, ms, spare).0.replies| == 1
    decreases |ms|
  {
    if ms != [] {
      AddKeeps(r, ms[0], spare > 0);
      OnePacketIsEnough(AddReply(r, ms[0], spare > 0).0, ms[1..], spare);
    }
  }

  lemma MoreThanOne<M>(q: Request<M>)
    requires q.Multi? && q.capacity >= 1 && q.spare > 0
    ensures Fits(q) > q.capacity
  {
    var k := if q.spare < MAX_REPLIES - 1 then q.spare else MAX_REPLIES - 1;
    assert (1 + k) * q.capacity == q.capacity + k * q.capacity;
    ProductSign(k, q.capacity);
  }

  /** A list call that ends with status 0 was given the whole list of a handler that reported no error, if
      and only if the list fit and the handler reported none, or the answer is a single packet: the error of
      a longer chain is overwritten. */
  lemma SuccessIsCompleteIff<M>(q: Request<M>, log: seq<Done<M>>)
    requires Sensible(q) && q.Multi?
    ensures var x := Act(Exchange(Answered(q), Answer(q), [], log), Poll);
            && |x.log| == |log| + 1
            && var d := x.log[|log|];
               (d.status == 0 ==> d.msgs == q.ms && q.err == 0)
               <==> (|q.ms| <= Fits(q) && q.err == 0) || |q.ms| <= q.capacity || q.spare == 0
  {
    AnswerIsOwed(q, log);
    AnswerIsChain(q);
    SinglePacketIff(q);
    FitsOne(q);
    if |q.ms| > Fits(q) { ContentsFront(Answer(q)); }
  }

  lemma FitsOne<M>(q: Request<M>)
    requires q.Multi? && q.capacity >= 1
    ensures Fits(q) >= q.capacity
  {
    if q.spare > 0 { MoreThanOne(q); }
  }

  /** Two messages, one to a packet, then an iterator error: the call succeeds with the second message. */
  lemma HandlerErrorIsHidden<M>(reqType: nat, a: M, b: M, err: uint32)
    requires err != 0
    ensures var q := Multi(reqType, [a, b], err, 1, 1);
            var x := Act(Exchange(Answered(q), Answer(q), [], []), Poll);
            x.log == [Done(q, [b], 0, false)]
  {
    var q := Multi(reqType, [a, b], err, 1, 1);
    AnswerIsOwed(q, []);
    AnswerIsChain(q);
    SinglePacketIff(q);
    ContentsFront(Answer(q));
    var d := Act(Exchange(Answered(q), Answer(q), [], []), Poll).log[0];
    FirstIsFull(q);
    assert d == Done(q, [b], 0, false);
  }

  /** In a chain of more than one packet the first one is full. */
  lemma FirstIsFull<M>(q: Request<M>)
    requires Sensible(q) && q.Multi? && |Answer(q)| > 1
    ensures |Answer(q)[0].messages| == q.capacity
  {
    var r0 := SetMultireply(Init<M>(q.reqType), q.capacity);
    assert Good(r0);
    AddAllKeepsPrefix(r0, q.ms, q.spare);
    var (r, ok) := AddAll(r0, q.ms, q.spare);
    FinishedIsClosed(r, if ok then q.err else ErrOutOfMemory);
  }

  // ----- The code -----

  class Ring<M> {
    var pkts: seq<Pkt<M>>

    constructor ()
      ensures pkts == []
    {
      pkts := [];
    }

    method EnqueueBurst(burst: seq<Pkt<M>>) returns (sent: nat)
      requires |pkts| <= RING_CAPACITY
      modifies this
      ensures pkts == Enqueue(old(pkts), burst) && |pkts| <= RING_CAPACITY
      ensures sent == |pkts| - |old(pkts)|
    {
      var free := RING_CAPACITY - |pkts|;
      sent := if |burst| < free then |burst| else free;
      pkts := pkts + burst[..sent];
      assert sent == |burst| ==> burst[..sent] == burst;
      assert sent == 0 ==> pkts == old(pkts);
    }

    method Dequeue() returns (p: Option<Pkt<M>>)
      modifies this
      ensures old(pkts) == [] ==> p.None? && pkts == []
      ensures old(pkts) != [] ==> p == Some(old(pkts)[0]) && pkts == old(pkts)[1..]
    {
      if pkts == [] { return None; }
      p := Some(pkts[0]);
      pkts := pkts[1..];
    }
  }

  class ReplyBuilder<M> {
    const reqType: nat
    var replies: seq<Pkt<M>>
    var repCapacity: nat
    var repMsgcount: nat

    ghost function Model(): Responder<M>
      reads this
    {
      Responder(reqType, replies, repCapacity, repMsgcount)
    }

    constructor (reqType: nat)
      ensures Model() == Init(reqType)
    {
      this.reqType := reqType;
      replies := [Pkt(reqType, false, 0, 0, [])];
      repCapacity, repMsgcount := 1, 0;
    }

    /** A packet takes as many messages as fit: all of them, and not one more. Buffer lengths are 16-bit, so
        the capacity always is; it is positive exactly when one message fits. */
    method Multireply(maxSize: uint16, msgSize: nat)
      requires msgSize > 0
      modifies this`repCapacity
      ensures Model() == SetMultireply(old(Model()), repCapacity)
      ensures repCapacity * msgSize <= maxSize < (repCapacity + 1) * msgSize
      ensures repCapacity < U16 && (repCapacity >= 1 <==> msgSize <= maxSize)
    {
      repCapacity := maxSize / msgSize;
    }

    method Alloc(mbufOk: bool) returns (ok: bool)
      requires replies != []
      modifies this`replies, this`repMsgcount
      ensures (Model(), ok) == AllocReply(old(Model()), mbufOk)
    {
      if repCapacity > 0xffff { return false; }
      if |replies| >= MAX_REPLIES { return false; }
      if !mbufOk { return false; }
      var n := |replies| - 1;
      replies := replies[n := replies[n].(chained := true, msgCount := repCapacity)];
      replies := replies + [Pkt(reqType, false, 0, 0, [])];
      repMsgcount := 0;
      return true;
    }

    method Push(m: M, mbufOk: bool) returns (ok: bool)
      requires replies != []
      modifies this`replies, this`repMsgcount
      ensures replies != [] && (Model(), ok) == AddReply(old(Model()), m, mbufOk)
    {
      if repMsgcount >= repCapacity {
        ok := Alloc(mbufOk);
        if !ok { return; }
      }
      var n := |replies| - 1;
      replies := replies[n := replies[n].(messages := replies[n].messages + [m])];
      repMsgcount := repMsgcount + 1;
      return true;
    }

    method SendResponse(err: uint32, ring: Ring<M>) returns (sent: nat)
      requires replies != [] && repMsgcount < U16 && |ring.pkts| <= RING_CAPACITY
      modifies this`replies, ring
      ensures ring.pkts == Enqueue(old(ring.pkts), Finished(old(Model()), err))
      ensures sent == |ring.pkts| - |old(ring.pkts)|
    {
      var n := |replies| - 1;
      replies := replies[n := replies[n].(msgCount := repMsgcount)];
      replies := replies[0 := replies[0].(err := err)];
      sent := ring.EnqueueBurst(replies);
    }
  }

  /** `MultiReplyCall::HandleReply` */
  method HandleMultiReply<M>(ring: Ring<M>, reqType: nat) returns (msgs: seq<M>, status: uint32, ending: Ending)
    modifies ring
    ensures Read(msgs, status, ring.pkts, ending) == ReadChain(old(ring.pkts), reqType, 0)
  {
    msgs, status := [], 0;
    while true
      invariant var r := ReadChain(ring.pkts, reqType, status);
                ReadChain(old(ring.pkts), reqType, 0) == r.(msgs := msgs + r.msgs)
      decreases |ring.pkts|
    {
      var p := ring.Dequeue();
      if p.None? { return msgs, status, NotReady; }
      if p.value.reqType != reqType { return msgs, status, WrongType; }
      status := p.value.err;
      msgs := msgs + Taken(p.value);
      if !p.value.chained { return msgs, status, Complete; }
    }
  }
}
