/**
 The packet loop every graph node runs. Packets expected to leave by the speculated edge are not
 enqueued one by one: runs of them are copied into space reserved on that edge's stream, or the whole
 burst is moved at once. Each edge leads to its own next node.
 */
module Forwarding {
  import opened Words

  /** The packets among the first `n` that are assigned to edge `e`, in order. */
  function Assigned<T>(pkts: seq<T>, edges: seq<uint16>, e: uint16, n: nat): seq<T>
    requires n <= |pkts| && n <= |edges|
  {
    if n == 0 then []
    else Assigned(pkts, edges, e, n - 1) + (if edges[n - 1] == e then [pkts[n - 1]] else [])
  }

  /** The number of packets among the first `n` assigned to edge `e`. */
  function CountOf(edges: seq<uint16>, e: uint16, n: nat): nat
    requires n <= |edges|
  {
    if n == 0 then 0 else CountOf(edges, e, n - 1) + (if edges[n - 1] == e then 1 else 0)
  }

  lemma {:induction false} AssignedCount<T>(pkts: seq<T>, edges: seq<uint16>, e: uint16, n: nat)
    requires n <= |pkts| && n <= |edges|
    ensures |Assigned(pkts, edges, e, n)| == CountOf(edges, e, n) <= n
  {
    if n > 0 { AssignedCount(pkts, edges, e, n - 1); }
  }

  /** A run of packets all assigned to `e` is taken over whole. */
  lemma {:induction false} AssignedRun<T>(pkts: seq<T>, edges: seq<uint16>, e: uint16, m: nat, n: nat)
    requires m <= n <= |pkts| && n <= |edges|
    requires forall i :: m <= i < n ==> edges[i] == e
    ensures Assigned(pkts, edges, e, n) == Assigned(pkts, edges, e, m) + pkts[m..n]
    decreases n - m
  {
    if m < n {
      AssignedRun(pkts, edges, e, m, n - 1);
      assert pkts[m..n] == pkts[m..n - 1] + [pkts[n - 1]];
    }
  }

  /** A run assigned to `e` followed by a packet for another edge. */
  lemma RunThenOther<T>(pkts: seq<T>, edges: seq<uint16>, e: uint16, m: nat, n: nat)
    requires m <= n < |pkts| && n < |edges| && edges[n] != e
    requires forall i :: m <= i < n ==> edges[i] == e
    ensures Assigned(pkts, edges, e, n + 1) == Assigned(pkts, edges, e, m) + pkts[m..n]
  {
    AssignedRun(pkts, edges, e, m, n);
  }

  function StreamOf<T>(streams: map<uint16, seq<T>>, e: uint16): seq<T> {
    if e in streams then streams[e] else []
  }

  function Appended<T>(streams: map<uint16, seq<T>>, e: uint16, pkts: seq<T>): map<uint16, seq<T>> {
    streams[e := StreamOf(streams, e) + pkts]
  }

  /** The plain loop: the first `n` packets enqueued one by one, each on its edge. */
  function EnqueueAll<T>(streams: map<uint16, seq<T>>, pkts: seq<T>, edges: seq<uint16>, n: nat): map<uint16, seq<T>>
    requires n <= |pkts| && n <= |edges|
  {
    if n == 0 then streams else Appended(EnqueueAll(streams, pkts, edges, n - 1), edges[n - 1], [pkts[n - 1]])
  }

  /** The same with the packets for edge `spec` held back. */
  function EnqueueOthers<T>(streams: map<uint16, seq<T>>, pkts: seq<T>, edges: seq<uint16>, spec: uint16, n: nat)
      : map<uint16, seq<T>>
    requires n <= |pkts| && n <= |edges|
  {
    if n == 0 then streams
    else
      var others := EnqueueOthers(streams, pkts, edges, spec, n - 1);
      if edges[n - 1] == spec then others else Appended(others, edges[n - 1], [pkts[n - 1]])
  }

  lemma {:induction false} EnqueuedStreams<T>(streams: map<uint16, seq<T>>, pkts: seq<T>, edges: seq<uint16>,
      spec: uint16, n: nat, e: uint16)
    requires n <= |pkts| && n <= |edges|
    ensures StreamOf(EnqueueAll(streams, pkts, edges, n), e) == StreamOf(streams, e) + Assigned(pkts, edges, e, n)
    ensures StreamOf(EnqueueOthers(streams, pkts, edges, spec, n), e)
            == if e == spec then StreamOf(streams, e) else StreamOf(streams, e) + Assigned(pkts, edges, e, n)
  {
    if n > 0 { EnqueuedStreams(streams, pkts, edges, spec, n - 1, e); }
  }

  /** Handing over the packets held back gives every edge what the plain loop gives it. */
  lemma HandingOverCompletes<T>(streams: map<uint16, seq<T>>, pkts: seq<T>, edges: seq<uint16>, spec: uint16)
    requires |pkts| == |edges|
    ensures var others, held := EnqueueOthers(streams, pkts, edges, spec, |pkts|), Assigned(pkts, edges, spec, |pkts|);
            var after := Appended(others, spec, held);
            forall e :: StreamOf(after, e) == StreamOf(EnqueueAll(streams, pkts, edges, |pkts|), e)
  {
    var others := EnqueueOthers(streams, pkts, edges, spec, |pkts|);
    var after := Appended(others, spec, Assigned(pkts, edges, spec, |pkts|));
    forall e ensures StreamOf(after, e) == StreamOf(EnqueueAll(streams, pkts, edges, |pkts|), e) {
      EnqueuedStreams(streams, pkts, edges, spec, |pkts|, e);
    }
  }

  /** `dp_foreach_graph_packet`; `edges[i]` is what the node's classifier answers for packet `i`, and a
      negative `speculated` means no speculation. Every edge receives what the plain loop would give it;
      `held` counts the packets copied to the speculated stream. */
  method ForeachPacket<T(0)>(streams: map<uint16, seq<T>>, objs: seq<T>, edges: seq<uint16>, speculated: int)
    returns (after: map<uint16, seq<T>>, held: uint16)
    requires |objs| == |edges| < U16 && speculated < U16
    ensures forall e :: StreamOf(after, e) == StreamOf(EnqueueAll(streams, objs, edges, |objs|), e)
    ensures speculated >= 0 && CountOf(edges, speculated, |edges|) != |edges| ==>
        held == CountOf(edges, speculated, |edges|)
  {
    if speculated < 0 {
      after := EnqueueEach(streams, objs, edges);
      return after, 0;
    }
    var spec: uint16 := speculated;
    var nb := |objs|;
    var reserved := new T[nb];
    var from, lastSpec;
    after, from, lastSpec, held := Speculate(streams, objs, edges, spec, reserved);
    AssignedRun(objs, edges, spec, from, nb);
    AssignedCount(objs, edges, spec, nb);
    HandingOverCompletes(streams, objs, edges, spec);
    if lastSpec == nb {
      assert Assigned(objs, edges, spec, nb) == objs;
      after := Appended(after, spec, objs);
      return;
    }
    CopyRun(objs, from, reserved, held, lastSpec);
    held := held + lastSpec;
    assert reserved[..held] == Assigned(objs, edges, spec, nb);
    after := Appended(after, spec, reserved[..held]);
  }

  /** The speculating loop: when it ends, the last `lastSpec` packets are still to be copied. */
  method Speculate<T>(streams: map<uint16, seq<T>>, objs: seq<T>, edges: seq<uint16>, spec: uint16, reserved: array<T>)
    returns (after: map<uint16, seq<T>>, from: nat, lastSpec: nat, held: uint16)
    requires |objs| == reserved.Length == |edges| < U16
    modifies reserved
    ensures from + lastSpec == |objs| && held <= from
    ensures forall j :: from <= j < |objs| ==> edges[j] == spec
    ensures reserved[..held] == Assigned(objs, edges, spec, from)
    ensures after == EnqueueOthers(streams, objs, edges, spec, |objs|)
  {
    after := streams;
    var toNext := 0;
    from, lastSpec, held := 0, 0, 0;
    for i := 0 to |objs|
      invariant from + lastSpec == i && held == toNext <= from
      invariant reserved[..toNext] == Assigned(objs, edges, spec, from)
      invariant forall j :: from <= j < i ==> edges[j] == spec
      invariant after == EnqueueOthers(streams, objs, edges, spec, i)
    {
      if edges[i] != spec {
        CopyRun(objs, from, reserved, toNext, lastSpec);
        assert reserved[..toNext + lastSpec] == Assigned(objs, edges, spec, i + 1) by {
          RunThenOther(objs, edges, spec, from, i);
        }
        from := from + lastSpec;
        toNext := toNext + lastSpec;
        held := held + lastSpec;
        lastSpec := 0;
        after := Appended(after, edges[i], [objs[from]]);
        from := from + 1;
      } else {
        lastSpec := lastSpec + 1;
      }
    }
  }

  /** The branch without speculation: one enqueue per packet. */
  method EnqueueEach<T>(streams: map<uint16, seq<T>>, objs: seq<T>, edges: seq<uint16>)
      returns (after: map<uint16, seq<T>>)
    requires |objs| == |edges|
    ensures after == EnqueueAll(streams, objs, edges, |objs|)
  {
    after := streams;
    for i := 0 to |objs|
      invariant after == EnqueueAll(streams, objs, edges, i)
    {
      after := Appended(after, edges[i], [objs[i]]);
    }
  }

  /** Copies `n` packets starting at `from` to position `at`; earlier positions keep their packets. */
  method CopyRun<T>(src: seq<T>, from: nat, dst: array<T>, at: nat, n: nat)
    requires from + n <= |src| && at + n <= dst.Length
    modifies dst
    ensures dst[..at + n] == old(dst[..at]) + src[from..from + n]
  {
    forall j | 0 <= j < n { dst[at + j] := src[from + j]; }
  }

  // ----- Conservation -----

  /** The packets of every edge below `m`, one edge after the other. */
  function Gathered<T>(pkts: seq<T>, edges: seq<uint16>, n: nat, m: nat): seq<T>
    requires n <= |pkts| && n <= |edges| && m <= U16
  {
    if m == 0 then [] else Gathered(pkts, edges, n, m - 1) + Assigned(pkts, edges, m - 1, n)
  }

  lemma {:induction false} GatheredEmpty<T>(pkts: seq<T>, edges: seq<uint16>, m: nat)
    requires m <= U16
    ensures Gathered(pkts, edges, 0, m) == []
  {
    if m > 0 { GatheredEmpty(pkts, edges, m - 1); }
  }

  lemma AssignedStep<T>(pkts: seq<T>, edges: seq<uint16>, e: uint16, n: nat)
    requires n < |pkts| && n < |edges|
    ensures multiset(Assigned(pkts, edges, e, n + 1))
            == multiset(Assigned(pkts, edges, e, n)) + (if edges[n] == e then multiset{pkts[n]} else multiset{})
  {
    var a := Assigned(pkts, edges, e, n);
    if edges[n] != e { assert a + [] == a; }
  }

  /** One more packet appears among the gathered packets once if its edge is gathered, and not otherwise. */
  lemma {:induction false} GatheredStep<T>(pkts: seq<T>, edges: seq<uint16>, n: nat, m: nat)
    requires n < |pkts| && n < |edges| && m <= U16
    ensures multiset(Gathered(pkts, edges, n + 1, m))
            == multiset(Gathered(pkts, edges, n, m)) + (if edges[n] < m then multiset{pkts[n]} else multiset{})
    decreases m
  {
    if m > 0 {
      GatheredStep(pkts, edges, n, m - 1);
      AssignedStep(pkts, edges, m - 1, n);
      JoinCases(Gathered(pkts, edges, n, m - 1), Assigned(pkts, edges, m - 1, n),
                Gathered(pkts, edges, n + 1, m - 1), Assigned(pkts, edges, m - 1, n + 1),
                pkts[n], edges[n], m);
    }
  }

  /** Of two sequences one takes in `x` if its edge `e` is gathered before edge `m - 1`, the other if it is
      that edge; together they take it in if it is below `m`. */
  lemma JoinCases<T>(g: seq<T>, a: seq<T>, g': seq<T>, a': seq<T>, x: T, e: int, m: nat)
    requires m > 0
    requires multiset(g') == multiset(g) + (if e < m - 1 then multiset{x} else multiset{})
    requires multiset(a') == multiset(a) + (if e == m - 1 then multiset{x} else multiset{})
    ensures multiset(g' + a') == multiset(g + a) + (if e < m then multiset{x} else multiset{})
  {
  }

  /** No packet is lost or duplicated: the assignments of all edges together hold the whole burst. */
  lemma {:induction false} NothingLostOrDuplicated<T>(pkts: seq<T>, edges: seq<uint16>, n: nat, m: nat)
    requires n <= |pkts| && n <= |edges| && m <= U16
    requires forall i :: 0 <= i < n ==> edges[i] < m
    ensures multiset(Gathered(pkts, edges, n, m)) == multiset(pkts[..n])
    decreases n
  {
    if n == 0 {
      GatheredEmpty(pkts, edges, m);
    } else {
      NothingLostOrDuplicated(pkts, edges, n - 1, m);
      GatheredStep(pkts, edges, n - 1, m);
      assert pkts[..n] == pkts[..n - 1] + [pkts[n - 1]];
    }
  }
}
