/**
 The lookup trees of the virtual services: two comparators, balanced trees built from sorted arrays,
 and the tree walk of the classifier.
 */
module VirtsvcTree {
  import opened Words

  const HALF: int := 0x8000_0000

  datatype Key4 = Key4(proto: uint8, addr: uint32, port: uint16)
  type Addr6 = s: seq<uint8> | |s| == 16 witness [0, 0, 0, 0, 0, 0, 0, 0, 0, 0, 0, 0, 0, 0, 0, 0]
  datatype Key6 = Key6(proto: uint8, addr: Addr6, port: uint16)

  /** A configured service; addresses and ports are raw network-order words. */
  datatype Service = Service(virt: Key4, backend: Key6)

  /** A 32-bit difference read as a signed number. */
  function Signed32(x: int): int {
    var u := x % U32;
    if u >= HALF then u - U32 else u
  }

  /** `dp_virtsvc_ipv4_cmp` */
  function Cmp4(a: Key4, b: Key4): int {
    if a.proto != b.proto then a.proto - b.proto
    else
      var diff := Signed32(a.addr - b.addr);
      if diff != 0 then diff else a.port - b.port
  }

  /** `memcmp` over the bytes from `i` on, as the difference of the first two bytes that differ. */
  function MemCmp(a: seq<uint8>, b: seq<uint8>, i: nat): int
    requires |a| == |b| && i <= |a|
    decreases |a| - i
  {
    if i == |a| then 0 else if a[i] != b[i] then a[i] - b[i] else MemCmp(a, b, i + 1)
  }

  /** `dp_virtsvc_ipv6_cmp` */
  function Cmp6(a: Key6, b: Key6): int {
    if a.proto != b.proto then a.proto - b.proto
    else
      var diff := MemCmp(a.addr, b.addr, 0);
      if diff != 0 then diff else a.port - b.port
  }

  datatype Tree<S> = Leaf | Node(svc: S, left: Tree<S>, right: Tree<S>)

  /** `dp_virtsvc_array_to_tree`; `end` is inclusive. */
  function Build<S>(arr: seq<S>, start: int, end: int): Tree<S>
    requires 0 <= start && end < |arr|
    decreases end - start + 1
  {
    if start > end then Leaf
    else
      var mid := (start + end) / 2;
      Node(arr[mid], Build(arr, start, mid - 1), Build(arr, mid + 1, end))
  }

  /** The walk; `diff` compares the packet with a service. */
  function Find<S>(t: Tree<S>, diff: S -> int): Option<S> {
    match t
    case Leaf => None
    case Node(svc, left, right) =>
      if diff(svc) == 0 then Some(svc)
      else if diff(svc) < 0 then Find(left, diff)
      else Find(right, diff)
  }

  function Elements<S>(t: Tree<S>): set<S> {
    match t
    case Leaf => {}
    case Node(svc, left, right) => {svc} + Elements(left) + Elements(right)
  }

  /** The loop of `get_outgoing_virtsvc` and `get_incoming_virtsvc`. */
  method Walk<S>(tree: Tree<S>, diff: S -> int) returns (r: Option<S>)
    ensures r == Find(tree, diff)
    ensures r.Some? ==> diff(r.value) == 0
  {
    var entry := tree;
    while entry.Node?
      invariant Find(tree, diff) == Find(entry, diff)
      decreases entry
    {
      var d := diff(entry.svc);
      if d == 0 { return Some(entry.svc); }
      entry := if d < 0 then entry.left else entry.right;
    }
    return None;
  }

  // ----- Shape -----

  function Max(a: nat, b: nat): nat { if a < b then b else a }

  function Height<S>(t: Tree<S>): nat {
    match t
    case Leaf => 0
    case Node(_, left, right) => 1 + Max(Height(left), Height(right))
  }

  function Pow2(n: nat): nat { if n == 0 then 1 else 2 * Pow2(n - 1) }

  /** The tree of `n` services has height at most floor(log2 n) + 1. */
  lemma {:induction false} BuildIsBalanced<S>(arr: seq<S>, start: int, end: int)
    requires 0 <= start <= end < |arr|
    ensures Height(Build(arr, start, end)) >= 1
    ensures Pow2(Height(Build(arr, start, end)) - 1) <= end - start + 1
    decreases end - start
  {
    var mid := (start + end) / 2;
    var l, r := Height(Build(arr, start, mid - 1)), Height(Build(arr, mid + 1, end));
    if start <= mid - 1 { BuildIsBalanced(arr, start, mid - 1); }
    if mid + 1 <= end { BuildIsBalanced(arr, mid + 1, end); }
    Halves(start, end);
    TallerHalf(l, r, mid - start, end - mid);
    HeightOfBuild(arr, start, end);
  }

  lemma HeightOfBuild<S>(arr: seq<S>, start: int, end: int)
    requires 0 <= start <= end < |arr|
    ensures var mid := (start + end) / 2;
            && start <= mid <= end
            && Height(Build(arr, start, end))
               == 1 + Max(Height(Build(arr, start, mid - 1)), Height(Build(arr, mid + 1, end)))
    ensures start == end ==> Height(Build(arr, start, end)) == 1
  {
  }

  lemma Halves(start: int, end: int)
    requires start <= end
    ensures var mid := (start + end) / 2; start <= mid <= end && mid - start <= end - mid <= mid - start + 1
  {
  }

  /** Adding a root over two trees whose sizes differ by at most one. */
  lemma TallerHalf(l: nat, r: nat, m: nat, n: nat)
    requires m <= n && (m == 0 ==> l == 0) && (n == 0 ==> r == 0)
    requires (m > 0 ==> l > 0 && Pow2(l - 1) <= m) && (n > 0 ==> r > 0 && Pow2(r - 1) <= n)
    requires n <= m + 1
    ensures Pow2(Max(l, r)) <= m + n + 1
  {
    if n > 0 {
      assert Pow2(Max(l, r) - 1) <= n;
    }
  }

  lemma {:induction false} BuildElements<S>(arr: seq<S>, start: int, end: int)
    requires 0 <= start && end < |arr|
    ensures forall s :: s in Elements(Build(arr, start, end)) <==> exists i :: start <= i <= end && arr[i] == s
    decreases end - start + 1
  {
    if start <= end {
      var mid := (start + end) / 2;
      BuildElements(arr, start, mid - 1);
      BuildElements(arr, mid + 1, end);
      var l, r := Elements(Build(arr, start, mid - 1)), Elements(Build(arr, mid + 1, end));
      forall s ensures s in {arr[mid]} + l + r <==> exists i :: start <= i <= end && arr[i] == s {
        if i :| start <= i <= end && arr[i] == s {
          assert i < mid ==> s in l;
          assert i > mid ==> s in r;
        }
      }
    }
  }

  // ----- Search -----

  /** A hit is always a service of the tree that compares equal. */
  lemma {:induction false} FindIsSound<S>(t: Tree<S>, diff: S -> int)
    ensures Find(t, diff).Some? ==> Find(t, diff).value in Elements(t) && diff(Find(t, diff).value) == 0
  {
    match t
    case Leaf =>
    case Node(svc, left, right) => FindIsSound(left, diff); FindIsSound(right, diff);
  }

  /** Along the array the packet is first above the services, then equal to at most one, then below. */
  ghost predicate Descends<S>(arr: seq<S>, start: int, end: int, diff: S -> int)
    requires 0 <= start && end < |arr|
  {
    forall i, j :: start <= i < j <= end && diff(arr[i]) <= 0 ==> diff(arr[j]) < 0
  }

  lemma {:induction false} FindIsComplete<S>(arr: seq<S>, start: int, end: int, diff: S -> int, k: int)
    requires 0 <= start <= k <= end < |arr| && Descends(arr, start, end, diff) && diff(arr[k]) == 0
    ensures Find(Build(arr, start, end), diff) == Some(arr[k])
    decreases end - start
  {
    var mid := (start + end) / 2;
    if k < mid { FindIsComplete(arr, start, mid - 1, diff, k); }
    if k > mid { FindIsComplete(arr, mid + 1, end, diff, k); }
  }

  /** The answer of a linear search: `r` is a service comparing equal, or there is none. */
  ghost predicate LinearAnswer<S>(arr: seq<S>, diff: S -> int, r: Option<S>) {
    if r.Some? then r.value in arr && diff(r.value) == 0
    else forall s :: s in arr ==> diff(s) != 0
  }

  lemma FindAgreesWithLinear<S>(arr: seq<S>, diff: S -> int)
    requires (exists k :: 0 <= k < |arr| && diff(arr[k]) == 0) ==> Descends(arr, 0, |arr| - 1, diff)
    ensures LinearAnswer(arr, diff, Find(Build(arr, 0, |arr| - 1), diff))
  {
    FindIsSound(Build(arr, 0, |arr| - 1), diff);
    BuildElements(arr, 0, |arr| - 1);
    if k :| 0 <= k < |arr| && diff(arr[k]) == 0 {
      FindIsComplete(arr, 0, |arr| - 1, diff, k);
    }
  }

  // ----- IPv6: a total order -----

  lemma {:induction false} MemCmpOrder(a: seq<uint8>, b: seq<uint8>, c: seq<uint8>, i: nat)
    requires |a| == |b| == |c| && i <= |a|
    ensures MemCmp(a, b, i) == 0 <==> a[i..] == b[i..]
    ensures MemCmp(a, b, i) <= 0 && MemCmp(b, c, i) <= 0 ==>
              MemCmp(a, c, i) <= 0 && (MemCmp(a, c, i) == 0 ==> MemCmp(a, b, i) == 0 && MemCmp(b, c, i) == 0)
    decreases |a| - i
  {
    if i < |a| {
      MemCmpOrder(a, b, c, i + 1);
      assert a[i..] == [a[i]] + a[i + 1..] && b[i..] == [b[i]] + b[i + 1..];
    }
  }

  lemma Cmp6Order(a: Key6, b: Key6, c: Key6)
    ensures Cmp6(a, b) == 0 <==> a == b
    ensures Cmp6(a, b) <= 0 && Cmp6(b, c) < 0 ==> Cmp6(a, c) < 0
  {
    MemCmpOrder(a.addr, b.addr, c.addr, 0);
    assert a.addr[0..] == a.addr && b.addr[0..] == b.addr;
  }

  /** What sorting leaves: neighbours compare in order. */
  ghost predicate InOrder6(arr: seq<Service>) {
    forall i :: 0 < i < |arr| ==> Cmp6(arr[i - 1].backend, arr[i].backend) < 0
  }

  /** The comparator being an order, that spreads to the whole array. */
  lemma {:induction false} OrderSpreads6(arr: seq<Service>, i: nat, j: nat)
    requires i < j < |arr| && InOrder6(arr)
    ensures Cmp6(arr[i].backend, arr[j].backend) < 0
    decreases j - i
  {
    if i + 1 < j {
      OrderSpreads6(arr, i, j - 1);
      Cmp6Order(arr[i].backend, arr[j - 1].backend, arr[j].backend);
    }
  }

  function Diff6(q: Key6): Service -> int {
    (s: Service) => Cmp6(q, s.backend)
  }

  /** Every lookup in the IPv6 tree gives the answer of a linear search, and a hit equals the query. */
  lemma Tree6AgreesWithLinear(arr: seq<Service>, q: Key6)
    requires InOrder6(arr)
    ensures var r := Find(Build(arr, 0, |arr| - 1), Diff6(q));
            if r.Some? then r.value in arr && r.value.backend == q else forall s :: s in arr ==> s.backend != q
  {
    var diff := Diff6(q);
    forall i, j | 0 <= i < j < |arr| && diff(arr[i]) <= 0 ensures diff(arr[j]) < 0 {
      OrderSpreads6(arr, i, j);
      Cmp6Order(q, arr[i].backend, arr[j].backend);
    }
    FindAgreesWithLinear(arr, diff);
    forall s | s in arr ensures diff(s) == 0 <==> s.backend == q { Cmp6Order(q, s.backend, s.backend); }
  }

  // ----- IPv4: wrapping subtraction -----

  lemma Cmp4Exact(a: Key4, b: Key4)
    ensures Cmp4(a, b) == 0 <==> a == b
  {
  }

  predicate HalfApart(a: Key4, b: Key4) {
    a.proto == b.proto && (a.addr - b.addr) % U32 == HALF
  }

  /** No two services of one protocol have raw addresses exactly 2^31 apart. */
  ghost predicate NoneHalfApart(arr: seq<Service>) {
    forall i, j :: 0 <= i < |arr| && 0 <= j < |arr| ==> !HalfApart(arr[i].virt, arr[j].virt)
  }

  /** Swapping two keys changes the sign of the comparison if and only if they are not exactly 2^31 apart. */
  lemma Cmp4FlipsIff(a: Key4, b: Key4)
    ensures (Cmp4(a, b) < 0 <==> Cmp4(b, a) > 0) <==> !HalfApart(a, b)
  {
  }

  /** The order the comparator is meant to be. */
  predicate Below(a: Key4, b: Key4) {
    a.proto < b.proto || (a.proto == b.proto && (a.addr < b.addr || (a.addr == b.addr && a.port < b.port)))
  }

  lemma CloseCmpIsOrder(a: Key4, b: Key4)
    requires a.proto == b.proto ==> -HALF < a.addr - b.addr < HALF
    ensures Cmp4(a, b) < 0 <==> Below(a, b)
    ensures Cmp4(a, b) > 0 <==> Below(b, a)
  {
  }

  ghost predicate Sorted4(arr: seq<Service>) {
    forall i, j :: 0 <= i < j < |arr| ==> Cmp4(arr[i].virt, arr[j].virt) < 0
  }

  /** What sorting leaves: neighbours compare in order. */
  ghost predicate InOrder4(arr: seq<Service>) {
    forall i :: 0 < i < |arr| ==> Cmp4(arr[i - 1].virt, arr[i].virt) < 0
  }

  /** Three keys the comparator puts in a circle. */
  predicate Cyclic(a: Key4, b: Key4, c: Key4) {
    Cmp4(a, b) < 0 && Cmp4(b, c) < 0 && Cmp4(c, a) < 0
  }

  ghost predicate Acyclic(arr: seq<Service>) {
    forall i, j, k :: 0 <= i < |arr| && 0 <= j < |arr| && 0 <= k < |arr| ==>
      !Cyclic(arr[i].virt, arr[j].virt, arr[k].virt)
  }

  lemma {:induction false} OrderSpreads(arr: seq<Service>, i: nat, j: nat)
    requires i < j < |arr| && InOrder4(arr) && NoneHalfApart(arr) && Acyclic(arr)
    ensures Cmp4(arr[i].virt, arr[j].virt) < 0
    decreases j - i
  {
    if i + 1 < j {
      OrderSpreads(arr, i, j - 1);
      assert Cmp4(arr[j - 1].virt, arr[j].virt) < 0 && !Cyclic(arr[i].virt, arr[j - 1].virt, arr[j].virt);
      NoCircleIsTransitive(arr[i].virt, arr[j - 1].virt, arr[j].virt);
    }
  }

  lemma NoCircleIsTransitive(a: Key4, b: Key4, c: Key4)
    requires Cmp4(a, b) < 0 && Cmp4(b, c) < 0 && !Cyclic(a, b, c)
    requires !HalfApart(a, b) && !HalfApart(a, c)
    ensures Cmp4(a, c) < 0
  {
    Cmp4FlipsIff(a, b);
    Cmp4FlipsIff(a, c);
    Cmp4Exact(c, a);
  }

  /** For an array with its neighbours in order and no two services half apart: all of it is in order if and
      only if the comparator puts no three services in a circle. */
  lemma SortedIffAcyclic(arr: seq<Service>)
    requires InOrder4(arr) && NoneHalfApart(arr)
    ensures Sorted4(arr) <==> Acyclic(arr)
  {
    if Acyclic(arr) {
      forall i, j | 0 <= i < j < |arr| ensures Cmp4(arr[i].virt, arr[j].virt) < 0 { OrderSpreads(arr, i, j); }
    }
    if Sorted4(arr) {
      forall i, j | 0 <= i < |arr| && 0 <= j < |arr| && Cmp4(arr[i].virt, arr[j].virt) < 0 ensures i < j {
        Cmp4FlipsIff(arr[j].virt, arr[i].virt);
        Cmp4Exact(arr[i].virt, arr[j].virt);
      }
    }
  }

  /** Going up from `origin`, wrapping round, all addresses of protocol `p` lie within the first half. */
  ghost predicate WithinHalf(arr: seq<Service>, p: uint8, origin: int) {
    forall i :: 0 <= i < |arr| && arr[i].virt.proto == p ==> (arr[i].virt.addr - origin) % U32 < HALF
  }

  ghost predicate FitsHalf(arr: seq<Service>, p: uint8) {
    exists origin: int :: WithinHalf(arr, p, origin)
  }

  /** The raw addresses of each protocol fit into half of the address circle. */
  ghost predicate HalfCircle(arr: seq<Service>) {
    forall p: uint8 :: FitsHalf(arr, p)
  }

  /** Within half a circle the wrapping difference is the difference of the distances from the origin. */
  lemma WrappedDifference(a: int, b: int, origin: int)
    requires (a - origin) % U32 < HALF && (b - origin) % U32 < HALF
    ensures Signed32(a - b) == (a - origin) % U32 - (b - origin) % U32
    ensures (a - b) % U32 != HALF
  {
    var x, y := (a - origin) % U32, (b - origin) % U32;
    var m := (a - origin) / U32 - (b - origin) / U32;
    assert a - b == m * U32 + (x - y);
    ModShift(m, x - y);
  }

  lemma ModShift(m: int, d: int)
    requires -HALF < d < HALF
    ensures (m * U32 + d) % U32 == if d < 0 then d + U32 else d
  {
  }

  /** Taken the other way round, a difference that is not half a circle stays below it. */
  lemma OtherWayRound(a: int, b: int)
    requires Signed32(a - b) <= 0 && (a - b) % U32 != HALF
    ensures (b - a) % U32 < HALF
  {
  }

  lemma FirstOfProtocol(arr: seq<Service>, p: uint8) returns (m: nat)
    ensures m <= |arr| && (m < |arr| ==> arr[m].virt.proto == p)
    ensures forall i :: 0 <= i < m ==> arr[i].virt.proto != p
  {
    m := 0;
    while m < |arr| && arr[m].virt.proto != p
      invariant m <= |arr| && forall i :: 0 <= i < m ==> arr[i].virt.proto != p
    {
      m := m + 1;
    }
  }

  /** The condition on the configured addresses: for an array with its neighbours in order, the raw addresses of
      each protocol fit into half of the address circle if and only if no two services are half apart and no
      three in a circle. */
  lemma HalfCircleIff(arr: seq<Service>)
    requires InOrder4(arr)
    ensures HalfCircle(arr) <==> NoneHalfApart(arr) && Acyclic(arr)
  {
    if HalfCircle(arr) {
      forall i, j | 0 <= i < |arr| && 0 <= j < |arr| ensures !HalfApart(arr[i].virt, arr[j].virt) {
        assert FitsHalf(arr, arr[i].virt.proto);
        var origin :| WithinHalf(arr, arr[i].virt.proto, origin);
        if arr[j].virt.proto == arr[i].virt.proto { WrappedDifference(arr[i].virt.addr, arr[j].virt.addr, origin); }
      }
      forall i, j, k | 0 <= i < |arr| && 0 <= j < |arr| && 0 <= k < |arr|
        ensures !Cyclic(arr[i].virt, arr[j].virt, arr[k].virt)
      {
        assert FitsHalf(arr, arr[i].virt.proto);
        var origin :| WithinHalf(arr, arr[i].virt.proto, origin);
        NoCircleWithinHalf(arr[i].virt, arr[j].virt, arr[k].virt, origin);
      }
    }
    if NoneHalfApart(arr) && Acyclic(arr) {
      SortedIffAcyclic(arr);
      forall p: uint8 ensures FitsHalf(arr, p) { SortedFitsHalf(arr, p); }
    }
  }

  lemma NoCircleWithinHalf(a: Key4, b: Key4, c: Key4, origin: int)
    requires (a.addr - origin) % U32 < HALF
    requires b.proto == a.proto ==> (b.addr - origin) % U32 < HALF
    requires c.proto == a.proto ==> (c.addr - origin) % U32 < HALF
    ensures !Cyclic(a, b, c)
  {
    if a.proto == b.proto == c.proto {
      WrappedDifference(a.addr, b.addr, origin);
      WrappedDifference(b.addr, c.addr, origin);
      WrappedDifference(c.addr, a.addr, origin);
    }
  }

  /** The first service of a protocol is an origin for the others. */
  lemma SortedFitsHalf(arr: seq<Service>, p: uint8)
    requires Sorted4(arr) && NoneHalfApart(arr)
    ensures FitsHalf(arr, p)
  {
    var m := FirstOfProtocol(arr, p);
    var origin := if m < |arr| then arr[m].virt.addr else 0;
    forall i | 0 <= i < |arr| && arr[i].virt.proto == p ensures (arr[i].virt.addr - origin) % U32 < HALF {
      if m < i {
        assert Cmp4(arr[m].virt, arr[i].virt) < 0 && !HalfApart(arr[m].virt, arr[i].virt);
        OtherWayRound(origin, arr[i].virt.addr);
      }
    }
    assert WithinHalf(arr, p, origin);
  }

  function Diff4(q: Key4): Service -> int {
    (s: Service) => Cmp4(q, s.virt)
  }

  /** The lookup of `q` gives the answer of a linear search, and a hit equals the query. */
  ghost predicate Agrees4(arr: seq<Service>, q: Key4) {
    var r := Find(Build(arr, 0, |arr| - 1), Diff4(q));
    if r.Some? then r.value in arr && r.value.virt == q else forall s :: s in arr ==> s.virt != q
  }

  /** For services with no two half apart and no three in a circle, that is, of each protocol within half of the
      address circle: every lookup in the IPv4 tree, for any address whatever, agrees with a linear search. */
  lemma Tree4AgreesWithLinear(arr: seq<Service>, q: Key4)
    requires InOrder4(arr) && NoneHalfApart(arr) && Acyclic(arr)
    ensures Agrees4(arr, q)
  {
    SortedIffAcyclic(arr);
    var diff := Diff4(q);
    if k :| 0 <= k < |arr| && diff(arr[k]) == 0 {
      Cmp4Exact(q, arr[k].virt);
      forall i | 0 <= i < k ensures diff(arr[i]) > 0 { Cmp4FlipsIff(arr[i].virt, q); }
      forall j | k < j < |arr| ensures diff(arr[j]) < 0 {}
      assert Descends(arr, 0, |arr| - 1, diff);
    }
    FindAgreesWithLinear(arr, diff);
    forall s | s in arr ensures diff(s) == 0 <==> s.virt == q { Cmp4Exact(q, s.virt); }
  }

  /** Every service of the tree is found by its own key. */
  ghost predicate FindsAll(t: Tree<Service>) {
    forall s :: s in Elements(t) ==> Find(t, Diff4(s.virt)) == Some(s)
  }

  /** Below each service, the comparator sends what is in its left subtree left and what is in its right
      subtree right. */
  ghost predicate Ordered(t: Tree<Service>) {
    match t
    case Leaf => true
    case Node(svc, left, right) =>
      && (forall s :: s in Elements(left) ==> Cmp4(s.virt, svc.virt) < 0)
      && (forall s :: s in Elements(right) ==> Cmp4(s.virt, svc.virt) > 0)
      && Ordered(left) && Ordered(right)
  }

  /** No two places of the tree hold the same key. */
  ghost predicate DistinctKeys(t: Tree<Service>) {
    match t
    case Leaf => true
    case Node(svc, left, right) =>
      && (forall s :: s in Elements(left) + Elements(right) ==> s.virt != svc.virt)
      && (forall s, u :: s in Elements(left) && u in Elements(right) ==> s.virt != u.virt)
      && DistinctKeys(left) && DistinctKeys(right)
  }

  /** Whatever the addresses: every service is found if and only if the comparator agrees with the tree. */
  lemma {:induction false} FindsAllIffOrdered(t: Tree<Service>)
    requires DistinctKeys(t)
    ensures FindsAll(t) <==> Ordered(t)
  {
    match t
    case Leaf =>
    case Node(svc, left, right) =>
      FindsAllIffOrdered(left);
      FindsAllIffOrdered(right);
      forall s | s in Elements(t)
        ensures Find(t, Diff4(s.virt)) == Some(s) <==>
                  || s == svc
                  || (s in Elements(left) && Cmp4(s.virt, svc.virt) < 0 && Find(left, Diff4(s.virt)) == Some(s))
                  || (s in Elements(right) && Cmp4(s.virt, svc.virt) > 0 && Find(right, Diff4(s.virt)) == Some(s))
      {
        Cmp4Exact(s.virt, svc.virt);
        FindIsSound(left, Diff4(s.virt));
        FindIsSound(right, Diff4(s.virt));
      }
  }

  ghost predicate Distinct4(arr: seq<Service>, start: int, end: int)
    requires 0 <= start && end < |arr|
  {
    forall i, j :: start <= i < j <= end ==> arr[i].virt != arr[j].virt
  }

  lemma {:induction false} BuildIsDistinct(arr: seq<Service>, start: int, end: int)
    requires 0 <= start && end < |arr| && Distinct4(arr, start, end)
    ensures DistinctKeys(Build(arr, start, end))
    decreases end - start + 1
  {
    if start <= end {
      var mid := (start + end) / 2;
      BuildIsDistinct(arr, start, mid - 1);
      BuildIsDistinct(arr, mid + 1, end);
      HalvesDiffer(arr, start, mid, end);
      assert Build(arr, start, end) == Node(arr[mid], Build(arr, start, mid - 1), Build(arr, mid + 1, end));
    }
  }

  lemma {:induction false} HalvesDiffer(arr: seq<Service>, start: int, mid: int, end: int)
    requires 0 <= start <= mid <= end < |arr| && Distinct4(arr, start, end)
    ensures var left, right := Elements(Build(arr, start, mid - 1)), Elements(Build(arr, mid + 1, end));
            && (forall s :: s in left + right ==> s.virt != arr[mid].virt)
            && (forall s, u :: s in left && u in right ==> s.virt != u.virt)
  {
    BuildElements(arr, start, mid - 1);
    BuildElements(arr, mid + 1, end);
    PlacesDiffer(arr, start, mid, end, Elements(Build(arr, start, mid - 1)), Elements(Build(arr, mid + 1, end)));
  }

  lemma {:induction false} PlacesDiffer(arr: seq<Service>, start: int, mid: int, end: int, left: set<Service>,
      right: set<Service>)
    requires 0 <= start <= mid <= end < |arr| && Distinct4(arr, start, end)
    requires forall s :: s in left ==> exists i :: start <= i <= mid - 1 && arr[i] == s
    requires forall s :: s in right ==> exists i :: mid + 1 <= i <= end && arr[i] == s
    ensures forall s :: s in left + right ==> s.virt != arr[mid].virt
    ensures forall s, u :: s in left && u in right ==> s.virt != u.virt
  {
  }

  /** For any array of services with different keys, in whatever order: all lookups agree with a linear search
      if and only if the comparator agrees with the tree built from it. */
  lemma LookupsAgreeIffOrdered(arr: seq<Service>)
    requires Distinct4(arr, 0, |arr| - 1)
    ensures (forall q :: Agrees4(arr, q)) <==> Ordered(Build(arr, 0, |arr| - 1))
  {
    var t := Build(arr, 0, |arr| - 1);
    BuildIsDistinct(arr, 0, |arr| - 1);
    BuildElements(arr, 0, |arr| - 1);
    FindsAllIffOrdered(t);
    if forall q :: Agrees4(arr, q) {
      forall s | s in Elements(t) ensures Find(t, Diff4(s.virt)) == Some(s) { AgreedIsFound(arr, s); }
    }
    if FindsAll(t) {
      forall q ensures Agrees4(arr, q) { FoundAgrees(arr, q); }
    }
  }

  lemma AgreedIsFound(arr: seq<Service>, s: Service)
    requires Distinct4(arr, 0, |arr| - 1) && s in arr && Agrees4(arr, s.virt)
    ensures Find(Build(arr, 0, |arr| - 1), Diff4(s.virt)) == Some(s)
  {
    var r := Find(Build(arr, 0, |arr| - 1), Diff4(s.virt));
    var i :| 0 <= i < |arr| && arr[i] == s;
    var j :| 0 <= j < |arr| && arr[j] == r.value;
    assert i < j || j < i || i == j;
  }

  lemma FoundAgrees(arr: seq<Service>, q: Key4)
    requires FindsAll(Build(arr, 0, |arr| - 1))
    ensures Agrees4(arr, q)
  {
    var t := Build(arr, 0, |arr| - 1);
    BuildElements(arr, 0, |arr| - 1);
    FindIsSound(t, Diff4(q));
    forall s | s in arr ensures Cmp4(q, s.virt) == 0 <==> s.virt == q { Cmp4Exact(q, s.virt); }
  }

  // ----- Configurations -----

  /** The UDP service 169.254.0.`x`, port 80, as the host reads it on the wire. */
  function LinkLocal(x: uint8, backend: Key6): Service {
    Service(Key4(17, 0x100_0000 * x + 0xFEA9, 0x5000), backend)
  }

  /** Only the last octet decides, as a signed octet. */
  lemma LinkLocalOrder(x: uint8, y: uint8, b: Key6)
    ensures var d := Cmp4(LinkLocal(x, b).virt, LinkLocal(y, b).virt);
            && (d < 0 <==> -128 <= x - y < 0 || x - y >= 128) && (d == 0 <==> x == y)
    ensures HalfApart(LinkLocal(x, b).virt, LinkLocal(y, b).virt) <==> x - y == 128 || y - x == 128
  {
  }

  function LinkLocals(octets: seq<uint8>, b: Key6): seq<Service> {
    seq(|octets|, i requires 0 <= i < |octets| => LinkLocal(octets[i], b))
  }

  lemma LinkLocalsInOrder(octets: seq<uint8>, b: Key6)
    requires forall i :: 0 < i < |octets| ==> -128 <= octets[i - 1] - octets[i] < 0
    ensures InOrder4(LinkLocals(octets, b))
  {
    var arr := LinkLocals(octets, b);
    forall i | 0 < i < |arr| ensures Cmp4(arr[i - 1].virt, arr[i].virt) < 0 {
      LinkLocalOrder(octets[i - 1], octets[i], b);
    }
  }

  lemma LinkLocalsApart(octets: seq<uint8>, b: Key6)
    requires forall i, j :: 0 <= i < |octets| && 0 <= j < |octets| ==> (octets[i] as int) - (octets[j] as int) != 128
    ensures NoneHalfApart(LinkLocals(octets, b))
  {
    var arr := LinkLocals(octets, b);
    forall i, j | 0 <= i < |arr| && 0 <= j < |arr| ensures !HalfApart(arr[i].virt, arr[j].virt) {
      LinkLocalOrder(octets[i], octets[j], b);
    }
  }

  /** Four services with no two half apart whose neighbours are in order: .1, .112 and .192 are in a circle, and
      .192 is never found. */
  lemma CircleIsMissed(b: Key6)
    ensures var arr := LinkLocals([1, 2, 112, 192], b);
            && InOrder4(arr) && NoneHalfApart(arr) && Cyclic(arr[0].virt, arr[2].virt, arr[3].virt)
            && Find(Build(arr, 0, 3), Diff4(arr[3].virt)) == None
  {
    LinkLocalsInOrder([1, 2, 112, 192], b);
    LinkLocalsApart([1, 2, 112, 192], b);
    LinkLocalOrder(1, 112, b);
    LinkLocalOrder(112, 192, b);
    LinkLocalOrder(192, 1, b);
    LinkLocalOrder(192, 2, b);
    MissedOnTheLeft(LinkLocals([1, 2, 112, 192], b));
  }

  lemma MissedOnTheLeft(arr: seq<Service>)
    requires |arr| == 4 && Cmp4(arr[3].virt, arr[1].virt) < 0 && Cmp4(arr[3].virt, arr[0].virt) < 0
    ensures Find(Build(arr, 0, 3), Diff4(arr[3].virt)) == None
  {
    var diff := Diff4(arr[3].virt);
    var left := Node(arr[0], Leaf, Leaf);
    assert Build(arr, 0, 0) == left;
    assert Build(arr, 0, 3) == Node(arr[1], left, Build(arr, 2, 3));
    assert Find(left, diff) == Find(Leaf, diff) == None;
    assert Find(Build(arr, 0, 3), diff) == Find(left, diff);
  }

  /** Two services exactly 2^31 apart and no others: one of them is never found, in whichever order the array
      holds them. */
  lemma HalfApartIsMissed(a: Service, b: Service)
    requires HalfApart(a.virt, b.virt)
    ensures Find(Build([a, b], 0, 1), Diff4(b.virt)) == None
    ensures Find(Build([b, a], 0, 1), Diff4(a.virt)) == None
  {
    assert Signed32(b.virt.addr - a.virt.addr) == -HALF && Signed32(a.virt.addr - b.virt.addr) == -HALF;
    assert Build([a, b], 0, 1) == Node(a, Leaf, Build([a, b], 1, 1));
    assert Build([b, a], 0, 1) == Node(b, Leaf, Build([b, a], 1, 1));
  }

  /** With a third service between them both can be found. */
  lemma HalfApartCanBeFound(b: Key6)
    ensures var arr := [LinkLocal(1, b), LinkLocal(65, b), LinkLocal(129, b)];
            HalfApart(arr[0].virt, arr[2].virt) && FindsAll(Build(arr, 0, 2))
  {
    var arr := [LinkLocal(1, b), LinkLocal(65, b), LinkLocal(129, b)];
    LinkLocalOrder(1, 65, b);
    LinkLocalOrder(129, 65, b);
    LinkLocalOrder(129, 1, b);
    Cmp4Exact(arr[2].virt, arr[1].virt);
    assert Build(arr, 0, 0) == Node(arr[0], Leaf, Leaf) && Build(arr, 2, 2) == Node(arr[2], Leaf, Leaf);
    OrderedOfThree(arr);
  }

  lemma LeafElements(s: Service)
    ensures Elements(Node(s, Leaf, Leaf)) == {s}
  {
    assert Elements<Service>(Leaf) == {};
  }

  lemma OrderedOfThree(arr: seq<Service>)
    requires |arr| == 3 && Cmp4(arr[0].virt, arr[1].virt) < 0 && Cmp4(arr[2].virt, arr[1].virt) > 0
    requires arr[0].virt != arr[2].virt
    ensures FindsAll(Build(arr, 0, 2))
  {
    var l, r := Node(arr[0], Leaf, Leaf), Node(arr[2], Leaf, Leaf);
    assert Build(arr, 0, 0) == l && Build(arr, 2, 2) == r;
    assert Build(arr, 0, 2) == Node(arr[1], l, r);
    LeafElements(arr[0]);
    LeafElements(arr[2]);
    Cmp4Exact(arr[0].virt, arr[1].virt);
    Cmp4Exact(arr[2].virt, arr[1].virt);
    FindsAllIffOrdered(Build(arr, 0, 2));
  }
}
