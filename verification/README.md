# dpservice, modelled in Dafny

dpservice is the data-plane service of a virtual network: it forwards packets between virtual machines and
the underlay, tracks connections, translates addresses, balances load, and answers a gRPC control interface.
This project models the parts that carry state across packets and requests, and proves what every run of them
keeps. `dafny verify dfyconfig.toml` checks all of it.

| file | what it models |
|---|---|
| `Words.dfy` | machine words, `Option`, small facts about sets |
| `FlowKeys.dfy` | building and inverting flow keys |
| `TcpTracking.dfy` | the TCP state machines of flows and of virtual-service connections |
| `NatPorts.dfy` | the network-NAT port allocator and its two tables |
| `FlowModel.dfy` | flow table, lookup cache, age contexts and reference counts as one state |
| `FlowSafety.dfy` | the invariant of that state over every run |
| `FlowNat.dfy` | the flow table refines the port allocator; NAT isolation |
| `FlowAging.dfy` | aging passes with offloading off; how aging comes to use a freed flow |
| `FlowPasses.dfy` | whole aging passes with offloading on or off, flow by flow |
| `FlowLifetimes.dfy` | how long a flow is kept, from the packets that belong to it |
| `FlowTable.dfy` | the same operations as imperative code, proved to compute the model |
| `NatRewrite.dfy` | header translation, and that a reply is translated back |
| `ReplyEntries.dfy` | how long reply entries stay in place; the round trip of replies over runs |
| `VirtsvcTree.dfy` | the lookup trees of virtual services |
| `VirtsvcConnections.dfy` | connection slots and the table of open ports |
| `LoadBalancer.dfy` | backend slots, backend count, round robin |
| `IcmpChecksum.dfy` | full and incremental ICMP checksums |
| `Forwarding.dfy` | speculative forwarding of a packet burst |
| `GrpcReplies.dfy` | chained replies between worker and gRPC thread |
| `VniRefs.dfy` | reference counts of VNI route tables through the request handlers |

How it is modelled:

- Heap objects (flows, age contexts) are entries of maps. A freed object is gone from its map, its address may be
  used again, and an operation that goes on using a freed flow has the outcome `UsesFreed`.
- Hash insertions, allocations and hardware requests that can fail take a flag that says whether they do. The
  clock, the hash of a key, the classifier of a graph node and the answers of the hardware are parameters.
- 16-, 32- and 64-bit arithmetic wraps explicitly.
- Code that changes state in place is a class or a method with loops. Its contract equates the new state with a
  function of the old one, and the lemmas are about that function.

Some properties one would expect do not hold of the code. The lemmas named here show each failure and say exactly
when the property holds:

- The port search adds the round to a 32-bit hash; when the sum wraps inside the range it can skip a free port
  (`SearchCanMiss`, `SearchCompleteIff`).
- A port-map insertion that fails leaves its overload entry behind, and a refused overload entry leaves a flow
  counted (`TablesCanGoWrong`, `ExactStep`, `BalancedStep`).
- Two ICMP flows can share a reply key although their tuples differ (`IcmpRepliesCanCollide`): the replies on a
  port look alike exactly when the overload set holds its tuple for some identifier
  (`EchoRepliesCollideIff`), and among echo requests of one VNI and network function that is one reply key
  (`AlikeIsSameKey`). That distinct tuples have distinct replies is a promise for TCP and UDP
  (`TuplesSeparateReplies`).
- An aging visit to an aged TCP flow reads the flow after its last hardware rule, and with it the flow, is gone.
  A packet with RST, the rule installed for it, and a visit after the timeout reach such a flow
  (`AgedOnRuleIsReachable`, `AgedOnRuleGoesWrong`, `VisitSafeIff`, `PassSafeIff`). Forced removal drops the software reference
  of an aged flow a second time (`SecondAgeOutBreaksCount`, `ForcedRemoveIff`).
- The comment at include/dp_virtsvc.h:64-67 says the tree works with any order of the values. The IPv4 comparator
  subtracts with 32-bit wrap-around, so it can put three services in a circle, and then one of the configured
  services is never found (`CircleIsMissed`); so can a pair exactly 2^31 apart (`HalfApartIsMissed`, but
  `HalfApartCanBeFound`). Lookups agree with a linear search exactly when the comparator agrees with the tree
  (`LookupsAgreeIffOrdered`, `FindsAllIffOrdered`). A condition on the addresses alone that is enough is that those
  of each protocol fit into half of the address circle, which is the same as no pair half apart and no circle
  (`HalfCircleIff`, `SortedIffAcyclic`, `Tree4AgreesWithLinear`). The model follows the code.
- A new virtual-service connection whose hash insertion is refused has already taken the old holder's entry. The
  holder's slot stays in use: replies still reach it, and reclaiming the slot takes away the entry it was
  given meanwhile (`RefusedEvictionIsReachable`, `RefusedHolderStillAnswered`, `ReclaimingTakesNewEntry`,
  `StepKeepsInverseIff`).
- A reply of a virtual service to a port below 1024 indexes past the connection slots (`PortsAndSlots`).
- A backend address whose first word is zero is miscounted (`ZeroFirstWordIsMiscounted`, `AddKeepsCountIff`,
  `DeleteKeepsCountIff`).
- A load balancer with all 16 port entries in use serves every port (`FullListServesOthers`,
  `ServedIffConfigured`).
- An incremental ICMP checksum differs from a full one exactly when the rest of the message is zero
  (`ZeroEchoIsMissummed`, `IncrementalIffSubstantial`), and a full one over an odd length is right exactly when the
  byte after the message is zero (`OddLengthIffZeroNext`).
- The error of a list reply is hidden unless the reply is a single packet (`HandlerErrorIsHidden`,
  `SuccessIsCompleteIff`).
- An ICMP error about a packet translated by a VIP still quotes the VIP, and one about a packet under destination
  NAT loses its own source (`VipErrorQuotesVip`, `ErrorIsTranslatedBackIff`, `ErrorThroughDnatIff`).
- A load balancer whose identifier cannot be mapped stays in the table without a VNI reference and with its value
  freed, which later lookups use (`UnmappedLbStays`, `CreateLbConservesIff`, `CreateLbPointsIff`).
- Freeing a flow also removes an entry that another flow has taken over, and an aging pass then does not reach that
  other flow by it (`EntriesStayIff`).
- Inverting a flow key twice loses the type of an ICMPv6 message other than an echo (`OtherIcmpv6LosesItsType`,
  `InvertTwice`, `BuiltKeysAreInvertibleIff`).
- After a FIN on an established flow a second handshake does not extend the flow's timeout
  (`FinWaitMissesSecondHandshake`, `FinWaitIffOddCloses`, `EstablishedIffHandshake`).

## Model

| member | source | states |
|---|---|---|
| FlowSafety.ReachableStatesAreSafe | src/dp_cntrack.c:236-303 | in every state reachable by packets, NAT, relaying, rule installation, aging and removal, with any insertion or query failing: a cached lookup is a table lookup, a hit is a live flow under the key its direction names, and every reference count is the number of rules plus the software reference |
| FlowSafety.StepKeepsInv | src/dp_flow.c:214-328 | each of the nine operations keeps ownership of table entries, soundness of the cache, exact reference counts and the shape of reply keys |
| FlowSafety.RunAll | src/dp_flow.c:214-440 | the state after any legal run satisfies the invariant |
| FlowSafety.CacheRefinesLookup | src/dp_cntrack.c:236-275 | the one-entry cache is invisible: same flow, same direction, same table and flows as without it |
| FlowSafety.HitHasDefiniteDirection | src/dp_cntrack.c:207-216 | a hit is given the direction of the key it matched, the original key winning, whatever direction the packet held before |
| FlowSafety.RefDecKeepsInv | include/dp_refcount.h:31-35 | dropping a reference makes all counts exact, and frees the flow, with its keys and the cache entry, exactly when it was the only one |
| FlowModel.DestroyKeepsReferenced | src/dp_flow.c:289-328 | destroying a rule keeps every count exact and frees its flow exactly when it had aged and this was its last rule |
| FlowModel.FirstFreeSlot | src/dp_flow.c:508-520 | the slot taken for an age context is the first free one, or all are taken |
| FlowSafety.DestroyKeepsInv | src/dp_flow.c:289-328 | destroying a rule keeps the whole invariant |
| FlowSafety.AgeOutKeepsInv | src/dp_flow.c:402-406 | aging a flow out keeps the invariant and frees it exactly when it has no rule |
| FlowSafety.QueryEffect | src/dp_flow.c:372-400 | a query pass over the slots removes exactly the rules found idle before the first failed query, and frees the flow exactly when it had aged and lost them all |
| FlowSafety.VisitSafeIff | src/dp_flow.c:408-433 | an aging visit uses a freed flow if and only if offloading is on, the flow is an aged TCP flow and the query destroys all its rules; otherwise it keeps the invariant |
| FlowSafety.VisitShape | src/dp_flow.c:408-433 | a safe visit drops rules only, then ages the flow out exactly when it timed out and had not aged |
| FlowAging.AgedOnRuleIsReachable | src/dp_flow.c:408-433 | a packet with RST, the rule installed for it and a visit after the timeout reach a TCP flow that has aged and hangs on one rule |
| FlowAging.AgedOnRuleGoesWrong | src/dp_flow.c:408-440 | in such a state the next visit that finds the rule idle uses a freed flow, and forced removal does not leave a sound state |
| FlowSafety.SecondAgeOutBreaksCount | src/dp_flow.c:402-406 | aging out an aged flow breaks the reference counts |
| FlowSafety.ForcedRemoveIff | src/dp_flow.c:435-440 | forced removal completes with exact counts if and only if the flow has not aged |
| FlowSafety.WithoutRulesNothingIsAged | src/dp_flow.c:402-440 | without hardware rules no live flow has aged, and aging one out frees it |
| FlowSafety.InsertKeepsInv | src/dp_cntrack.c:148-204 | creating a flow adds its key and the inverse key, or, when an insertion fails, leaves table and flows as they were |
| FlowSafety.GetFlowKeepsInv | src/dp_cntrack.c:236-275 | a lookup or creation keeps the invariant and returns a live flow |
| FlowSafety.HandleKeepsInv | src/dp_cntrack.c:277-303 | handling a packet keeps the invariant |
| FlowSafety.ReplaceReplyKeepsInv | src/nodes/snat_node.c:65-73 | replacing the reply key leaves no stale entry, whether or not the new one can be added |
| FlowSafety.SnatKeepsInv | src/nodes/snat_node.c:24-76 | source NAT keeps the invariant on every success and failure path |
| FlowSafety.DnatKeepsInv | src/nodes/dnat_node.c:71-85 | destination NAT keeps the invariant |
| FlowSafety.RelayKeepsInv | src/nodes/dnat_node.c:52-62 | relaying keeps the invariant |
| FlowSafety.RelayedFlowHasNoReply | src/nodes/lb_node.c:71-83 | a relayed flow's reply key is gone from the table while its original key stays |
| FlowSafety.MarkKeepsInv | src/nodes/tx_node.c:88-103 | marking a flow keeps the invariant |
| FlowSafety.InstallKeepsInv | src/rte_flow/dp_rte_flow_traffic_forward.c:138-163 | installing a rule keeps the invariant |
| FlowSafety.InstallTakesOneReference | src/rte_flow/dp_rte_flow_traffic_forward.c:138-163 | installing a rule takes exactly one reference and, for TCP, one free slot; it changes nothing exactly when the hardware refuses or no slot is free |
| FlowSafety.RemoveShape | src/dp_flow.c:435-440 | a forced removal that completes drops rules only and then ages the flow out |
| FlowAging.AgePass | src/dp_flow.c:408-433 | a whole aging pass that completes keeps the invariant |
| FlowAging.VisitWithoutOffload | src/dp_flow.c:408-433 | with offloading off a visit frees the flow it finds if that timed out, with both keys, and changes nothing else |
| FlowAging.PassFreesExpired | src/dp_flow.c:408-433 | with offloading off a whole pass, in any order of the table, never uses a freed flow, frees only expired flows, and frees exactly the visited expired ones if no entry was taken over |
| FlowAging.ReachablePassFreesExpired | src/dp_flow.c:408-433 | the same after every run from the initial state with offloading off |
| FlowAging.RunWithoutOffload | src/dp_flow.c:408-433 | with offloading off no run ever has a rule |
| FlowPasses.FlowsAgeIndependently | src/dp_flow.c:408-433 | with offloading on or off, over a table none of whose entries was taken over, in any order: a pass uses a freed flow exactly when some flow's own visits misuse it, and otherwise leaves every flow with exactly the references, or freed as, its own visits say |
| FlowPasses.PassSafeIff | src/dp_flow.c:408-433 | over such a table a pass uses a freed flow if and only if some flow's own visits do |
| FlowPasses.FlowsAgeByCalls | src/dp_flow.c:408-433 | over any table whatever: a pass uses a freed flow if and only if the visits that still reach some flow misuse it, and otherwise leaves every flow as the visits that reach it say |
| FlowPasses.OtherFateStays | src/dp_flow.c:408-433 | whatever entries are shared, a visit leaves the references of every other flow alone |
| FlowPasses.EntriesStayIff | src/dp_flow.c:263-273 | aging a flow out leaves the entries of another flow alone if and only if it stays live or neither of its keys has been taken over by that other flow |
| FlowPasses.OwnVisit | src/dp_flow.c:408-433 | a visit does to the flow it finds what the per-flow description says |
| FlowPasses.OtherVisit | src/dp_flow.c:408-433 | over a table none of whose entries was taken over, a visit leaves every other flow, its rules and its entries alone |
| FlowPasses.FateNeedsTimeout | src/dp_flow.c:408-433 | only a flow that had aged or timed out is misused, with offloading on, and only one that timed out and had not aged is freed |
| FlowLifetimes.RunTimes | src/dp_cntrack.c:277-303 | over every run a flow lives through, its state, timeout and timestamp are those its own packets give it |
| FlowLifetimes.FlowFollowsTrace | src/dp_cntrack.c:277-303 | state and timeout are those of the trace of its TCP packets, the timestamp that of its last packet of any kind |
| FlowLifetimes.TcpFlowLifetime | src/dp_cntrack.c:127-138 | from its creation on, over every run it lives through, a flow times out exactly when its limit has passed since its last packet of any kind; the limit is a day exactly when its TCP packets completed a handshake and did not close it since and the good closes in a row before that are even in number, and the configured one otherwise |
| FlowNat.NatIsolation | src/dp_nat.c:611-787 | after every run of the flow table no two live NATed flows share a tuple and their TCP and UDP reply keys differ; without leaks the overload set is exactly the live tuples; without miscounts no mapping outlives its flows, and without replacements counts are exact |
| FlowNat.StepProjects | src/dp_flow.c:263-287 | every step of the flow table is, on the port tables, the allocator event it stands for |
| FlowNat.RunProjects | src/dp_flow.c:263-287 | every run of the flow table projects to a run of the allocator |
| FlowNat.SnatProjects | src/nodes/snat_node.c:24-76 | source NAT of an eligible flow is one allocation for that flow |
| FlowNat.RefDecProjects | src/dp_flow.c:263-287 | freeing a NATed flow gives back exactly the tuple and source it was allocated with, recovered from its keys |
| FlowNat.TuplesSeparateReplies | src/nodes/snat_node.c:65-73 | distinct tuples give distinct TCP and UDP reply keys |
| FlowNat.IcmpRepliesCanCollide | src/dp_nat.c:642-647 | two ICMP flows with distinct tuples and one reply key |
| FlowNat.EchoRepliesCollideIff | src/dp_nat.c:642-647 | with an exact overload set, the reply to an ICMP flow on a given port agrees with that of another live flow in addresses, protocol and identifier if and only if the set holds the tuple of that port for some identifier |
| FlowNat.AlikeIsSameKey | src/dp_nat.c:642-647 | where all live translated ICMP flows are echo requests of one VNI and network function, such replies have the same key |
| NatPorts.FirstFree | src/dp_nat.c:675-686 | the port found is in range and free; if none is found every probed port is taken |
| NatPorts.Allocator.AllocatePort | src/dp_nat.c:611-725 | the allocating code computes the allocation function, with its loop and error returns |
| NatPorts.Allocator.RemovePort | src/dp_nat.c:727-787 | the releasing code computes the release function |
| NatPorts.ProbeCompleteIff | src/dp_nat.c:669-686 | the probe visits every port of the range if and only if the 32-bit sum does not wrap harmfully, and then each once |
| NatPorts.SearchCompleteIff | src/dp_nat.c:669-702 | for all tables the search fails only when the range is full, if and only if the probe is a full cycle |
| NatPorts.SearchFailsIffFull | src/dp_nat.c:669-702 | on a full cycle the search fails if and only if the range is full for that destination |
| NatPorts.SearchCanMiss | src/dp_nat.c:669-702 | otherwise there are tables with a free port that is not found |
| NatPorts.IsolatedStep | src/dp_nat.c:611-787 | each event keeps live tuples distinct and recorded |
| NatPorts.ExactStep | src/dp_nat.c:704-722 | the overload set stays exactly the live tuples if and only if no port-map insertion fails after its overload entry was added |
| NatPorts.CountedStep | src/dp_nat.c:649-667 | without miscounts a mapping counts between one and all of its source's flows |
| NatPorts.BalancedStep | src/dp_nat.c:649-722 | counts stay exact if and only if the event neither miscounts nor replaces a mapping |
| NatPorts.TablesCanGoWrong | src/dp_nat.c:649-722 | both failures from the empty tables on |
| NatPorts.RunIsolated | src/dp_nat.c:611-787 | isolation of tuples over every run |
| NatPorts.RunExact | src/dp_nat.c:611-787 | over every run without leaks the overload set is the set of live tuples |
| NatPorts.RunCounted | src/dp_nat.c:611-787 | over every run without miscounts no mapping survives the last flow of its source |
| NatPorts.RunBalanced | src/dp_nat.c:611-787 | over every run without miscounts and replacements every count is exact |
| NatRewrite.RoundTrip | src/nodes/dnat_node.c:112-137 | in any sound state the answer to a translated TCP or UDP packet finds its flow through cache and table and comes out as the answer to the original packet |
| NatRewrite.ReplyIsTranslatedBack | src/nodes/snat_node.c:187-217 | translating the answer to a translated packet gives the answer to the original, for source and destination NAT |
| NatRewrite.ErrorIsTranslatedBackIff | src/nodes/dnat_node.c:112-135 | an ICMP error about a packet under source NAT finds the flow, and reaches the sender as an error about the packet it sent if and only if network NAT translated it or the VIP is the sender's own address |
| NatRewrite.VipErrorQuotesVip | src/nodes/dnat_node.c:112-135 | behind a VIP the error quotes the VIP |
| NatRewrite.ErrorThroughDnatIff | src/nodes/snat_node.c:207-217 | under destination NAT the error comes out right if and only if the destination itself sent it and is not translated to another address |
| ReplyEntries.RoundTripOverRuns | src/nodes/dnat_node.c:112-137 | over every run in which a translated flow lives and no other flow comes to have its reply key as a reply key, if none had it as original key at the start, the answer to a packet translated at the start finds the flow at the end and comes out as the answer to the original |
| ReplyEntries.NatRoundTripOverRuns | src/nodes/dnat_node.c:112-137 | for network NAT, from any state reached from the initial one: the same over every run in which the flow lives and no flow that is not itself translated by network NAT comes to have its reply key as a reply key |
| ReplyEntries.LeftAloneIsUndisturbed | src/dp_nat.c:611-787 | isolation of tuples keeps the other translated flows off that key in every state of the run |
| ReplyEntries.SoleOrgStays | src/dp_cntrack.c:148-204 | while the reply entry is in place no other flow comes to have its key as original key |
| ReplyEntries.StepKeepsTranslation | src/dp_flow.c:214-440 | a translated flow keeps its keys and marks while it lives |
| ReplyEntries.RunKeepsPlaced | src/dp_flow.c:214-440 | over every such run the flow keeps its keys, its marks and its reply entry |
| ReplyEntries.StepKeepsPlaced | src/dp_flow.c:214-440 | so does each of the nine operations |
| NatRewrite.EchoIsTranslatedBack | src/nodes/dnat_node.c:117-119 | an echo reply comes back with the sender's own identifier |
| NatRewrite.SnatPlacesReply | src/nodes/snat_node.c:24-76 | source NAT leaves the flow unmarked or its reply entry in place |
| NatRewrite.DnatPlacesReply | src/nodes/dnat_node.c:71-85 | destination NAT leaves the flow unmarked or its reply entry in place |
| NatRewrite.ReplyFindsFlow | src/dp_cntrack.c:236-275 | a flow whose reply entry is in place is found by it, unchanged as far as translation goes |
| FlowKeys.InvertTwice | src/dp_flow.c:181-212 | inverting twice is the identity exactly on the invertible keys, and every inverse is one |
| FlowKeys.BuiltKeysAreInvertibleIff | src/dp_flow.c:129-179 | a key built from a packet is invertible exactly unless it is of an ICMPv6 message that is neither an echo nor of type 0 |
| FlowKeys.OtherIcmpv6LosesItsType | src/dp_flow.c:200-207 | a neighbour solicitation's key does not survive two inversions |
| FlowKeys.RepliesAndErrorsShareTheInverseKey | src/dp_flow.c:58-103 | a reply has the inverse key, and a supported ICMP error about the packet has that same key exactly when both quoted ports are non-zero |
| FlowKeys.EchoReplyHasInverseKey | src/dp_flow.c:58-67 | an echo reply has the inverse key of its request, and conversely |
| TcpTracking.EstablishedIffHandshake | src/dp_cntrack.c:44-78 | for every trace a flow is established, and kept for a day, exactly when a full handshake has been seen since the last FIN or RST and the good closes in a row before it are even in number |
| TcpTracking.FinWaitIffOddCloses | src/dp_cntrack.c:44-78 | for every trace a flow waits for a second FIN exactly when the last closes that are FINs after a full handshake, in a row, are odd in number |
| TcpTracking.FinWaitMissesSecondHandshake | src/dp_cntrack.c:44-78 | a trace on which the second handshake establishes the connection but not the flow |
| TcpTracking.FinWaitResynchronises | src/dp_cntrack.c:44-78 | only a FIN or RST ends that wait, and brings both machines back together |
| TcpTracking.MachinesCorrespond | src/nodes/virtsvc_node.c:37-61 | outside that wait the flow and connection machines agree on every trace |
| TcpTracking.ConnStateIsHandshakeProgress | src/nodes/virtsvc_node.c:37-61 | a connection's state is exactly how much of SYN, SYN+ACK, ACK followed the last FIN or RST |
| FlowTable.Conntrack.GetFlowVal | src/dp_cntrack.c:236-275 | the code with its cache computes the model's lookup |
| FlowTable.Conntrack.HandlePacket | src/dp_cntrack.c:277-303 | the code computes the model's packet step and keeps the invariant |
| FlowTable.Conntrack.TouchFlow | src/dp_cntrack.c:127-138 | the code computes what a packet changes in its flow |
| FlowTable.Conntrack.InsertEntry | src/dp_cntrack.c:148-204 | the code computes the model's creation, with its unwinding |
| FlowTable.Conntrack.CacheFlowVal | src/dp_cntrack.c:37-42 | the cache holds the key just looked up and its flow |
| FlowTable.Conntrack.FlushCache | src/dp_cntrack.c:31-35 | the cache is empty |
| FlowTable.Conntrack.DeleteFlow | src/dp_flow.c:231-237 | the entry is gone and so is the cache |
| FlowTable.Conntrack.AddFlow | src/dp_flow.c:239-248 | the entry is added if the table accepts it |
| FlowTable.Conntrack.ProcessSnat | src/nodes/snat_node.c:24-76 | the code computes the model's source NAT |
| FlowTable.Conntrack.ProcessDnat | src/nodes/dnat_node.c:71-85 | the code computes the model's destination NAT |
| FlowTable.Conntrack.RelayFlow | src/nodes/dnat_node.c:52-62 | the code computes the model's relaying |
| FlowTable.Conntrack.FreeFlow | src/dp_flow.c:263-287 | the code gives the port back, removes both keys and the cache entry, and frees the value |
| FlowTable.Conntrack.RefDec | include/dp_refcount.h:31-35 | the code drops a reference and frees at zero |
| FlowTable.Conntrack.FindSlot | src/dp_flow.c:508-520 | the loop finds the first free slot |
| FlowTable.Conntrack.Install | src/rte_flow/dp_rte_flow_traffic_forward.c:138-163 | the code computes the model's rule installation |
| FlowTable.Conntrack.TakeReference | src/rte_flow/dp_rte_flow_traffic_forward.c:138-163 | the rule's context takes its slot and one reference |
| FlowTable.Conntrack.DestroyAgeCtx | src/dp_flow.c:289-328 | the code clears the slot and drops the rule's reference |
| FlowTable.Conntrack.AgeOutFlow | src/dp_flow.c:402-406 | the code marks the flow aged and drops its software reference |
| FlowTable.Conntrack.QuerySlots | src/dp_flow.c:372-400 | the loop over the slots computes the model's query pass |
| FlowTable.Conntrack.VisitFlow | src/dp_flow.c:408-433 | the code computes the model's visit |
| FlowTable.Conntrack.ProcessAgedFlows | src/dp_flow.c:408-433 | the loop over the table computes the model's aging pass |
| VirtsvcTree.Walk | src/nodes/cls_node.c:84-92 | the loop finds what the recursive search finds, and a hit compares equal |
| VirtsvcTree.BuildIsBalanced | src/dp_virtsvc.c:67-90 | a tree of n services is at most floor(log2 n) + 1 high |
| VirtsvcTree.BuildElements | src/dp_virtsvc.c:67-90 | the tree holds exactly the services of the array section |
| VirtsvcTree.FindIsSound | src/nodes/cls_node.c:84-92 | a hit is a service of the tree that compares equal |
| VirtsvcTree.FindIsComplete | src/nodes/cls_node.c:84-92 | a service that compares equal is found when the comparison descends along the array |
| VirtsvcTree.FindAgreesWithLinear | src/nodes/cls_node.c:84-92 | tree search and linear search give the same answer under that condition |
| VirtsvcTree.Cmp6Order | include/dp_virtsvc.h:80-96 | the IPv6 comparator is zero exactly on equal keys and transitive |
| VirtsvcTree.Tree6AgreesWithLinear | src/nodes/cls_node.c:110-118 | every IPv6 lookup agrees with a linear search |
| VirtsvcTree.Cmp4Exact | include/dp_virtsvc.h:59-78 | the IPv4 comparator is zero exactly on equal keys, in spite of its 32-bit subtraction |
| VirtsvcTree.Cmp4FlipsIff | include/dp_virtsvc.h:59-78 | swapping two keys changes the sign of the comparison if and only if they are not exactly 2^31 apart |
| VirtsvcTree.CloseCmpIsOrder | include/dp_virtsvc.h:59-78 | less than 2^31 apart it is the order of the values |
| VirtsvcTree.Tree4AgreesWithLinear | src/nodes/cls_node.c:84-92 | if sorting leaves neighbours in order, no two services are half apart and no three in a circle, every IPv4 lookup agrees with a linear search |
| VirtsvcTree.SortedIffAcyclic | src/dp_virtsvc.c:92-127 | with neighbours in order and no two services half apart, the whole array is in order if and only if no three services are in a circle |
| VirtsvcTree.HalfCircleIff | include/dp_virtsvc.h:59-78 | with neighbours in order, no two services are half apart and no three in a circle if and only if the raw addresses of each protocol fit into half of the address circle |
| VirtsvcTree.LookupsAgreeIffOrdered | src/nodes/cls_node.c:84-92 | for any array of services with different keys, all lookups agree with a linear search if and only if the comparator agrees with the tree |
| VirtsvcTree.CircleIsMissed | src/dp_virtsvc.c:67-127 | four link-local services, neighbours in order and none half apart, of which one is never found |
| VirtsvcTree.FindsAllIffOrdered | src/nodes/cls_node.c:84-92 | whatever the addresses, every service is found if and only if the comparator agrees with the tree |
| VirtsvcTree.HalfApartIsMissed | include/dp_virtsvc.h:59-78 | of just two services exactly 2^31 apart one is never found |
| VirtsvcTree.HalfApartCanBeFound | include/dp_virtsvc.h:59-78 | with a third service between them both are found |
| VirtsvcConnections.RepliesReachTheirRequester | src/nodes/virtsvc_node.c:167-248 | after every run, whatever insertions were refused, no two connections share a port and each one sends from its port and receives the replies to it; if no eviction was refused its insertion, table and used slots are inverse and nobody else receives them |
| VirtsvcConnections.RunOps | src/dp_virtsvc.c:274-384 | every run keeps every table entry backed by a slot in use that names it |
| VirtsvcConnections.RunKeepsInverse | src/dp_virtsvc.c:274-384 | every run without a refused eviction keeps table and slots inverse |
| VirtsvcConnections.StepKeepsInverseIff | src/dp_virtsvc.c:274-384 | every step keeps the entries backed, and keeps table and slots inverse if and only if it is not a refused eviction |
| VirtsvcConnections.RefusedEvictionIsReachable | src/dp_virtsvc.c:290-302 | once every slot has been used and timed out, a refused insertion leaves a holder that is answered but has no entry |
| VirtsvcConnections.RefusedHolderStillAnswered | src/dp_virtsvc.c:290-302 | after any refused eviction the old holder has no entry and is still answered |
| VirtsvcConnections.ReclaimingTakesNewEntry | src/dp_virtsvc.c:290-298 | reclaiming such a slot takes the entry its former holder was given meanwhile |
| VirtsvcConnections.ScanIsFirstInTurn | src/dp_virtsvc.c:252-272 | the two-part scan returns the old slot next in turn after the last assigned one, and fails exactly when no slot is old |
| VirtsvcConnections.FirstOld | src/dp_virtsvc.c:243-272 | the first old slot of a section |
| VirtsvcConnections.CreateSucceedsIffOldSlot | src/dp_virtsvc.c:274-310 | a new connection is refused exactly when no slot is old or the insertion fails; the table is never full |
| VirtsvcConnections.RequestKeepsInverseIff | src/nodes/virtsvc_node.c:112-158 | a request keeps the entries backed and leaves from its own entry's port, and keeps table and slots inverse if and only if it is not a refused eviction |
| VirtsvcConnections.ReplyKeepsInverse | src/nodes/virtsvc_node.c:167-248 | a reply does too |
| VirtsvcConnections.DelIfaceKeepsInverse | src/dp_virtsvc.c:359-384 | removing an interface closes exactly its connections |
| VirtsvcConnections.ReplyIffHolder | src/nodes/virtsvc_node.c:160-248 | a holder sends from its port and is delivered the replies to it; when table and slots are inverse, a reply to a port from 1024 up is delivered to its holder only |
| VirtsvcConnections.PortsAndSlots | src/nodes/virtsvc_node.c:63-67 | exactly the ports from 1024 up have a slot, and port and slot determine each other |
| VirtsvcConnections.PortIsStable | src/dp_virtsvc.c:312-325 | a connection keeps its outside port while it stays in the table |
| VirtsvcConnections.OnlyOldConnectionsAreEvicted | src/dp_virtsvc.c:274-310 | a connection leaves only with its interface or when its slot is old and given away |
| VirtsvcConnections.VirtSvc.constructor | src/dp_virtsvc.c:145-198 | a new service has no open connection |
| VirtsvcConnections.VirtSvc.GetFreePort | src/dp_virtsvc.c:252-272 | the two loops compute the model's scan |
| VirtsvcConnections.VirtSvc.CreateConnection | src/dp_virtsvc.c:274-310 | the code computes the model's creation |
| VirtsvcConnections.VirtSvc.HandleRequest | src/nodes/virtsvc_node.c:112-158 | the code computes the model's request |
| VirtsvcConnections.VirtSvc.HandleReply | src/nodes/virtsvc_node.c:167-248 | the code computes the model's reply |
| VirtsvcConnections.VirtSvc.DeleteIface | src/dp_virtsvc.c:359-384 | the loop over all slots computes the model's removal |
| LoadBalancer.Fairness | src/dp_lb.c:205-232 | as many selections in a row as there are backends select every backend exactly once, wherever the position stands |
| LoadBalancer.PicksArePending | src/dp_lb.c:205-232 | successive selections take the backends still pending in this turn, nearest first |
| LoadBalancer.SelectionFailsIffEmpty | src/dp_lb.c:205-232 | for a served port selection fails exactly when there is no backend |
| LoadBalancer.ServedIffConfigured | src/dp_lb.c:209-214 | a port is served if and only if it is configured or the list is full, so that only configured ports are served holds of a list if and only if it has a free entry |
| LoadBalancer.FullListServesOthers | src/dp_lb.c:209-214 | with all entries used for TCP ports every UDP port is served |
| LoadBalancer.AddKeepsCountIff | src/dp_lb.c:289-312 | adding keeps the count exact if and only if the first word is not zero, the address is there already, or no slot is free |
| LoadBalancer.DeleteKeepsCountIff | src/dp_lb.c:185-195 | deleting keeps it if and only if the first word is not zero or the address is not there |
| LoadBalancer.ZeroFirstWordIsMiscounted | src/dp_lb.c:171-203 | both failures on an empty load balancer |
| LoadBalancer.RunKeepsCount | src/dp_lb.c:185-312 | over every run with non-zero first words the count is the number of backends |
| LoadBalancer.RrBackend | src/dp_lb.c:205-232 | a selected slot holds a backend |
| LoadBalancer.LbValue.AddBackIp | src/dp_lb.c:289-312 | the code computes the model's addition |
| LoadBalancer.LbValue.DeleteBackIp | src/dp_lb.c:185-195 | the loop computes the model's deletion |
| LoadBalancer.LbValue.IsInserted | src/dp_lb.c:197-203 | the loop says whether the address is among the backends |
| LoadBalancer.LbValue.LastFreePos | src/dp_lb.c:171-183 | the loop finds the first free slot |
| LoadBalancer.LbValue.FindBackend | src/dp_lb.c:205-232 | the three loops compute the model's round robin |
| LoadBalancer.LbValue.GetBackendIp | src/dp_lb.c:234-259 | the code selects and moves the position |
| IcmpChecksum.IncrementalIffSubstantial | src/rte_flow/dp_rte_flow.c:82-101 | the incremental update of a correct checksum is correct if and only if the rest of the new message is not all zero |
| IcmpChecksum.ZeroEchoIsMissummed | src/nodes/packet_relay_node.c:26-37 | an echo request whose answer gets checksum 0 instead of 0xffff |
| IcmpChecksum.OddLengthIffZeroNext | src/dp_nat.c:300-317 | the checksum of a message of odd length is right if and only if the byte after it is zero |
| IcmpChecksum.TwoFoldsSuffice | src/rte_flow/dp_rte_flow.c:82-101 | two folds absorb every carry of three words |
| IcmpChecksum.FoldAll | src/dp_nat.c:313-314 | folding keeps the residue modulo 0xffff, ends within 16 bits, and is zero only for zero |
| IcmpChecksum.SumWords | src/dp_nat.c:308-311 | the loop sums all words without overflow |
| IcmpChecksum.FoldCarries | src/dp_nat.c:313-314 | the carry loop folds completely |
| IcmpChecksum.CalculateChecksum | src/dp_nat.c:300-317 | the message then has a correct checksum and is otherwise unchanged |
| IcmpChecksum.Updated | src/rte_flow/dp_rte_flow.c:94-100 | the straight-line update computes the incremental checksum |
| IcmpChecksum.ChangeIdentifier | src/rte_flow/dp_rte_flow.c:82-101 | only identifier and checksum change, and when the result is correct |
| IcmpChecksum.AnswerEcho | src/nodes/packet_relay_node.c:26-37 | only echo requests are turned into replies, and when the result is correct |
| Forwarding.ForeachPacket | include/nodes/common_node.h:20-80 | whatever edge is speculated on, every edge receives what the plain loop would give it, in order |
| Forwarding.Speculate | include/nodes/common_node.h:41-60 | the speculating loop copies exactly the packets of the speculated edge, in order, short of the last run |
| Forwarding.EnqueueEach | include/nodes/common_node.h:71-78 | the plain loop gives each packet to its edge |
| Forwarding.CopyRun | include/nodes/common_node.h:48-52 | a run is appended to the packets copied before |
| Forwarding.HandingOverCompletes | include/nodes/common_node.h:62-69 | handing over the held packets completes every stream |
| Forwarding.EnqueuedStreams | include/nodes/common_node.h:71-78 | each edge's stream grows by exactly the packets assigned to it, in order |
| Forwarding.AssignedCount | include/nodes/common_node.h:41-69 | an edge gets as many packets as are assigned to it |
| Forwarding.NothingLostOrDuplicated | include/nodes/common_node.h:20-80 | all edges together receive the burst, each packet once |
| GrpcReplies.CallsNeverMix | src/grpc/dp_async_grpc.cpp:28-74 | over every interleaving of calls, worker steps and polls the ring holds one answer or none, and every finished call got its own |
| GrpcReplies.EveryCallIsOwed | src/grpc/dp_async_grpc.cpp:28-74 | from the start every call that ever finishes has been given what it is owed |
| GrpcReplies.ActKeepsStep | src/grpc/dp_grpc_service.cpp:125-130 | each action of either thread keeps that |
| GrpcReplies.AnswerIsOwed | src/grpc/dp_async_grpc.cpp:100-162 | polling with the answer on the ring finishes the call and empties the ring |
| GrpcReplies.AnswerIsChain | src/grpc/dp_grpc_responder.c:7-81 | an answer is a closed chain of at most 48 packets holding the messages that fit, with the handler's error, or another exactly when one did not fit |
| GrpcReplies.AddAllKeepsPrefix | include/grpc/dp_grpc_responder.h:45-51 | the chain holds the messages added, in order, up to the room there was |
| GrpcReplies.ReadTakesExactlyTheChain | src/grpc/dp_async_grpc.cpp:133-162 | reading takes exactly one chain off the ring and says which messages and status come out |
| GrpcReplies.SuccessIsCompleteIff | src/grpc/dp_async_grpc.cpp:133-162 | a list call that ends with success was given the whole list of a handler that reported no error, if and only if that is so anyway or the answer is a single packet |
| GrpcReplies.SinglePacketIff | src/grpc/dp_grpc_responder.c:32-62 | an answer is a single packet if and only if its messages fit into one or no other can be allocated |
| GrpcReplies.HandlerErrorIsHidden | src/grpc/dp_async_grpc.cpp:133-162 | a list handler's error after two messages: the call succeeds with the second one |
| GrpcReplies.FinishedIsClosed | src/grpc/dp_grpc_responder.c:64-81 | a finished reply is a closed chain with the same messages |
| GrpcReplies.Ring.EnqueueBurst | src/grpc/dp_grpc_responder.c:64-81 | a burst is queued as far as there is room |
| GrpcReplies.Ring.Dequeue | src/grpc/dp_async_grpc.cpp:133-147 | packets leave in order |
| GrpcReplies.ReplyBuilder.constructor | src/grpc/dp_grpc_responder.c:7-30 | a responder starts with one empty packet |
| GrpcReplies.ReplyBuilder.Multireply | include/grpc/dp_grpc_responder.h:37-41 | a packet takes as many messages as its size holds and not one more; the capacity is a 16-bit number, positive exactly when one message fits |
| GrpcReplies.ReplyBuilder.Alloc | src/grpc/dp_grpc_responder.c:32-62 | the last packet is closed as chained and full and a new one started, or nothing changes |
| GrpcReplies.ReplyBuilder.Push | include/grpc/dp_grpc_responder.h:45-51 | a message is added to the last packet or to a new one |
| GrpcReplies.ReplyBuilder.SendResponse | src/grpc/dp_grpc_responder.c:64-81 | count and error are written and the chain queued |
| GrpcReplies.HandleMultiReply | src/grpc/dp_async_grpc.cpp:133-162 | the loop computes the model's reading of a chain |
| VniRefs.VniConservation | src/dp_vni.c:149-194 | over every run of the four handlers, with every failure and rollback but one, a VNI's count is the number of its interfaces and load balancers, and its tables exist exactly while that is positive |
| VniRefs.CreateInterfaceKeepsInv | src/grpc/dp_grpc_impl.c:441-525 | creating an interface keeps the counts, and a failure at any step leaves counts, identifiers and users as they were |
| VniRefs.DeleteInterfaceKeepsInv | src/grpc/dp_grpc_impl.c:527-559 | deleting an interface keeps the counts, also when its port does not stop |
| VniRefs.CreateLbConservesIff | src/grpc/dp_grpc_impl.c:86-118 | creating a load balancer keeps the counts if and only if it is not a new address whose identifier cannot be mapped |
| VniRefs.CreateLbPointsIff | src/dp_lb.c:65-97 | it leaves no entry with a freed value under the same condition, and only then |
| VniRefs.UnmappedLbStays | src/dp_lb.c:65-97 | that failure on the first load balancer: the entry stays with a freed value, cannot be deleted and cannot be created again |
| VniRefs.DeleteLbKeepsInv | src/grpc/dp_grpc_impl.c:120-140 | deleting a load balancer keeps the counts |
| VniRefs.CreateThenDelete | src/dp_vni.c:149-194 | giving back a reference just taken restores the tables |
| VniRefs.StartIsConserved | src/dp_vni.c:11-19 | the counts hold at start |
| VniRefs.Handlers.CreateRouteTables | src/dp_vni.c:149-169 | the code takes a reference or creates tables |
| VniRefs.Handlers.DeleteRouteTables | src/dp_vni.c:171-194 | the code gives a reference back and drops unused tables |
| VniRefs.Handlers.WipeIface | src/dp_iface.c:82-97 | the interface is wiped and its reference given back |
| VniRefs.Handlers.ProcessCreateInterface | src/grpc/dp_grpc_impl.c:441-525 | the handler computes the model's creation |
| VniRefs.Handlers.ProcessDeleteInterface | src/grpc/dp_grpc_impl.c:527-559 | the handler computes the model's deletion |
| VniRefs.Handlers.RemoveLb | src/dp_lb.c:123-148 | the entry and its identifier are removed |
| VniRefs.Handlers.ProcessCreateLb | src/grpc/dp_grpc_impl.c:86-118 | the handler computes the model's creation |
| VniRefs.Handlers.ProcessDeleteLb | src/grpc/dp_grpc_impl.c:120-140 | the handler computes the model's deletion |

## Left out

- NAT64 (src/nodes/snat_node.c:78-139, the header conversions of src/dp_nat.c): a separate set of flags and rewrites.
- Flows started by an ICMP error message, in port allocation: the allocator would key them by the quoted header.
- `dp_mark_vnf_type`: the VNF type and VNI of a key are inputs of key building.
- Hash tables, rings, mbufs and rte_flow of DPDK are maps, sequences and success flags; hash lookup errors other than "not found" are not modelled.
- Concurrency inside the worker: one worker walks the graph (src/dpdk_layer.c:93-103), so operations on the flow table are atomic steps.
- The loops that choose flows for forced removal (src/dp_flow.c:442-499); the removal of each chosen flow is modelled.
- Offload states have no theorem of their own beyond being the same with and without the cache.
- The 32-bit range of reference counts.
- The replacement of the aging timeouts in test builds.
- NAT port usage statistics and the lookup of the port they belong to.
- `qsort`: it is taken to leave neighbours in order, which is all a sorting routine can promise for a comparator that is not an order; a failed allocation while a tree is built is not modelled.
- Looking up a load balancer by identifier or address around the operations on its value.
- VNF routes, underlay addresses, route and meter contents in the interface and load-balancer handlers; their failures are modelled.
- Filling requests from and parsing replies into gRPC messages; requests refused before they reach the worker.
- Firewall, DHCP, ARP, neighbour discovery, routing lookups, encapsulation, capture, telemetry, logging, configuration: they keep little state across packets and none that the modelled parts depend on.
- VirtsvcConnections.StepKeepsInverseIff: for a cycle counter that is not 0, because the code uses a zero timestamp for "never used".
- VirtsvcConnections.ReplyIffHolder: what a reply to a port below 1024 reads past the slots is not modelled; such a reply has a verdict of its own.
- GrpcReplies.AnswerIsChain: for messages that fit into a packet; a larger one would make the capacity 0 and be written past the buffer. Buffer lengths are 16-bit, so a capacity above 65535 does not arise (see GrpcReplies.ReplyBuilder.Multireply).
- Forwarding.ForeachPacket: edges have streams of their own; two edges leading to the same node are not modelled.
- FlowSafety.StepKeepsInv: for visits and removals that do not use a freed flow; VisitSafeIff and ForcedRemoveIff say exactly which those are.
