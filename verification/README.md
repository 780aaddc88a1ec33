# Verified models of mesh-core

A Dafny project beside mesh-core, a mesh network of nodes that exchange messages over
sessions. It models the four parts of the system whose correctness depends on state and on
the order of events, and proves what they are for.

**Link-state routing.** `LinkState` holds the records and the serial-number comparison,
`ShortestPath` the meaning of a distance when costs saturate, `Dijkstra` the search with lazy
deletion as a function and its invariants, `RouteComputation` the loops that compute routes,
proved equal to that function, `TopologyDatabase` one node's database as a class,
`LoopFreedom` why next hops never form a loop, and `Forwarding` the routing table as a class
and the fate of a message that crosses the mesh. `Flooding` is the whole mesh as a transition
system (publishing, delivery in any order, retelling records to neighbours, loss, changing
sessions), `Convergence` shows when flooding reaches everyone, `FloodReach` exactly which
nodes it can miss, and `MeshForwarding` connects the parts: flooding reaches everyone, so all
databases agree, so all routes are optimal for one graph, so messages arrive. `TwoNodes` is a
run that meets all premises of that chain; in `TenNodes` flooding fails, in `SeventeenNodes`
it fails because somebody retells.

**Reliable delivery.** `Reliability` is the session's reliability layer as a class over its
storage, each operation proved equal to a function on values. `Delivery` composes a sender
and a receiver with a network that drops, duplicates and reorders frames, and with
re-creation of either side over its storage, and proves properties of all runs. `DataFrames`
ties both to the wire: a frame carries the id under which it was logged.

**Storage.** `Dedup` is the watermark and gap window against a plain set of ids, `Wal` the
in-memory log, `SegmentLog` the file log as bytes, its behaviour on torn tails, and the
agreement of the two logs.

**Wire format.** `ByteCodec`, `Header`, `Frame` and `Chunk` cover the header and frame codec,
reading frames from a stream that arrives in pieces, and chunking with reassembly;
`ChunkWire` says exactly which messages come through all of them.

Main results: `Convergence.FloodingConverges`, `FloodReach.MissedIff`,
`MeshForwarding.SettledMeshDelivers`, `Forwarding.ForwardingDelivers`, `LoopFreedom.NoLoop`,
`RouteComputation.ComputeRoutes`, `RouteComputation.TableCorrect`, `Flooding.DatabasesAgree`,
`Flooding.FloodingTerminates`, `Delivery.NoMessageLost`, `Delivery.ReportedExactlyOnce`,
`Delivery.LogIsUnacknowledged`, `Delivery.DataIsAcknowledged`, `Delivery.ResumeCompletes`,
`Delivery.RunConservesCredits`, `Dedup.DeliveryCount`,
`Dedup.OrderIrrelevant`, `SegmentLog.TornSegment`, `SegmentLog.StoresAgreeIff`,
`Reliability.InOrderIff`, `DataFrames.WireCarriesIds`, `Frame.ReencodesIff`,
`Frame.ArrivedReceivedIff`, `Chunk.PipelineRoundTrip`, `ChunkWire.ThroughIff`.

Reading notes:

- Integers are unbounded in Dafny; wrap-around, saturation and truncating casts are written
  out. Message ids are unbounded numbers in `Dedup`, `Wal`, `Reliability` and `Delivery`,
  where the program uses 64 bits; the segment codec states the 64-bit bound, in both
  directions.
- Iteration over a hash map is a choice of any remaining key, so every contract holds for
  every iteration order.
- `hop_count` is counted modulo 256, as an optimised build does; a build with overflow checks
  would stop on paths of more than 255 links (mesh-topology/src/link_state.rs:45).
- Clock readings, the hash behind the choice among equal hops, the checksum of the file log
  and the metadata of DATA frames are parameters or unconstrained choices. Where a call
  reads the clock twice, one reading stands for both.
- The comment at mesh-bin/src/main.rs:643 says that existing topology goes to the newly
  connected neighbour; the code hands it to the broadcast channel, so it reaches every
  session. The model follows the code.
- mesh-wire/src/header.rs and the file log name their checksum CRC32C, the code computes
  CRC-32; nothing proved here depends on which.

Properties that look natural but are false of the code, each with a run or an input that
shows it and the exact condition under which the code has it:

| property | fails for | holds exactly when |
|---|---|---|
| an announcement of which no copy is lost reaches every connected node | `TenNodes.NineIsMissed`; `SeventeenNodes.SixteenIsMissed`, only because it is retold | `FloodReach.MissedIff`, node by node, with and without retelling |
| a message id counts as new once | `Dedup.StrayCountsTwice` | `Dedup.DeliveryCount` gives the number for every run; `Delivery.PacedExactlyOnce` is what a sender can do |
| a full retransmission brings the receiver up to date | `Delivery.FailedBuildSkips`, `Delivery.SkippedStalls` | `Delivery.ResumeCompletes` |
| any payload can be sent | `DataFrames.LargePayloadFails` | `DataFrames.BuildsIff` |
| the two logs answer alike below the truncation point | `SegmentLog.AcknowledgedStillRead` | `SegmentLog.StoresAgreeIff` |
| frames are written in the order of their ids and leave only later ones waiting | `Reliability.SmallFrameOvertakes` | `Reliability.InOrderIff` |
| what was decoded can be encoded at the same limit | `Frame.LargestIsRefused` | `Frame.ReencodesIff` |
| every frame that arrived whole is returned before the stream ends or breaks off | `Frame.SecondIsHeldBack` | `Frame.ArrivedReceivedIff` |
| a chunked message comes back | `Chunk.EmptyIsLost`, `Chunk.EarlyEndSplits`, `ChunkWire.HintLoses` | `ChunkWire.ThroughIff`; `Chunk.RoundTripIff` without the wire |

## Model

| member | source | states |
|---|---|---|
| `ShortestPath.DistanceUnique` | mesh-topology/src/link_state/database.rs:130-170 | The capped distance that labels stand for is unique. |
| `ShortestPath.DistanceFinite` | mesh-topology/src/link_state/database.rs:175-176 | A distance below `u32::MAX` exists exactly when some path has true cost below `u32::MAX`. |
| `ShortestPath.CanonicalUnique` | mesh-topology/src/link_state/database.rs:151-189 | With positive costs there is exactly one path that follows preferred predecessors from the source to a node. |
| `ShortestPath.PreferredUnique` | mesh-topology/src/link_state/database.rs:151-170 | Least distance and then least id single out one predecessor on a cheapest path. |
| `ShortestPath.SuffixDistance` | mesh-topology/src/link_state/database.rs:130-203 | What follows the first hop of a cheapest path is a cheapest path. |
| `LinkState.AdvertisedMeaning` | mesh-topology/src/link_state/database.rs:36-46 | The neighbours of a list are the ids in it, each with the cost and address of its last entry. |
| `LinkState.NewerIsSerialGreater` | mesh-wire/src/topology.rs:75-79 | The wrapping subtraction test is "greater than" of section 3.2 of RFC 1982 with 64 serial bits; it is asymmetric, and undecided exactly for equal numbers and numbers 2^63 apart. |
| `LinkState.NewerTracksCounters` | mesh-wire/src/topology.rs:75-79 | For counters less than 2^63 apart the wrapped test is the comparison of the true counters, however often they wrapped. |
| `Dijkstra.RelaxOneMore` | mesh-topology/src/link_state/database.rs:158-169 | Relaxing the links of a node one after the other, in any order, is relaxing them at once. |
| `Dijkstra.LeastExists` | mesh-topology/src/link_state/database.rs:151 | A non-empty heap has an entry that comes before all others. |
| `Dijkstra.ImprovePays` | mesh-topology/src/link_state/database.rs:163-167 | Each push strictly lowers the sum of labels over the finite set of nodes. |
| `Dijkstra.VisitPays` | mesh-topology/src/link_state/database.rs:151-169 | Popping an entry and relaxing all links of its node strictly lowers the sum of labels plus the heap size, for all 32-bit costs. |
| `Dijkstra.StartInv` | mesh-topology/src/link_state/database.rs:134-149 | The initial labels and heap satisfy all search invariants. |
| `Dijkstra.SkipKeepsInv` | mesh-topology/src/link_state/database.rs:152-155 | Skipping a stale heap entry keeps all search invariants. |
| `Dijkstra.ExpandedIsNew` | mesh-topology/src/link_state/database.rs:151-158 | A node is expanded at most once. |
| `Dijkstra.ExpandKeepsInv` | mesh-topology/src/link_state/database.rs:151-158 | The entry popped and not skipped carries its node's label; expanding it keeps all invariants and makes it the last and farthest expanded node. |
| `Dijkstra.ImprovedIsNew` | mesh-topology/src/link_state/database.rs:160-168 | A node whose label improves was not expanded before, and its new label did not saturate. |
| `Dijkstra.RelaxKeepsInv` | mesh-topology/src/link_state/database.rs:159-169 | Relaxing one link keeps labels attained, the predecessor map a tree over tight links, each predecessor the first expanded one with a tight link, and expansion greedy in the order of the heap, zero costs included. |
| `Dijkstra.VisitKeepsInv` | mesh-topology/src/link_state/database.rs:151-169 | So does expanding a node and relaxing all its links. |
| `Dijkstra.ExploreFinishes` | mesh-topology/src/link_state/database.rs:134-170 | The whole search ends with all of that and every link relaxed. |
| `Dijkstra.LabelAttained` | mesh-topology/src/link_state/database.rs:151-170 | Each finite label of the finished search is the cost of the path its predecessors spell. |
| `Dijkstra.LabelMinimal` | mesh-topology/src/link_state/database.rs:151-170 | No path from the local node undercuts a label. |
| `Dijkstra.LabelsAreDistances` | mesh-topology/src/link_state/database.rs:134-170 | Labels of the finished search are the capped distances, with zero-cost links, self-links and nodes known only as a neighbour. |
| `Dijkstra.PositiveOrder` | mesh-topology/src/link_state/database.rs:151-170 | With positive costs nodes are expanded in the order of distance and then id. |
| `RouteComputation.PopMin` | mesh-topology/src/link_state/database.rs:151 | The heap releases a least entry by distance and then node. |
| `RouteComputation.LeastUnique` | mesh-topology/src/link_state/database.rs:151 | That entry is unique, so the heap leaves no choice. |
| `RouteComputation.InitSearch` | mesh-topology/src/link_state/database.rs:134-149 | For any order of nodes the loop leaves the initial labels and heap of the search function. |
| `RouteComputation.RelaxNeighbors` | mesh-topology/src/link_state/database.rs:158-169 | For any order of neighbours the loop leaves the state in which all links are relaxed at once. |
| `RouteComputation.SearchPaths` | mesh-topology/src/link_state/database.rs:134-170 | The loop terminates for all costs with the labels and predecessors of the search function. |
| `RouteComputation.TreeCost` | mesh-topology/src/link_state/database.rs:173-183 | Following predecessors from the local node spells a path whose cost is the label of its end. |
| `RouteComputation.EarliestAt` | mesh-topology/src/link_state/database.rs:163-167 | The recorded predecessor was expanded before every other node with a tight link, for all costs. |
| `RouteComputation.PredecessorPreferred` | mesh-topology/src/link_state/database.rs:163-167 | With positive costs it is, of all last links of cheapest paths, the one with least distance and then least id. |
| `RouteComputation.WalkBack` | mesh-topology/src/link_state/database.rs:177-186 | The walk back terminates even where costs are zero; next hop is the second node of the tree path and hop count its length modulo 256. |
| `RouteComputation.TreePathExplains` | mesh-topology/src/link_state/database.rs:173-196 | The tree path is a cheapest path, its second node the next hop, its length the hop count. |
| `RouteComputation.FiniteLabelReaches` | mesh-topology/src/link_state/database.rs:175-176 | The test for `u32::MAX` selects exactly the nodes reachable by a path of cost below it. |
| `RouteComputation.TableCorrect` | mesh-topology/src/link_state/database.rs:130-203 | For all costs, a route to `dst` other than the local node exists exactly when some path costs less than `u32::MAX`; its cost is the minimum, its next hop lies on a cheapest path, its hop count is that path's length. |
| `RouteComputation.BuildRoutes` | mesh-topology/src/link_state/database.rs:173-197 | For any order of destinations the loop builds the one table that the search determines. |
| `RouteComputation.ComputeRoutes` | mesh-topology/src/link_state/database.rs:130-203 | For all costs the table is a function of the node map and the local node, independent of every hash iteration order, and it is correct. |
| `RouteComputation.RouteUnique` | mesh-topology/src/link_state/database.rs:173-196 | With positive costs correctness alone determines every field of a route. |
| `RouteComputation.PositiveTable` | mesh-topology/src/link_state/database.rs:130-203 | With positive costs every correct table is the computed one: ties go to the predecessor with least distance, then least id. |
| `RouteComputation.NoLinksNoRoutes` | mesh-topology/src/link_state/database.rs:12-19 | Without links there are no routes. |
| `TopologyDatabase.TopologyDatabase.constructor` | mesh-topology/src/link_state/database.rs:12-19 | A new database is empty, counts from 1, and its empty route table is correct. |
| `TopologyDatabase.TopologyDatabase.NextSequenceNumber` | mesh-topology/src/link_state/database.rs:22-26 | Hands out the counter and advances it modulo 2^64. |
| `TopologyDatabase.TopologyDatabase.UpdateLocalNeighbors` | mesh-topology/src/link_state/database.rs:29-63 | Replaces only the local record, leaves a correct route table, and returns the announcement with the same number and neighbours and TTL 8. |
| `TopologyDatabase.TopologyDatabase.ProcessTopologyUpdate` | mesh-topology/src/link_state/database.rs:66-127 | Accepts exactly updates at most 300 seconds old, stamps from the future included, that are serially newer than what is stored; the node map changes in the originator's record only; the route table stays correct and is untouched on rejection. |
| `TopologyDatabase.TopologyDatabase.ComputeRoutes` | mesh-topology/src/link_state/database.rs:130-203 | Re-establishes a correct route table for the current node map. |
| `TopologyDatabase.TopologyDatabase.GetAllTopologyUpdates` | mesh-topology/src/link_state/database.rs:221-252 | One update per known node other than the local one, stamped now, with its stored number and links and TTL 7, and no other. |
| `TopologyDatabase.AcceptsIff` | mesh-topology/src/link_state/database.rs:73-88 | The same condition for node maps as values. |
| `TopologyDatabase.RecordFields` | mesh-topology/src/link_state/database.rs:95-112 | A stored record has the originator, the number, the receive time in record and links, and exactly the advertised links. |
| `TopologyDatabase.LearnKeepsLinks` | mesh-topology/src/link_state/database.rs:95-105 | What is stored from a neighbour list are exactly the advertised links, a later entry winning. |
| `TopologyDatabase.CollectNeighbors` | mesh-topology/src/link_state/database.rs:36-46 | The loop over neighbours builds that map. |
| `TopologyDatabase.ListNeighbors` | mesh-topology/src/link_state/database.rs:231-238 | Listing stored neighbours in any order advertises the same links again. |
| `LoopFreedom.WaitedFor` | mesh-topology/src/link_state/database.rs:151-169 | A node expanded while another waited comes before it in the order of the heap. |
| `LoopFreedom.Crossing` | mesh-topology/src/link_state/database.rs:151-169 | A node expanded before the end of a path over tight links is no worse than the worst node of that path. |
| `LoopFreedom.Bottleneck` | mesh-topology/src/link_state/database.rs:151-189 | The tree path to the first expanded of several nodes passes no node worse than any path over tight links to any of them does. |
| `LoopFreedom.HopDescends` | mesh-topology/src/link_state/database.rs:173-196 | A next hop is a neighbour whose own distance to the destination is less by exactly the cost of the link, and it has a route of its own unless it is the destination. |
| `LoopFreedom.LoopIsFree` | mesh-topology/src/link_state/database.rs:173-196 | A loop of next hops could only run over links of cost zero. |
| `LoopFreedom.LoopSameLabels` | mesh-topology/src/link_state/database.rs:134-170 | The nodes of such a loop would compute the same distances. |
| `LoopFreedom.WorstShared` | mesh-topology/src/link_state/database.rs:151-189 | Their tree paths to the destination would share their worst node. |
| `LoopFreedom.WorstOutside` | mesh-topology/src/link_state/database.rs:151-189 | That node would lie outside the loop. |
| `LoopFreedom.NoRing` | mesh-topology/src/link_state/database.rs:151-189 | No such loop exists: cutting the paths at the worst node gives a loop with a smaller one. |
| `LoopFreedom.NoLoop` | mesh-topology/src/link_state/database.rs:130-203 | For all costs, with tables computed from one graph, following next hops for one destination never returns to a node. |
| `Forwarding.RoutingTable.UpdateRoutesFromTopology` | mesh-routing/src/table.rs:50-71 | Afterwards the table holds exactly the computed routes for other nodes, one hop each, whatever it held before. |
| `Forwarding.RoutingTable.Decide` | mesh-routing/src/table.rs:166-216 | Local for the node itself, expired for TTL 0, the computed next hop if there is a route, otherwise no route; the choice among hops cannot matter. |
| `Forwarding.HandleOutboundMessage` | mesh-session/src/manager.rs:223-293 | A message is delivered exactly at its destination, dropped exactly for lack of a route, and otherwise sent to the computed next hop or found without a session, exactly by the sessions; never dropped for its TTL, which is 64 at every hop. |
| `Forwarding.HandleMeaning` | mesh-session/src/manager.rs:223-293 | The same four cases for routes and sessions as values. |
| `Forwarding.RoutedPassesOn` | mesh-session/src/manager.rs:242-275 | A node with a route passes the message on, to the destination or to another node with a route. |
| `Forwarding.NextIsNew` | mesh-session/src/manager.rs:242-275 | The next node is one the message has not visited. |
| `Forwarding.Arrives` | mesh-session/src/manager.rs:223-293 | Every started journey can be followed to the destination without repetition. |
| `Forwarding.HopsCost` | mesh-session/src/manager.rs:223-293 | The links of a journey to the destination cost exactly the distance of its first node. |
| `Forwarding.ForwardingDelivers` | mesh-session/src/manager.rs:223-293 | Loop freedom for all costs: with equal databases a message for a routed destination is sent on by every node and delivered by the last, visits no node twice, and its link costs add up to the cost the first node computed. |
| `Flooding.AnnouncementFields` | mesh-topology/src/link_state/database.rs:29-63 | An announcement carries its node, its next number, the given neighbours, TTL 8 and the present time. |
| `Flooding.LateUpdateIgnored` | mesh-topology/src/link_state/database.rs:73-80 | An update that arrives more than 300 seconds after its stamp changes no database and is not passed on. |
| `Flooding.TimelyNewsStored` | mesh-bin/src/main.rs:770-793 | One in time and new to the receiver is stored with its number and links, and passed on to every peer with one hop less if it has two or more. |
| `Flooding.RetoldAnew` | mesh-topology/src/link_state/database.rs:221-252 | A retold record is stamped anew, with TTL 7 and the stored number and links. |
| `Flooding.InitInv` | mesh-topology/src/link_state/database.rs:12-19 | Empty databases satisfy the mesh invariant. |
| `Flooding.PublishKeepsInv` | mesh-bin/src/main.rs:592-657 | Publishing keeps: databases and packets carry only published content, numbers stay below the originator's counter, own records are latest. |
| `Flooding.ReceiveKeepsInv` | mesh-bin/src/main.rs:755-801 | Receiving, accepting and passing on keeps the mesh invariant. |
| `Flooding.SyncKeepsInv` | mesh-bin/src/main.rs:620-655 | Retelling stored records keeps the mesh invariant. |
| `Flooding.StepKeepsInv` | mesh-bin/src/main.rs:592-801 | Every event, loss and change of sessions included, keeps the mesh invariant. |
| `Flooding.RunKeepsInv` | mesh-bin/src/main.rs:592-801 | Hence every run does. |
| `Flooding.DatabasesAgree` | mesh-topology/src/link_state/database.rs:66-127 | In every run, nodes that store the same number for the same originator store the same costs and addresses, namely those published under it. |
| `Flooding.StepForward` | mesh-topology/src/link_state/database.rs:80-88 | No event removes a record or moves a stored number back. |
| `Flooding.RunForward` | mesh-topology/src/link_state/database.rs:80-88 | Over every run stored numbers only move forward. |
| `Flooding.RunExtends` | mesh-bin/src/main.rs:592-801 | Over every run what was published under a number stays published under it. |
| `Flooding.BroadcastWeight` | mesh-session/src/manager.rs:426-474 | The copies of one broadcast weigh less than the update passed on, in a mesh of bounded degree. |
| `Flooding.ReceiveLightens` | mesh-bin/src/main.rs:770-799 | Processing an update, accepted or rejected, strictly lowers the sum over packets of (degree+1)^ttl. |
| `Flooding.FloodingTerminates` | mesh-bin/src/main.rs:770-799 | Without new updates at most that many deliveries and losses can happen. |
| `Convergence.SmallMeshShortPaths` | mesh-topology/src/link_state.rs:9 | In a mesh of at most nine nodes no path without repetition has more than eight links. |
| `Convergence.StarShortPaths` | mesh-topology/src/link_state.rs:9 | Nor in a star of any size. |
| `Convergence.SimplePart` | mesh-session/src/manager.rs:426-474 | Every session path contains one without repetition between the same nodes. |
| `Convergence.FloodStarts` | mesh-bin/src/main.rs:635-642 | An announcement with a new number starts with the originator as only holder and a copy on its way to each neighbour. |
| `Convergence.ReceiveReaches` | mesh-topology/src/link_state/database.rs:66-127 | Delivering a copy makes exactly the receiver a holder, and it is accepted exactly if the receiver was none. |
| `Convergence.PublishKeepsFlood` | mesh-bin/src/main.rs:592-657 | Publications of other nodes do not disturb the flood. |
| `Convergence.SyncKeepsFlood` | mesh-bin/src/main.rs:620-655 | Retold copies, one hop shorter and sent by another node, keep the flooding invariant. |
| `Convergence.LoseKeepsFlood` | mesh-session/src/manager.rs:453-470 | Losing other packets does not disturb it. |
| `Convergence.OldNewsKeepsFlood` | mesh-bin/src/main.rs:795-797 | Deliveries that reach nobody new keep the flooding invariant. |
| `Convergence.LastHop` | mesh-bin/src/main.rs:784-793 | A copy with its TTL used up has come along a path that already holds every neighbour of its receiver. |
| `Convergence.NewsKeepsFlood` | mesh-bin/src/main.rs:772-793 | A newly reached node extends the chain of accepted copies and passes the copy on, or needs not to. |
| `Convergence.QuietRunKeepsFlood` | mesh-bin/src/main.rs:755-801 | Over every run in which no copy is lost or expires: each copy came along a path without repetition through nodes that accepted it, and has the hops left which that path has not used. |
| `Convergence.FloodCompletes` | mesh-topology/src/link_state.rs:9 | When no copy is left in flight, a connected mesh holds the update everywhere. |
| `Convergence.LastWordFloods` | mesh-bin/src/main.rs:592-801 | In every run with a last announcement the flooding invariant holds at the end. |
| `Convergence.FloodingConverges` | mesh-bin/src/main.rs:755-801 | After the last announcement of an originator, with fixed connected sessions in which no path from it without repetition has more than eight links, and none of its copies lost or over-age, once no copy is in flight every node stores exactly the links announced; others may publish, retell and lose packets meanwhile. |
| `FloodReach.TreeBranch` | mesh-bin/src/main.rs:784-793 | Without retelling, a node is joined to the originator by a session path with as many links as its copy has used up hops. |
| `FloodReach.RunGrowsTree` | mesh-bin/src/main.rs:755-801 | Every run grows a session tree: each holder passes on one hop less than the node it accepted from, or six if the copy was retold, and each copy in flight has the TTL of its sender. |
| `FloodReach.TreeIsRun` | mesh-bin/src/main.rs:755-801 | Every session tree of that kind, whose nodes that pass their copy on have all their peers in it, is grown by some run that delivers every copy. |
| `FloodReach.MissedIff` | mesh-bin/src/main.rs:755-801 | In any mesh, with or without retelling, a given node can miss an announcement of which no copy is lost exactly if such a tree leaves it out. |
| `FloodReach.FarNodesNeverLearn` | mesh-bin/src/main.rs:784-793 | A node joined to the originator by no session path of at most eight links never stores an announcement that nobody retells. |
| `TenNodes.NineIsMissed` | mesh-bin/src/main.rs:784-793 | A run from empty databases in a connected mesh of ten nodes: nothing is lost, nothing is left in flight, and a node two sessions from the originator does not know its announcement. |
| `SeventeenNodes.SixteenIsMissed` | mesh-bin/src/main.rs:620-655 | A run in a mesh of seventeen nodes in which a retold copy keeps a node two sessions from the originator from its announcement. |
| `SeventeenNodes.SixteenIsReached` | mesh-bin/src/main.rs:755-801 | In the same mesh no run without retelling misses that node. |
| `MeshForwarding.SettledGraph` | mesh-topology/src/link_state/database.rs:66-127 | In a settled mesh every node computes its routes from exactly the graph that was announced. |
| `MeshForwarding.SettledAgree` | mesh-bin/src/main.rs:607-642 | If nodes announce their sessions, the loaded tables are those of that graph and its links are sessions. |
| `MeshForwarding.SettledMeshForwards` | mesh-session/src/manager.rs:223-293 | The chain from empty databases, at any costs: a message for a routed destination is delivered there without visiting a node twice, at the computed cost. |
| `MeshForwarding.EveryoneRouted` | mesh-bin/src/main.rs:607-614 | With the cost the program announces, every node has a route to every other. |
| `MeshForwarding.SettledMeshDelivers` | mesh-session/src/manager.rs:223-293 | With the announcements the program makes, messages between any two nodes of a settled mesh are delivered, over as few sessions as possible, at a cost of 100 each. |
| `TwoNodes.ExchangeThen` | mesh-bin/src/main.rs:592-801 | Announcement, acceptance and the returning copy are a legal run after which nothing is in flight and the announcement is the last word. |
| `TwoNodes.PairSettles` | mesh-bin/src/main.rs:592-801 | Two connected nodes that announce their link reach a settled mesh. |
| `TwoNodes.SettlePair` | mesh-topology/src/link_state/database.rs:130-203 | For any two nodes the premises of `MeshForwarding.SettledMeshDelivers` hold together, with computed routes. |
| `Dedup.AbsorbMeaning` | mesh-storage/src/backend/mem.rs:189-195 | Absorbing gaps changes no processed id and leaves cum + 1 out of the gap set. |
| `Dedup.AbsorbGaps` | mesh-storage/src/backend/mem.rs:192-195 | The loop that removes following gap ids does that. |
| `Dedup.MarkMeaning` | mesh-storage/src/backend/mem.rs:176-214 | Marking adds exactly the marked id if it is within the window and nothing otherwise; the retain step loses nothing; the watermark never falls. |
| `Dedup.WatermarkMaximal` | mesh-storage/src/backend/mem.rs:216-218 | The watermark is the largest k with all of 1..k processed. |
| `Dedup.StateCanonical` | mesh-storage/src/backend/mem.rs:160-218 | Watermark and gap set are determined by the set of processed ids. |
| `Dedup.RunIsSet` | mesh-storage/src/backend/mem.rs:160-214 | Over every in-window run an id is processed exactly if it was marked. |
| `Dedup.OrderIrrelevant` | mesh-storage/src/backend/mem.rs:160-218 | Two in-window orders of the same ids end in the same state. |
| `Dedup.DeliveryCount` | mesh-storage/src/backend/mem.rs:160-214 | For every run at all, the exact number of times an id counts as new: once per arrival beyond the window and once for the first arrival within it. |
| `Dedup.ExactlyOnce` | mesh-storage/src/backend/mem.rs:160-214 | For in-window runs, once per distinct id. |
| `Dedup.WatermarkDelivered` | mesh-storage/src/backend/mem.rs:160-218 | Whatever arrived, every id at or below the watermark counted as new at least once. |
| `Dedup.StrayCountsTwice` | mesh-storage/src/backend/mem.rs:207-210 | An id just beyond the window that arrives twice counts as new twice. |
| `Dedup.MemoryDedup.Contains` | mesh-storage/src/backend/mem.rs:160-174 | Decides membership in the processed ids of the peer. |
| `Dedup.MemoryDedup.MarkProcessed` | mesh-storage/src/backend/mem.rs:176-214 | The peer's state becomes the specified one; other peers are untouched. |
| `Dedup.MemoryDedup.CumProcessed` | mesh-storage/src/backend/mem.rs:216-218 | Returns the watermark. |
| `Wal.AboveMembers` | mesh-storage/src/backend/mem.rs:74-84 | Reading above an id returns exactly the entries with larger ids. |
| `Wal.RangeMeaning` | mesh-storage/src/backend/mem.rs:74-84 | A read returns a prefix of the entries above the id, of the length the limit says, but one entry where it says none. |
| `Wal.GatherIsRange` | mesh-storage/src/backend/mem.rs:74-84 | Collecting one by one until the limit is met gives the first entries above the id, at least one of them even for limit 0. |
| `Wal.MemoryWal.Append` | mesh-storage/src/backend/mem.rs:40-58 | Adds the entry at the end and records its id; other peers untouched. |
| `Wal.MemoryWal.ReadRange` | mesh-storage/src/backend/mem.rs:60-91 | Returns the entries above the id, in order, up to the limit. |
| `Wal.MemoryWal.TruncateThrough` | mesh-storage/src/backend/mem.rs:93-105 | Keeps exactly the entries above the id; watermark and last id untouched. |
| `Wal.MemoryWal.StoreAck` | mesh-storage/src/backend/mem.rs:119-123 | Sets the acknowledged watermark only. |
| `SegmentLog.HeaderOf` | mesh-storage/src/backend/file.rs:46-82 | Header fields read back are those written, whatever follows. |
| `SegmentLog.ScannedAreStorable` | mesh-storage/src/backend/file.rs:62-75 | Whatever bytes are scanned, the entries found have 64-bit ids and 32-bit lengths. |
| `SegmentLog.TornRecordHides` | mesh-storage/src/backend/file.rs:327-333 | A record appended behind a torn one that it does not fill up cannot be seen. |
| `SegmentLog.WholeRecord` | mesh-storage/src/backend/file.rs:327-362 | A record in front is read whole and the scan goes on behind it. |
| `SegmentLog.TornRecord` | mesh-storage/src/backend/file.rs:327-333 | A record cut anywhere ends the scan of the segment without an error. |
| `SegmentLog.DamagedRecord` | mesh-storage/src/backend/file.rs:337-348 | A complete record whose checksum is not that of its id and frame ends the scan with that id. |
| `SegmentLog.DamageIsReported` | mesh-storage/src/backend/file.rs:337-362 | Damage behind whole records is reported unless the limit was met before it. |
| `SegmentLog.WholeWithinMaximal` | mesh-storage/src/backend/file.rs:327-333 | The count of whole records before a cut is the largest whose encodings fit. |
| `SegmentLog.TornSegment` | mesh-storage/src/backend/file.rs:320-366 | A segment cut at any byte yields exactly the records wholly before the cut, never a corruption error. |
| `SegmentLog.ScanIsGather` | mesh-storage/src/backend/file.rs:318-366 | Scanning the segment files collects from the log they encode. |
| `SegmentLog.DamageFailsRead` | mesh-storage/src/backend/file.rs:318-348 | A damaged segment fails the whole read with the id of its record. |
| `SegmentLog.NextSegment` | mesh-storage/src/backend/file.rs:318-366 | A segment read to its end hands on to the next. |
| `SegmentLog.FileWal.OpenSegment` | mesh-storage/src/backend/file.rs:177-225 | Picking or creating a segment changes no log; another segment is started exactly if none is open and the latest is full. |
| `SegmentLog.FileWal.Reopen` | mesh-storage/src/backend/file.rs:97-112 | Opening the store again leaves every log as it was and no segment open. |
| `SegmentLog.FileWal.Append` | mesh-storage/src/backend/file.rs:230-282 | The log that the bytes encode grows by the entry; other peers untouched. |
| `SegmentLog.FileWal.ReadRange` | mesh-storage/src/backend/file.rs:284-367 | Reading the bytes returns the entries of the log above the id up to the limit and never fails. |
| `SegmentLog.FileWal.TruncateThrough` | mesh-storage/src/backend/file.rs:369-392 | Raises the watermark to at least the id; removes nothing from the files. |
| `SegmentLog.ReadSegment` | mesh-storage/src/backend/file.rs:320-364 | The scanning loop agrees with the recursive reading of bytes, corrupt records included. |
| `SegmentLog.StoresAgree` | mesh-storage/src/backend/file.rs:284-392 | For every sequence of appends and truncations both logs answer alike from the truncation point on, for every limit. |
| `SegmentLog.MemoryIsSuffixOfFiles` | mesh-storage/src/backend/mem.rs:93-105 | For rising ids the memory log is what the files hold above the truncation point. |
| `SegmentLog.StoresAgreeIff` | mesh-storage/src/backend/file.rs:378-389 | Below the truncation point they agree exactly if the files hold nothing there; with rising ids for every limit. |
| `SegmentLog.AcknowledgedStillRead` | mesh-storage/src/backend/file.rs:378-389 | One message appended and acknowledged: the file log still returns it, the memory log does not, at any limit. |
| `Reliability.FitLongest` | mesh-session/src/reliability.rs:323-340 | The frames written are the longest prefix the credits pay for. |
| `Reliability.InitSendMeaning` | mesh-session/src/reliability.rs:125-148 | A new sender goes on above the last logged id, from the stored watermark, without credits or queue. |
| `Reliability.SendMeaning` | mesh-session/src/reliability.rs:176-235 | A built frame is logged under the next id, written exactly if the credits pay for it and queued last otherwise; a failed build only uses up the id. |
| `Reliability.AckRecords` | mesh-session/src/reliability.rs:300-318 | An ACK raises the acknowledged watermark to the larger value; a larger one frees exactly the entries up to it, any other leaves the log alone. |
| `Reliability.AckWritesLongestPrefix` | mesh-session/src/reliability.rs:320-345 | An ACK writes a prefix of the queue and leaves exactly the rest; written bytes plus credits left are its grant, never negative; the next queued frame does not fit. |
| `Reliability.ResumeWritesLongestPrefix` | mesh-session/src/reliability.rs:549-614 | A RESUME writes the longest payable prefix of the log above the peer's watermark and leaves log, queue, counter and watermark alone. |
| `Reliability.InOrderIff` | mesh-session/src/reliability.rs:215-232 | Over every run of sends and ACKs, what was written followed by what waits has rising ids exactly if no frame was paid for while others were waiting. |
| `Reliability.SmallFrameOvertakes` | mesh-session/src/reliability.rs:215-232 | A run in which the second frame is written before the first. |
| `Reliability.InitRecvMeaning` | mesh-session/src/reliability.rs:151-173 | A new receiver starts from the stored watermark with a full window and nothing owed. |
| `Reliability.DataMeaning` | mesh-session/src/reliability.rs:246-285 | A frame is new exactly if its id is above the watermark and not in the gap window; a new one is marked, charged and counted, a known one only owes another ACK. |
| `Reliability.AckDueIff` | mesh-session/src/reliability.rs:361-367 | An ACK is due exactly if one is owed and the interval is over, or a batch has come, or at most a quarter of the window is left. |
| `Reliability.AckMeaning` | mesh-session/src/reliability.rs:368-403 | It states the watermark, clears what was owed, restarts timer and count, and refills the window at half or less. |
| `Reliability.ResumeMeaning` | mesh-session/src/reliability.rs:461-474 | A RESUME states both watermarks and grants the whole window. |
| `Reliability.AdvertisedCredits` | mesh-session/src/reliability.rs:368-387 | An ACK advertises more than half and at most all of the window, however negative the available credits became. |
| `Reliability.WritePending` | mesh-session/src/reliability.rs:323-340 | The loop writes exactly that prefix and notes positions 0, 1, 2, ... of it. |
| `Reliability.RemoveSent` | mesh-session/src/reliability.rs:342-345 | Removing noted positions from the highest down leaves exactly the suffix. |
| `Reliability.ReliabilityManager.InitSendState` | mesh-session/src/reliability.rs:125-148 | Sets up from storage only if absent. |
| `Reliability.ReliabilityManager.InitRecvState` | mesh-session/src/reliability.rs:151-173 | Sets up from storage only if absent. |
| `Reliability.ReliabilityManager.Send` | mesh-session/src/reliability.rs:176-235 | Uses up an id even if no frame was built; logs, then writes if credits suffice, else queues; other peers untouched. |
| `Reliability.ReliabilityManager.ProcessDataFrame` | mesh-session/src/reliability.rs:238-286 | Reports new exactly for unprocessed ids, and brings watermark, credits and ACK counters to the specified state. |
| `Reliability.ReliabilityManager.ProcessAckFrame` | mesh-session/src/reliability.rs:289-348 | Truncates the log only for a larger watermark, replaces credits, and writes from the queue as specified. |
| `Reliability.ReliabilityManager.MaybeBuildAck` | mesh-session/src/reliability.rs:351-410 | An ACK is built exactly if one is owed and the interval is over, or a batch has come, or at most a quarter of the window is left; it refills credits and resets timer and count. |
| `Reliability.ReliabilityManager.BuildResumeFrame` | mesh-session/src/reliability.rs:444-487 | States the acknowledged and the processed watermark and grants the whole window. |
| `Reliability.ReliabilityManager.HandleResume` | mesh-session/src/reliability.rs:549-614 | Sets credits if given and retransmits from the log as specified. |
| `Delivery.SendKeepsInv` | mesh-session/src/reliability.rs:176-235 | Sending keeps the connection invariant. |
| `Delivery.DataKeepsInv` | mesh-session/src/reliability.rs:238-286 | Delivery of any frame ever sent, again or late, keeps it. |
| `Delivery.AckKeepsInv` | mesh-session/src/reliability.rs:289-348 | Delivery of any ACK ever sent, stale ones included, keeps it. |
| `Delivery.ResumeKeepsInv` | mesh-session/src/reliability.rs:549-614 | Delivery of any RESUME keeps it. |
| `Delivery.StepKeepsInv` | mesh-session/src/reliability.rs:125-614 | Every event, re-creation of either side included, keeps it. |
| `Delivery.RunKeepsInv` | mesh-session/src/reliability.rs:125-614 | Hence every run does. |
| `Delivery.WatermarksOrdered` | mesh-session/src/reliability.rs:289-410 | Acknowledged watermark, processed watermark and last appended id are in order. |
| `Delivery.NoMessageLost` | mesh-session/src/reliability.rs:125-410 | In every run each logged message is at or below the receiver's watermark or still in the log unchanged, and the three watermarks are in order. |
| `Delivery.RestartMeaning` | mesh-session/src/reliability.rs:125-173 | Re-creating a side keeps its storage and starts it from there. |
| `Delivery.MaxAckMeaning` | mesh-session/src/reliability.rs:300-313 | The largest acknowledged watermark bounds all ACKs delivered and is one of them, or 0. |
| `Delivery.RunAcked` | mesh-session/src/reliability.rs:300-318 | Over every run, restarts included, the stored watermark is the largest acknowledged so far. |
| `Delivery.LogIsUnacknowledged` | mesh-storage/src/backend/mem.rs:93-105 | The log holds exactly the logged messages above it: what is acknowledged is freed, nothing else is. |
| `Delivery.DataOwes` | mesh-session/src/reliability.rs:246-285 | Every frame that arrives, new or not, makes the receiver owe an ACK; only sending one or a restart changes that. |
| `Delivery.OwedIsSent` | mesh-session/src/reliability.rs:361-403 | What is owed is sent, with the watermark, once the interval is over. |
| `Delivery.NotOwedNotSent` | mesh-session/src/reliability.rs:361-367 | A second attempt with no data in between sends nothing. |
| `Delivery.DataIsAcknowledged` | mesh-session/src/reliability.rs:238-410 | From any point of any run: after a frame arrives, whatever else happens short of a restart of the receiver, an attempt one interval after the last ACK sends one with the watermark. |
| `Delivery.ResumeAsks` | mesh-session/src/reliability.rs:444-487 | A RESUME sent in a run asks for everything above the watermark and grants the whole window. |
| `Delivery.RunKeepsWrittenOrQueued` | mesh-session/src/reliability.rs:215-232 | In every run each message logged since the sender was created was written or waits in the queue. |
| `Delivery.ReportsAreDeliveries` | mesh-session/src/reliability.rs:238-286 | The receiver's reports are those of deduplication over the arrivals, across re-creation of either side. |
| `Delivery.ReportedExactlyOnce` | mesh-session/src/reliability.rs:238-286 | In-window arrivals are reported exactly once per id; in every run ids at or below the watermark were reported at least once. |
| `Delivery.PacedArrivesInWindow` | mesh-session/src/reliability.rs:188-197 | If every id sent is at most a gap window above the acknowledged watermark, every frame arrives inside the window, in every run. |
| `Delivery.PacedExactlyOnce` | mesh-session/src/reliability.rs:238-286 | Then every message that arrives is reported exactly once. |
| `Delivery.StepConservesCredits` | mesh-session/src/reliability.rs:215-232 | Each event keeps written bytes plus credits equal to the last grant and credits non-negative. |
| `Delivery.RunConservesCredits` | mesh-session/src/reliability.rs:176-345 | Over every run bytes written since the last grant plus credits equal that grant; credits are never negative. |
| `Delivery.AcksAdvertiseEnough` | mesh-session/src/reliability.rs:361-387 | Every ACK of every run advertises more than half of the window and at most all of it. |
| `Delivery.FeedCloses` | mesh-storage/src/backend/mem.rs:176-214 | Ids fed in rising order raise the watermark over any prior gap window. |
| `Delivery.FeedMarks` | mesh-session/src/reliability.rs:238-286 | Processing retransmitted frames in order marks exactly their ids. |
| `Delivery.ResumeAdvances` | mesh-session/src/reliability.rs:579-606 | A fully paid retransmission raises the watermark to the last appended id. |
| `Delivery.ResumeProcessesLogged` | mesh-session/src/reliability.rs:579-606 | Only logged messages are ever processed. |
| `Delivery.SkippedStalls` | mesh-session/src/reliability.rs:188-197 | An id used up without a frame, below a logged one, is never filled in, and in every continuation the watermark stays below it. |
| `Delivery.FailedBuildSkips` | mesh-session/src/reliability.rs:188-197 | A frame that cannot be built followed by one that can leads there. |
| `Delivery.ResumeCompletes` | mesh-session/src/reliability.rs:549-614 | From every reachable state a fully paid retransmission, fed in order, ends with the watermark at the last appended id if and only if no id was used up without a frame. |
| `DataFrames.BuildsIff` | mesh-session/src/reliability.rs:191-197 | Building a DATA frame fails exactly if payload, metadata and 56 bytes exceed 16 MiB. |
| `DataFrames.LargePayloadFails` | mesh-session/src/reliability.rs:191-197 | A payload of 16 MiB cannot be built into a frame. |
| `DataFrames.BuiltDecodes` | mesh-wire/src/codec.rs:147-172 | A built frame decodes to a DATA frame with the id, both nodes, the metadata and the payload, each in its own field. |
| `DataFrames.SendPayload` | mesh-session/src/reliability.rs:176-235 | Sending a payload logs, under the next id, a frame that decodes to that id and payload, and fails exactly if it is too large. |
| `DataFrames.WireCarriesIds` | mesh-session/src/reliability.rs:191-235 | In every run each frame ever written decodes to a DATA frame whose message id is the one under which it was logged. |
| `DataFrames.WireMarks` | mesh-session/src/reliability.rs:238-286 | A receiver that goes by the bytes alone marks exactly the logged id, if it is new and within the window, and nothing else. |
| `ByteCodec.BigEndian` | mesh-wire/src/header.rs:321-382 | The most significant byte comes first. |
| `ByteCodec.LittleEndian` | mesh-storage/src/backend/file.rs:56-75 | The least significant byte comes first. |
| `ByteCodec.FromToBE` | mesh-wire/src/header.rs:321-382 | Reading a big-endian field gives back the number written, when it fits. |
| `ByteCodec.ToFromBE` | mesh-wire/src/header.rs:321-382 | Writing a number read from a field gives back its bytes. |
| `ByteCodec.FromToLE` | mesh-storage/src/backend/file.rs:56-75 | Reading a little-endian field gives back the number written, when it fits. |
| `Header.Fields` | mesh-wire/src/header.rs:321-334 | Each field of an encoded header is at its offset, and only there. |
| `Header.Refusals` | mesh-wire/src/header.rs:337-382 | A header is accepted exactly if it has 48 bytes, version 1, an admitted type, flags and code, a TTL above 0 and a reserved field of 0. |
| `Header.DecodeEncode` | mesh-wire/src/header.rs:321-382 | Decoding an encoded header gives it back exactly if version, TTL and reserved field are admissible, and fails otherwise. |
| `Header.EncodeDecode` | mesh-wire/src/header.rs:337-382 | Every accepted byte string is the encoding of the header read from it. |
| `Frame.Encode` | mesh-wire/src/frame.rs:92-120 | Produces the specified bytes, or a size error above the limit. |
| `Frame.Layout` | mesh-wire/src/frame.rs:92-120 | Each part of an encoded frame at its offset. |
| `Frame.DecodeOutcomes` | mesh-wire/src/frame.rs:138-195 | Too short a buffer is kept, too large a frame is refused and kept, a complete frame is consumed whether its body is good or not. |
| `Frame.BodyOutcomes` | mesh-wire/src/frame.rs:157-192 | A body with an accepted header is refused exactly for a hint or metadata length that does not fit, or metadata above 64 KiB. |
| `Frame.DecodeBodyOf` | mesh-wire/src/frame.rs:157-192 | The body of a well-formed frame decodes to it. |
| `Frame.BodyOfDecoded` | mesh-wire/src/frame.rs:157-192 | Every body that decodes is the body of the well-formed frame it decodes to. |
| `Frame.FrameRoundTrip` | mesh-wire/src/frame.rs:92-195 | Decoding an encoded frame followed by anything gives the frame and leaves the rest. |
| `Frame.RoundTripIff` | mesh-wire/src/frame.rs:92-195 | Exactly the well-formed frames within the limit come back from their bytes. |
| `Frame.DecodedIsCanonical` | mesh-wire/src/frame.rs:138-195 | Whatever decodes is a well-formed frame whose bytes are exactly those consumed. |
| `Frame.ReencodesIff` | mesh-wire/src/frame.rs:92-96 | What was decoded encodes to exactly the bytes consumed if and only if its length stays four bytes below the decoder's limit; otherwise the encoder refuses it. |
| `Frame.EncodedDecodes` | mesh-wire/src/frame.rs:92-195 | What the encoder accepts at a limit the decoder gives back at that limit. |
| `Frame.LargestIsRefused` | mesh-wire/src/frame.rs:92-96 | A frame of the largest length the decoder accepts is refused by the encoder. |
| `Frame.PrefixNeedsMore` | mesh-wire/src/frame.rs:138-155 | A strict prefix of a frame is waited for. |
| `Frame.DecodeFromStream` | mesh-wire/src/frame.rs:138-195 | On any prefix of a stream of frames the decoder returns the first frame or waits; it never fails. |
| `Frame.RecvOutcomes` | mesh-session/src/handshake.rs:44-68 | The end of the stream consumes nothing; a refused frame is reported. |
| `Frame.RecvOneInOrder` | mesh-session/src/handshake.rs:44-68 | Each call returns the next frame sent or the end of the stream, without losing or inventing a byte. |
| `Frame.ReceivedArePrefix` | mesh-session/src/handshake.rs:44-68 | However the stream is cut into reads and wherever it breaks off, the frames returned are an in-order prefix of those sent. |
| `Frame.ArrivedReceivedIff` | mesh-session/src/handshake.rs:44-68 | Also when the connection breaks off inside a frame: all frames that arrived whole are returned exactly if from every read on there are at least as many reads as such frames not complete before it. |
| `Frame.AllReceivedIff` | mesh-session/src/handshake.rs:44-68 | In particular for all frames of a stream that arrives to its end. |
| `Frame.SecondIsHeldBack` | mesh-session/src/handshake.rs:44-68 | Of two frames that arrive in one read, with nothing after, only the first is returned. |
| `Frame.FrameReader.Decode` | mesh-wire/src/frame.rs:138-195 | The decoder on a mutable buffer: waits leave the buffer unchanged, frames and errors consume exactly the frame. |
| `Frame.FrameReader.RecvAnyFrame` | mesh-session/src/handshake.rs:44-68 | The read-then-decode loop terminates and behaves as specified. |
| `Chunk.FlagBits` | mesh-wire/src/header.rs:169-186 | CHUNKED is bit 0 and CHUNK_END bit 1; setting one changes no other; chunks leave 1024 bytes of a frame. |
| `Chunk.ChunkMessage` | mesh-wire/src/chunk.rs:40-68 | The loop over ceil(len/size) chunks produces the specified frames. |
| `Chunk.ChunkHeaders` | mesh-wire/src/chunk.rs:52-63 | Chunk headers differ from the message header in the chunk flags only; CHUNK_END marks the last chunk and, unless already in the header, no other. |
| `Chunk.ChunksAreSendable` | mesh-wire/src/chunk.rs:40-68 | Every chunk frame is well-formed and encodes within the default frame size. |
| `Chunk.Join` | mesh-wire/src/chunk.rs:95-100 | The loop concatenates the chunks in order. |
| `Chunk.AddMeaning` | mesh-wire/src/chunk.rs:85-105 | A frame without CHUNKED is ignored, a chunk is collected under its id, and CHUNK_END gives out all that was collected, in order, and closes the session. |
| `Chunk.Reassembler.Add` | mesh-wire/src/chunk.rs:85-105 | The session map and the completed message are as specified. |
| `Chunk.Independent` | mesh-wire/src/chunk.rs:85-105 | Reassembly treats each message id as if the others were not there. |
| `Chunk.AloneGivesPayload` | mesh-wire/src/chunk.rs:40-105 | The chunks of one message give back its payload once and close its session. |
| `Chunk.RoundTripIff` | mesh-wire/src/chunk.rs:40-105 | A message comes back from its chunks exactly if it has some content and its header lacks CHUNK_END or it fits one chunk. |
| `Chunk.EmptyIsLost` | mesh-wire/src/chunk.rs:41-43 | An empty payload has no chunk and never comes back. |
| `Chunk.EarlyEndSplits` | mesh-wire/src/chunk.rs:52-59 | Under a header that carries CHUNK_END two bytes come back as two messages. |
| `Chunk.InterleavedRoundTrip` | mesh-wire/src/chunk.rs:40-105 | Any interleaving of the chunks of messages with distinct ids yields each payload exactly once and leaves no session open. |
| `Chunk.DecodeAllStream` | mesh-wire/src/frame.rs:138-195 | Decoding a stream of frames returns them all. |
| `Chunk.PipelineRoundTrip` | mesh-wire/src/chunk.rs:40-105 | Chunk, interleave, encode, decode, reassemble: each payload exactly once, no session open, nothing else. |
| `ChunkWire.NothingInvented` | mesh-wire/src/chunk.rs:85-105 | Reassembly gives out no more bytes than its frames carry. |
| `ChunkWire.HintedDecode` | mesh-wire/src/frame.rs:157-192 | A chunk frame whose header claims a hint decodes to a shorter payload or not at all. |
| `ChunkWire.OthersLoseBytes` | mesh-wire/src/frame.rs:138-195 | Under an inadmissible header or one that claims a hint fewer bytes come out of the decoder than the message has. |
| `ChunkWire.ThroughIff` | mesh-wire/src/chunk.rs:40-105 | A message comes back through chunking, encoding, decoding and reassembly exactly if its header is admissible and claims no hint, it has some content, and the header lacks CHUNK_END or one chunk holds it all. |
| `ChunkWire.HintLoses` | mesh-wire/src/frame.rs:157-172 | A header that claims a hint of one byte loses every message. |

## Left out

- Sockets, TLS, certificates, the select loop of a session, and errors of the writer and of storage.
- mesh-grpc (services, tracker, metrics, retry queue), the command line, configuration and logging.
- CBOR, JSON and protobuf: ACK, RESUME and topology payloads are records, frame metadata is bytes.
- The checksum, the hash behind the choice among equal hops, and clocks: parameters or free choices.
- File-system calls, fsync and `state.json`; a scan of bytes in which a new record fills up a torn one.
- The deduplication store of the file backend, which repeats the logic of the in-memory one, and the Redis backend.
- `advance_cum` and `cleanup_old_entries`, which nothing in the program calls.
- `update_routes` with its epochs (batches of single route changes), routing statistics and routing feedback messages.
- Packing of the route field, header validation helpers and the AEAD placeholder; frame types, status codes and flags are their admitted byte values.
- Gossip, SWIM and Raft frame types: no behaviour is implemented for them.
- A node that runs without the session manager: it accepts updates and never passes them on (mesh-bin/src/main.rs:726-739), so it is no node of the flooding model.
- Interleaving of tasks between the database update, the table load and the broadcast: each handler is one event.
- A restart of a node in the flooding model, and more than 2^63 updates of one originator.
- Reliability.ReliabilityManager.Send: takes the frame built, so that its content and the failure of building are stated in DataFrames.SendPayload; the metadata in it stays a parameter.
- Reliability.InOrderIff: runs of sends and ACKs; a RESUME writes frames again by design.
- Termination, Hello and routing-feedback messages of the session manager.
