# Route planner core, modelled in Dafny

This project models the in-memory core of the route planner.

- **The road graph and its search.** Nodes have dense indices, `nodes[i]` is aligned with `adj[i]`, and breadth-first search runs over the adjacency lists.
- **The graph builder.** It maps OSM node ids to dense indices, gives every node an empty adjacency list, and turns each consecutive pair of a way into two mirrored neighbour entries.
- **The benchmark generator.** It builds an `n × n` grid graph with unit-length edges.
- **The parser's record assembly.** Loops turn the XML event stream of an OSM file into ways and nodes, and a filter keeps the nodes that some way refers to.

Five modules follow the source files:

| module | file | source | style |
|---|---|---|---|
| `Model` | `model.dfy` | `core/src/model.rs` | datatypes with getters |
| `RouteGraph` | `graph.dfy` | `core/src/graph.rs` | a `Graph` datatype; `Bfs` is a method over arrays with loop invariants |
| `Builder` | `builder.dfy` | `core/src/builder.rs` | the class `GraphBuilder` |
| `Benchmarking` | `benchmarking.dfy` | `core/src/benchmarking.rs` | `make_grid_graph` as methods over an array of lists |
| `Parser` | `parser.dfy` | `core/src/parser.rs` | the event loops as methods |

**Builder.** The class `GraphBuilder` has the three fields of the source. Each method is specified by a function on `Builder.State`, the value of those three fields. The invariant the builder keeps is `State.Inv`:

- the map and the node list are mutually inverse;
- every neighbour entry points at a node in range and records that node's OSM id;
- entries are mirrored: `(u → v, e)` occurs exactly as often as `(v → u, e)`.

**Benchmark grid.** The list each cell ends up with is `GridAdj`: the cell above, to the left, to the right and below, in that order, as far as they exist. Its properties are proved as lemmas about that function.

**Parser.** Each event loop is a method, and each method is specified by a recursive function over the event sequence (`Ways`, `TaggedWays`, `NodesTable`). Well-formed documents are rendered from `WayBlock` values, which lets the lemmas state what the loops return for them.

## Model

| member | source | states |
|---|---|---|
| `Model.Node.New` | core/src/model.rs:16-41 | the getters of a new node return the id, latitude and longitude it was built from |
| `Model.NodeFromGetters` | core/src/model.rs:23-41 | a node is rebuilt exactly from its three getters |
| `Model.Way.New` | core/src/model.rs:43-61 | the getters of a new way return its id and its node references unchanged |
| `Model.WayFromGetters` | core/src/model.rs:49-61 | a way is rebuilt exactly from `id()` and `node_refs()`, so reading the refs leaves the way as it is |
| `RouteGraph.Graph.New` | core/src/graph.rs:11-24 | `nodes()` and `adj()` of a new graph return exactly the vectors passed in |
| `RouteGraph.Reverse` | core/src/graph.rs:44 | reversing keeps the length, and position `i` of the result is position `len - 1 - i` of the input (proved from the recursive definition) |
| `RouteGraph.Bfs` | core/src/graph.rs:26-59 | if the search returns a path, it is a walk from `start` to `goal` along adjacency entries, it repeats no index, and no walk between the two is shorter; it returns `None` exactly when `goal` cannot be reached from `start`; from `start` to itself it returns `[start]` |
| `RouteGraph.PredecessorChain` | core/src/graph.rs:38-43 | the chain collected from the goal starts at the goal, ends at the start, follows `prev` at every step, and the `i`-th index lies `i` steps nearer the start than the goal |
| `RouteGraph.RebuildPath` | core/src/graph.rs:38-45 | following `prev` back from the goal and reversing gives a repetition-free walk from start to goal with one more index than the goal's distance |
| `RouteGraph.ScanNeighbors` | core/src/graph.rs:49-56 | marking the unvisited neighbours of the dequeued node keeps the predecessor tree, the two-layer FIFO queue and the distances exact; the queue grows only when some node was newly marked |
| `RouteGraph.ChainIsWalk` | core/src/graph.rs:38-44 | a chain of predecessors from the goal back to the start, reversed, is a walk without repetitions of the goal's distance |
| `RouteGraph.ClosedContainsWalks` | core/src/graph.rs:35-58 | once every visited node has all its neighbours visited, every walk from the start ends at a visited node |
| `RouteGraph.UnvisitedIsFar` | core/src/graph.rs:30-35 | while the queue is ordered by distance, a walk to an unvisited node is longer than the distance of every visited node not yet expanded |
| `RouteGraph.ExhaustedUnreachable` | core/src/graph.rs:57-58 | when the queue runs empty without meeting the goal, the goal is unreachable |
| `RouteGraph.GoalDequeued` | core/src/graph.rs:35-46 | when the goal is dequeued, the rebuilt path is no longer than any walk to it, and it is `[start]` when the goal is the start |
| `RouteGraph.MarkLowersCount` | core/src/graph.rs:51-52 | marking an unvisited node lowers the count of unvisited nodes by one, so the search ends |
| `RouteGraph.InitialState` | core/src/graph.rs:27-33 | after marking and enqueuing the start, the loop invariant holds |
| `RouteGraph.PopStep` | core/src/graph.rs:35 | dequeuing a node other than the goal starts a scan with the invariant in place; the second layer of the queue becomes the first when the first runs out |
| `RouteGraph.ScanSkip` | core/src/graph.rs:49-51 | skipping an already visited neighbour keeps the scan invariant |
| `RouteGraph.ScanMark` | core/src/graph.rs:51-54 | marking a neighbour, recording its predecessor and enqueuing it keeps the scan invariant |
| `RouteGraph.Discover` | core/src/graph.rs:51-53 | the newly marked neighbour hangs below the current node in the tree, at the shortest distance |
| `RouteGraph.MarkKeepsQueue` | core/src/graph.rs:51-54 | enqueuing the newly marked neighbour at distance `d + 1` keeps the queue in two layers |
| `RouteGraph.FinishScan` | core/src/graph.rs:49-56 | after all neighbours are scanned, the current node counts as expanded and the loop invariant holds again |
| `RouteGraph.UnexpandedAtLeast` | core/src/graph.rs:35-54 | every visited node not yet expanded is at distance at least `d` |
| `RouteGraph.CycleGraph` | core/src/graph.rs:111-118 | the cycle of the source's test is a well-formed graph of three nodes |
| `RouteGraph.CycleSearch` | core/src/graph.rs:110-123 | around the cycle `0 → 1 → 2 → 0`, the search from 0 to 2 returns `[0, 1, 2]` |
| `RouteGraph.DiamondGraph` | core/src/graph.rs:83-95 | the diamond of the source's test is a well-formed graph of four nodes |
| `RouteGraph.DiamondSearch` | core/src/graph.rs:82-101 | across the diamond the search from 0 to 3 returns `[0, 1, 3]` or `[0, 2, 3]` (see Left out) |
| `RouteGraph.IsolatedGraph` | core/src/graph.rs:130-137 | two nodes without edges form a well-formed graph |
| `RouteGraph.IsolatedSearch` | core/src/graph.rs:130-142 | between two isolated nodes the search returns `None` |
| `RouteGraph.TrivialSearch` | core/src/graph.rs:149-158 | in a one-node graph, the search from 0 to 0 returns `[0]` |
| `Builder.CountTo` | core/src/builder.rs:56-57 | an entry count never exceeds the length of the list |
| `Builder.Link` | core/src/builder.rs:56-57 | the two pushes of `add_edge_bidirectional` keep the number of lists |
| `Builder.PairLengths` | core/src/builder.rs:62-71 | one length per consecutive pair of nodes, and pair `i`'s length is the distance between nodes `i` and `i + 1` (proved from the recursive definition) |
| `Builder.State.Empty` | core/src/builder.rs:33-39 | a new builder has no nodes, no lists and an empty map, and satisfies the invariant |
| `Builder.State.AddNode` | core/src/builder.rs:41-50 | a fresh id: the node is appended with an empty list, mapped to the old node count, and that count is returned. A mapped id: the builder is unchanged and the OSM id itself is returned. Either way nothing moves, no entry is added, and the invariant is kept |
| `Builder.State.AddNodeIndexed` | core/src/builder.rs:41-50 | the same change to the builder as `add_node`, returning the index where the id is stored (see Findings) |
| `Builder.State.AddEdge` | core/src/builder.rs:53-58 | the edge is added exactly when both ids are mapped, otherwise it fails (the source panics). The entry to `to` is appended to the list of `from` and the mirror entry to the list of `to`; no other list, node or mapping changes; the total grows by two; the invariant is kept |
| `Builder.State.WayStep` | core/src/builder.rs:63-72 | one pair of a way registers both nodes, adds two entries and keeps the invariant; which entries go where is `Builder.WayStepLists` |
| `Builder.State.WayPrefix` | core/src/builder.rs:62-73 | after the first `i` pairs every node up to `i` is registered, nothing registered earlier is lost, `2·i` entries were added, and the invariant is kept; the lists themselves are `Builder.WayPrefixLists` |
| `Builder.State.AddWay` | core/src/builder.rs:60-74 | a way of `k ≥ 2` nodes registers every node and adds `2·(k−1)` entries; a one-node way changes nothing; the invariant is kept; the lists themselves are `Builder.AddWayLists` |
| `Builder.State.Build` | core/src/builder.rs:76-78 | the graph holds exactly the accumulated nodes and lists |
| `Builder.BuildSpec` | core/src/builder.rs:41-78 | a builder that kept its invariant builds a well-formed graph in which `v` is a neighbour of `u` exactly when `u` is a neighbour of `v` |
| `Builder.CountAppend` | core/src/builder.rs:56-57 | appending an entry raises the count of exactly that target and edge data by one |
| `Builder.CountAbsent` | core/src/builder.rs:56-57 | a list without entries pointing at `v` counts none |
| `Builder.CountPositive` | core/src/builder.rs:56-57 | a list holding an entry to `v` with data `e` counts it |
| `Builder.CountWitness` | core/src/builder.rs:56-57 | a positive count has an entry behind it |
| `Builder.TotalAppend` | core/src/builder.rs:48 | appending a list adds its length to the total |
| `Builder.TotalUpdate` | core/src/builder.rs:56-57 | replacing one list changes the total by the difference of the lengths |
| `Builder.LinkLists` | core/src/builder.rs:56-57 | the two pushes change exactly the lists of `from` and `to` |
| `Builder.LinkTotal` | core/src/builder.rs:56-57 | the two pushes add two entries in all |
| `Builder.LinkSymmetric` | core/src/builder.rs:56-57 | the two pushes keep the entries mirrored |
| `Builder.LinkKeeps` | core/src/builder.rs:53-58 | adding an edge between two mapped ids keeps the invariant |
| `Builder.FreshNodeKeeps` | core/src/builder.rs:45-49 | appending a fresh node with an empty list keeps the invariant |
| `Builder.GraphBuilder.constructor` | core/src/builder.rs:33-39 | `GraphBuilder::new` is the empty builder |
| `Builder.GraphBuilder.AddNode` | core/src/builder.rs:41-50 | the fields and the result are those of `State.AddNode` |
| `Builder.GraphBuilder.AddEdgeBidirectional` | core/src/builder.rs:53-58 | succeeds exactly when both ids are mapped, and then updates the fields as `State.AddEdge` does; on failure nothing changes |
| `Builder.GraphBuilder.AddWay` | core/src/builder.rs:60-74 | the fields become `State.AddWay` with the lengths of the distance function; every id keeps its index and each list becomes its old list followed by the entries of the way's pairs at that index, in the order of the way; the invariant is kept |
| `Builder.GraphBuilder.Build` | core/src/builder.rs:76-78 | the graph of `State.Build`, well formed |
| `Builder.DuplicateReturnsOsmId` | core/src/builder.rs:42-44 | adding the same node twice returns its OSM id the second time, an index beyond the node list, while the stored index is 0 |
| `Builder.TwoNodesState` | core/src/builder.rs:41-50 | two nodes with distinct ids sit at indices 0 and 1 with empty lists |
| `Builder.ThreeNodesExample` | core/src/builder.rs:85-100 | three added nodes give three nodes, three lists, and an empty first list |
| `Builder.OneEdgeExample` | core/src/builder.rs:102-121 | linking two added nodes puts one entry in each list |
| `Builder.AddNodeLists` | core/src/builder.rs:41-50 | `add_node` keeps every index and every list; a slot it adds is empty |
| `Builder.AddEdgeLists` | core/src/builder.rs:53-58 | on two registered ids each list gains exactly `PairGain`: the entry towards `to` at `from`'s index, then the entry towards `from` at `to`'s index, both in one list when the indices coincide |
| `Builder.WayStepLists` | core/src/builder.rs:63-72 | for any builder and any pair (new or registered nodes, equal ids or not) every id keeps its index and each list is its old list, or the empty list of a new slot, followed by what the pair appends to it |
| `Builder.WayGainKept` | core/src/builder.rs:62-73 | the entries of a way's pairs depend only on the indices of its nodes |
| `Builder.WayGainElsewhere` | core/src/builder.rs:62-73 | a list whose index is that of no node of the way gains nothing |
| `Builder.WayGainTagged` | core/src/builder.rs:68-71 | every entry a way adds carries the way's id and the length of one of its pairs |
| `Builder.WayPrefixLists` | core/src/builder.rs:62-73 | after the first `i` pairs, every id keeps its index and each list is its old list (or the empty list of a new slot) followed by the entries of the pairs `j < i` at its index, in order of `j` |
| `Builder.PrefixStepLists` | core/src/builder.rs:62-73 | one more pair extends the lists of the first `i - 1` pairs by that pair's entries |
| `Builder.PrefixListStep` | core/src/builder.rs:62-73 | the same for one list |
| `Builder.AddWayLists` | core/src/builder.rs:60-74 | after `add_way`, every id keeps its index and each list ends with exactly the entries the way's pairs give it, in the order of the way |
| `Builder.AddWayLeavesOthers` | core/src/builder.rs:60-74 | under the invariant, the list of a registered node that is not on the way is unchanged |
| `Builder.OthersKept` | core/src/builder.rs:60-74 | the same on plain values, given that ids and indices correspond one to one |
| `Builder.RepeatedNodeWay` | core/src/builder.rs:60-74 | a way `[n, n]` on an empty builder stores `n` once and its list holds both entries of the self-loop |
| `Builder.WayStepExtends` | core/src/builder.rs:63-72 | a pair whose second node is new appends that node and the two mirrored entries |
| `Builder.WayStepFresh` | core/src/builder.rs:63-72 | a pair of two new nodes appends both and the two mirrored entries |
| `Builder.TwoNodeWay` | core/src/builder.rs:60-74 | a two-node way is a single pair step |
| `Builder.ThreeNodeWay` | core/src/builder.rs:60-74 | a three-node way is two pair steps in order |
| `Builder.FirstWayLists` | core/src/builder.rs:60-74 | the second pair of a three-node way gives the lists `[n2]`, `[n1, n3]`, `[n2]` |
| `Builder.FirstWayState` | core/src/builder.rs:60-74 | a three-node way with distinct ids, added to an empty builder, gives exactly those nodes, map and lists, each edge tagged with the way id and its length |
| `Builder.OneWayExample` | core/src/builder.rs:123-145 | a three-node way gives degrees 1, 2, 1, with the middle node's neighbours in the order of the way |
| `Builder.SharedNodeLists` | core/src/builder.rs:147-206 | a shared node collects its neighbours in the order the ways are added |
| `Builder.LaterWays` | core/src/builder.rs:147-206 | adding ways `[3, 4]` and `[3, 5, 6]` after `[1, 2, 3]` gives node 3 the neighbours 2, 4 and 5 |
| `Builder.MultipleWaysExample` | core/src/builder.rs:147-206 | the two-way and three-way tests: 4 then 6 nodes, and node 3 lists 2, 4, then 2, 4, 5 |
| `Benchmarking.LinkSeq` | core/src/benchmarking.rs:18-22 | `link` keeps the number of lists |
| `Benchmarking.IdxIsProduct` | core/src/benchmarking.rs:27 | the row-major index of `(row, col)` is `row * n + col` |
| `Benchmarking.IdxInjective` | core/src/benchmarking.rs:27 | two cells with the same index are the same cell |
| `Benchmarking.IdxCovers` | core/src/benchmarking.rs:27 | every index below `n * n` is the index of the cell `(v / n, v % n)` |
| `Benchmarking.StepBounds` | core/src/benchmarking.rs:27-35 | `idx`, `idx + 1` (with a right neighbour) and `idx + n` (with a neighbour below) are all below `n * n` |
| `Benchmarking.LinkAt` | core/src/benchmarking.rs:18-22 | `link(u, v)` appends `v` to `adj[u]`, `u` to `adj[v]`, and touches no other list |
| `Benchmarking.StepLinks` | core/src/benchmarking.rs:26-36 | the two conditional links of one cell append to each list exactly what `Gain` says |
| `Benchmarking.GainCell` | core/src/benchmarking.rs:25-37 | processing one cell turns every cell's list from its state before that cell into its state after it |
| `Benchmarking.StepAdvances` | core/src/benchmarking.rs:26-36 | processing cell `(row, col)` advances the invariant of the inner loop by one cell |
| `Benchmarking.RowEnd` | core/src/benchmarking.rs:25-37 | the state at the end of a row is the state at the start of the next |
| `Benchmarking.FirstCell` | core/src/benchmarking.rs:15 | before the first cell, every list is empty |
| `Benchmarking.LastRow` | core/src/benchmarking.rs:25-37 | after the last row, every list is complete |
| `Benchmarking.LinkCell` | core/src/benchmarking.rs:26-36 | the body of the inner loop: each list gains what `Gain` says |
| `Benchmarking.GridNodes` | core/src/benchmarking.rs:8-12 | `n * n` nodes, node `i` with id `i` at (0, 0) |
| `Benchmarking.GridLinks` | core/src/benchmarking.rs:15-37 | `n * n` lists, the list of cell `(r, c)` being `GridAdj(n, r, c)` |
| `Benchmarking.MakeGridGraph` | core/src/benchmarking.rs:6-40 | `n * n` nodes and lists; node `i` has id `i`; the list of every cell lists its up, left, right and down neighbours as they exist; the graph is well formed; there are `4·n·(n−1)` entries in all |
| `Benchmarking.GridEntries` | core/src/benchmarking.rs:18-35 | every entry is a unit entry to one of the four grid neighbours |
| `Benchmarking.GridMember` | core/src/benchmarking.rs:28-35 | an index is listed for a cell exactly when it is one of that cell's grid neighbours |
| `Benchmarking.GridEntryFields` | core/src/benchmarking.rs:19-21 | every entry points below `n * n` and has OSM id 0, way 0 and length 1 |
| `Benchmarking.GridDegree` | core/src/benchmarking.rs:25-37 | every cell has at most four neighbours, and at least two once `n ≥ 2` |
| `Benchmarking.GridDegreeExact` | core/src/benchmarking.rs:25-37 | a cell has one neighbour for each of its sides that is not on the border |
| `Benchmarking.GridEdgeIff` | core/src/benchmarking.rs:25-37 | cell `(r', c')` is listed for `(r, c)` exactly when the two are at Manhattan distance one |
| `Benchmarking.GridSymmetric` | core/src/benchmarking.rs:18-22 | `(r', c')` is listed for `(r, c)` exactly when `(r, c)` is listed for `(r', c')` |
| `Benchmarking.GridGraph` | core/src/benchmarking.rs:6-40 | the grid graph is well formed and has an edge between two cells exactly when they are grid-adjacent |
| `Benchmarking.PrefixEntries` | core/src/benchmarking.rs:25-37 | the lists of the cells before `(r, c)` in row-major order hold the closed-form count `BeforeCount(n, r, c)` of entries |
| `Benchmarking.GridTotal` | core/src/benchmarking.rs:25-37 | the grid holds `4·n·(n−1)` entries, two per edge |
| `Parser.ReadWayId` | core/src/parser.rs:40-46 | the loop over a way start's attributes yields `WayId` |
| `Parser.WayIdDefault` | core/src/parser.rs:39-46 | without an `id` attribute a way's id is 0; a trailing `id` attribute sets it |
| `Parser.PushRefs` | core/src/parser.rs:51-57 | the refs of an `nd` element are appended in order |
| `Parser.NdRefsAppend` | core/src/parser.rs:51-57 | the refs of two attribute lists, concatenated, are the refs of each in turn |
| `Parser.ReadTagKey` | core/src/parser.rs:148-154 | the loop over a tag's attributes yields `TagKey`, the last `k` value if any |
| `Parser.Elements` | core/src/parser.rs:15-19 | the set of refs holds exactly the refs of the sequence |
| `Parser.RoadIdsMembers` | core/src/parser.rs:15-20 | an id is in the road-id set exactly when some way refers to it |
| `Parser.InsertRefs` | core/src/parser.rs:17-19 | the inner loop adds exactly the refs of one way to the set |
| `Parser.FilterNodesOnWays` | core/src/parser.rs:14-25 | the result is the order-preserving filter of `nodes` by the road-id set of `ways` |
| `Parser.KeepReferencedMembers` | core/src/parser.rs:22-24 | a node is kept exactly when it is an input node whose id some way refers to; the output is no longer than the input |
| `Parser.KeepReferencedAppend` | core/src/parser.rs:22-24 | filtering commutes with concatenation, so input order is kept |
| `Parser.KeepReferencedCounts` | core/src/parser.rs:22-24 | a referenced node is kept as often as it occurs, any other node not at all |
| `Parser.FilterExample` | core/src/parser.rs:225-239 | four nodes filtered by ways referring to 1, 2 and 3 leave the first three |
| `Parser.ParseWays` | core/src/parser.rs:29-75 | the loop returns `Ways(events, [])` |
| `Parser.ParseWaysWithTags` | core/src/parser.rs:117-177 | the loop returns `TaggedWays(events, filters, [])` |
| `Parser.InsertNode` | core/src/parser.rs:87-104 | the attribute loop of a `node` element updates the table as `NodeAttrs` does |
| `Parser.CollectValues` | core/src/parser.rs:113 | one node per table entry, exactly the table's values, no id twice |
| `Parser.ParseNodes` | core/src/parser.rs:78-114 | one node per distinct id recorded by `NodesTable`; exactly the recorded nodes; no id twice |
| `Parser.NodeAttrsKeyed` | core/src/parser.rs:101-102 | every node is inserted under its own id |
| `Parser.NodesTableKeyed` | core/src/parser.rs:83-105 | every node of the table stays under its own id |
| `Parser.SeenKeepsComplete` | core/src/parser.rs:95-101 | once id, lat and lon are seen they stay seen |
| `Parser.SeenComplete` | core/src/parser.rs:95-101 | id, lat and lon are each seen exactly when they were before or an attribute of that kind occurs |
| `Parser.IncompleteUnchanged` | core/src/parser.rs:101-103 | a `node` element lacking an id, lat or lon records nothing |
| `Parser.NodeEventRecords` | core/src/parser.rs:91-103 | a `node` element with id, lat and lon records that node under its id, overwriting an earlier one |
| `Parser.NodesTableAppend` | core/src/parser.rs:83-111 | the table of concatenated events is the table of the second part, started from that of the first |
| `Parser.IdsOf` | core/src/parser.rs:81 | an id is in the set exactly when some node of the sequence has it |
| `Parser.NodesOfElements` | core/src/parser.rs:83-111 | the keys after a sequence of `node` elements are the old keys plus the new ids; each key holds the last node with that id; untouched keys keep their nodes |
| `Parser.NodesOfOsm` | core/src/parser.rs:84-107 | the `osm` wrapper records nothing |
| `Parser.ParseNodesExample` | core/src/parser.rs:192-204 | three `node` elements with distinct ids give three nodes |
| `Parser.StartAttrsId` | core/src/parser.rs:39-46 | the way start of a block carries the block's id, or none |
| `Parser.ItemEventRefs` | core/src/parser.rs:50-57 | item events are neither way starts nor way ends; an `nd` item pushes its ref |
| `Parser.WayBodyItems` | core/src/parser.rs:48-65 | the inner loop over a way's items collects the refs of its `nd` items in order |
| `Parser.WaysOfBlock` | core/src/parser.rs:37-67 | a way block yields one way: its id (0 without one) and its refs |
| `Parser.UnclosedWay` | core/src/parser.rs:59-66 | a way cut off by end of file is still emitted with the refs read so far |
| `Parser.WaysOfDocument` | core/src/parser.rs:35-73 | a document of way blocks yields one way per block, in order |
| `Parser.ItemEventMatches` | core/src/parser.rs:147-156 | an item's event is a matching tag exactly when the item is a tag whose key is a filter |
| `Parser.TaggedBodyItems` | core/src/parser.rs:136-168 | the inner loop stops at the first matching tag with the refs of the `nd` items before it, or meets the end tag with no way to emit |
| `Parser.TaggedSkipsItems` | core/src/parser.rs:123-175 | the outer loop ignores the rest of a way after the matching tag |
| `Parser.TaggedOfMatchingBlock` | core/src/parser.rs:147-160 | a block with a matching tag yields its id and the refs before that tag |
| `Parser.TaggedOfPlainBlock` | core/src/parser.rs:162 | a block without a matching tag yields nothing |
| `Parser.TaggedOfBlock` | core/src/parser.rs:125-168 | a block yields `KeptWay`: the way up to its first matching tag, or nothing |
| `Parser.TaggedOfDocument` | core/src/parser.rs:123-175 | a document of blocks yields the kept way of each block, in order |
| `Parser.UnclosedTaggedWay` | core/src/parser.rs:155-163 | a way cut off by end of file is emitted only if a matching tag came before the end |
| `Parser.Nds` | core/src/parser.rs:50-57 | a run of `nd` items, one per ref |
| `Parser.NdsRefs` | core/src/parser.rs:50-57 | a run of `nd` items carries exactly its refs |
| `Parser.MatchIndexNds` | core/src/parser.rs:147-160 | no `nd` item is a matching tag |
| `Parser.NdsBlockKept` | core/src/parser.rs:147-160 | refs then one tag: the way is kept with id 0 exactly when the tag's key is a filter |
| `Parser.WaysOfOsm` | core/src/parser.rs:35-73 | inside the `osm` element, one way per block |
| `Parser.TaggedOfOsm` | core/src/parser.rs:123-175 | inside the `osm` element, the kept way of each block |
| `Parser.ParseWaysExample` | core/src/parser.rs:206-224 | two ways without ids with refs `[x, y]` and `[z]` give exactly those two ways, both with id 0 |
| `Parser.TaggedExample` | core/src/parser.rs:263-293 | four tagged ways where only the third key is not a filter give the first, second and fourth ways |
| `Parser.MatchingFour` | core/src/parser.rs:123-175 | four blocks yield their kept ways in order |
| `Parser.WayBodyStarts` | core/src/parser.rs:48-65 | the inner loop never adds way starts to what remains |
| `Parser.TaggedBodyStarts` | core/src/parser.rs:136-168 | likewise for the tagged inner loop |
| `Parser.WaysAtMostStarts` | core/src/parser.rs:35-73 | `parse_ways` emits at most one way per way start |
| `Parser.TaggedAtMostStarts` | core/src/parser.rs:123-175 | `parse_ways_with_tags` emits at most one way per way start |
| `Parser.BlockWaysExact` | core/src/parser.rs:37-67 | exactly one way per block, the `i`-th from the `i`-th block |
| `Parser.MatchingWaysFewer` | core/src/parser.rs:155-160 | filtering by tags never yields more ways than blocks |
| `Parser.WaysAppend` | core/src/parser.rs:33-66 | earlier ways stay in front: the emitted ways extend what was pushed before |
| `Parser.TaggedAppend` | core/src/parser.rs:121-157 | likewise for `parse_ways_with_tags` |

## Left out

- `haversine_distance` (core/src/builder.rs:8-21) is floating-point trigonometry. Edge lengths come from a distance function that is a parameter of `GraphBuilder.AddWay`, returning non-negative reals. Latitude and longitude are reals that the model only copies.
- The XML reader is not modelled: tokenising, UTF-8 decoding, and parsing numbers from strings, together with their `expect`, `panic!` and `attr?` error paths. The parser works on a sequence of already decoded events, and the end of that sequence is the reader's end-of-file event.
- `trim_text(true)` only drops whitespace text events, which the loops ignore anyway; it has no counterpart.
- `parse_nodes` and `CollectValues` leave the order of the returned nodes open, because the source collects them from a `HashMap`. The model fixes no order and states only size, membership and distinct ids.
- `RouteGraph.DiamondSearch`: the contract of `Bfs` does not state the tie-break by adjacency order. For the diamond it proves that the result is `[0, 1, 3]` or `[0, 2, 3]`, not that it is `[0, 1, 3]`. The method itself scans the lists in the source's order.
- `Neighbor` and `EdgeData` are imported from `core/src/model.rs`, but that file does not define them. They are modelled from their uses in graph.rs, builder.rs and benchmarking.rs.
- The builder calls `Way::new(id, refs, nodes)` and `way.nodes()`, which `core/src/model.rs` does not define. The builder's way is modelled as `Builder.ResolvedWay`, an id plus the node references and the nodes; the parser's way is `Model.Way`.
- `add_edge_bidirectional` panics on an id that was never added. `Builder.State.AddEdge` returns `None` there and the method returns `false`, leaving the builder unchanged.
- `Builder.GraphBuilder.AddWay` requires a non-empty way, because `len() - 1` underflows and panics on an empty one.
- The source's `GraphBuilder` fields `nodes` and `adj` are public. The model assumes they change only through the builder's methods.
- `Benchmarking.MakeGridGraph` and `Benchmarking.GridNodes` require `n * n` to fit in a `usize`. For larger `n` the source overflows.
- `usize` is taken to be 64 bits wide: `USIZE_LIMIT` is 2^64, and `node.id() as usize` in `add_node` (core/src/builder.rs:43) is modelled as the identity on the `u64` id (`Builder.State.AddNode`). On a 32-bit target the cast truncates the id and the grid limit is 2^32; neither is modelled.
- `make_grid_graph` is split into `GridNodes`, `GridLinks`, `LinkCell` and `Link`, following its numbered steps and its closure.
- The builder, parser and search tests are stated for any nodes with the tested ids and for any edge lengths, rather than with the test's coordinates.
- The dhat heap-profiling tests in core/src/benchmarking.rs call a five-argument `bfs` and `special_dijkstra`. Neither is defined in the code modelled here, so those searches are not part of this model.
- `core/src/lib.rs`, `core/src/main.rs`, `src/main.rs`, `core/tests/parser_test.rs` and the frontend (file I/O, the HTTP server, the UI) are not part of this model.

## Findings

| source | as written | input that shows it | evidently intended | confidence | as-written member | corrected member |
|---|---|---|---|---|---|---|
| core/src/builder.rs:42-44 | `add_node` on an id already mapped returns `node.id() as usize`, the OSM id | add node 7 to an empty builder, then add it again: the second call returns 7, but the node is stored at index 0 and there is no index 7 | return the stored dense index `id_to_idx[id]` | not executed | `Builder.DuplicateReturnsOsmId` (on `Builder.State.AddNode`, which keeps the source's behaviour) | `Builder.State.AddNodeIndexed` |

`Builder.State.AddWay` uses the corrected `AddNodeIndexed` for each pair. The source ignores the returned value, so the builder's state is the same either way. The class method `Builder.GraphBuilder.AddNode` keeps the source's return value.
