# sat-net in Dafny

sat-net simulates a low-orbit satellite constellation as a series of
network snapshots, one per time step. Satellites `Sat<p><n>` are linked to
their ring neighbour in the same orbital plane and to the satellite with
the same index in the next plane. Each ground facility is linked to the
satellite its access chain reports for that time step. Flows (satellite to
facility) are generated per snapshot. The flow controller then looks for a
primary path and a link-disjoint backup path for every flow, in every
snapshot the flow spans. Each path passes only if every hop has the flow's
bandwidth, and bandwidth is charged only when both paths were found. An
edge-betweenness calculator scores links by the satellite-to-facility
shortest paths that run over them.

This project models that core:

- the graph operations the code relies on (networkx's undirected graph as
  a value: nodes, adjacency, per-link attributes);
- the singleton statistics counter;
- the flow generator and the node classifier;
- the time-index helpers: nearest snapshot, time windows, floor
  approximation, time-string truncation;
- the topology builder: satellite links from the distance table, facility
  links from the chain files, spectrum and bandwidth initialisation,
  both in `src/network/topo_builder.py` and in the older root
  `topo_builder.py`;
- the flow controller: path search through a k-shortest-paths oracle,
  resource check, allocation, the per-flow window, the flow loop;
- the static edge-betweenness calculator: breadth-first search with
  path counts, dependency accumulation, key filtering, rescaling,
  writing the attribute, both as written (one orientation of the link
  read) and corrected (the link's whole credit);
- the older traffic generator: path switching, a clamped bandwidth drain,
  backup paths around the primary's interior;
- the data-gathering side of the STK scripts: the neighbour rule,
  distance table, time list, chain snapping, and the guards that raise;
- the free-wavelength lookup of `test.py`.

Python exceptions are modelled as values: `Outcome<T> = Ok(value) |
Raised(fault)`, where `Fault` names the exception class (`KeyError`,
`IndexError`, `ValueError`, `TypeError`, `ZeroDivisionError`,
`NodeNotFound`, or a plain `Exception` with its message). Time stamps are
integers (seconds). Bandwidths, distances and betweenness values are
`real`. The networkx path searches (`shortest_path`, `shortest_simple_paths`),
STK's access computations and `strptime` are function parameters; lemmas
that need them to behave state that as a `SoundOracle`/`SoundFinder`
precondition (every returned path is a simple path between the requested
endpoints). `random.choice` and `random.uniform` are nondeterministic
choices inside the generator's loop.

Modules: `Common` (shared vocabulary), `Graphs`, `Counters`, `TimeGrid`,
`NodeLists`, `TopoBuilder`, `FlowGen`, `FlowControl`, `Betweenness`,
`OldTraffic`, `Stk`, `Wavelengths`.

Points where the code does less, or other, than its names suggest:

- The code has no wavelength allocator or sharing policy: the builder
  only initialises `wavelengths`, `share_degree` and `bandwidth_usage`
  (`TopoBuilder.InitSpectrum`), and the controller allocates bandwidth
  only.
- Satellite names are `Sat{p}{n}` with no separator (`Stk.SatName`).
- The facility pattern in `find_path` is `^Facility`
  (`FlowControl.IsFacility`), while the node classifier tests for the
  substring `Fac` (`NodeLists.KindOf`).

## Model

| member | source | states |
|---|---|---|
| Common.Without | old_traffic_generator.py:133-134 | removing a node from a list keeps exactly the other members and keeps a duplicate-free list duplicate-free |
| Common.Contains | src/network/flow_generator.py:95 | Python's substring test `sub in s`: true iff `sub` occurs at some position of `s` |
| Common.FindSub | src/network/topo_builder.py:90 | the first occurrence of a separator, or none when it does not occur anywhere |
| Common.LastIndexOf | src/utils/tools.py:63-64 | `rfind`: the position of the character with no later occurrence |
| Common.FirstIndexOf | src/stk/stk_manager.py:212 | the position of the character with no earlier occurrence |
| Common.Split | src/network/topo_builder.py:68 | `str.split(sep)` yields at least one piece |
| Common.SplitJoin | src/network/topo_builder.py:68 | joining the pieces of a split with the separator gives back the original string |
| Common.SplitPiecesFree | src/network/topo_builder.py:90 | no piece of a split contains the separator |
| Common.Decimal | old_traffic_generator.py:67 | the decimal spelling of a natural number is a non-empty string of digits, with at least two digits from 10 on |
| Common.DecimalOneDigit | run_stk.py:169 | a number below 10 is spelled by its single digit |
| Common.LexIrreflexive | src/stk/stk_manager.py:211 | Python's string order is irreflexive |
| Common.LexTransitive | src/stk/stk_manager.py:211 | Python's string order is transitive |
| Common.LexTotal | src/stk/stk_manager.py:211 | Python's string order is total on distinct strings |
| Graphs.Merge | src/network/topo_builder.py:109 | `add_edge` with keyword attributes overwrites exactly the attributes given and keeps every other attribute of an existing link |
| Graphs.EdgeSymmetric | src/network/flow_controller.py:151 | in an undirected graph `has_edge(u, v)` iff `has_edge(v, u)` |
| Graphs.SetAttr | old_traffic_generator.py:113 | writing a link's attribute dict sets it under both orientations and changes no other link, node or adjacency |
| Graphs.SetAttrValid | old_traffic_generator.py:113 | writing a link attribute keeps the graph well formed |
| Graphs.RemoveEdge | src/network/flow_controller.py:112 | after `remove_edge(u, v)` no link between `u` and `v` remains, only links that existed before remain, and the others keep their attributes |
| Graphs.RemoveEdgeValid | src/network/flow_controller.py:111-112 | removing a link keeps the graph well formed and keeps every other link |
| Graphs.RemoveNode | src/network/flow_controller.py:117-118 | `remove_node(n)` drops `n` and exactly the links at `n`; every other link keeps its attributes |
| Graphs.RemoveNodeValid | src/network/flow_controller.py:117-118 | removing a node keeps the graph well formed |
| Graphs.RemoveNodes | src/network/flow_controller.py:87 | `remove_nodes_from` leaves exactly the nodes not listed, only old links, and untouched attributes between kept nodes |
| Graphs.RemoveNodesValid | src/network/flow_controller.py:87 | removing a node list keeps the graph well formed and keeps every link between kept nodes |
| Graphs.AddNode | src/network/topo_builder.py:105-108 | `add_node` adds the node once (no-op when present) and changes no link |
| Graphs.AddNodeValid | src/network/topo_builder.py:105-108 | adding a node keeps the graph well formed |
| Graphs.AddEdge | src/network/topo_builder.py:72 | `add_edge(u, v, **attrs)` adds any missing endpoint, creates or updates exactly the link `{u, v}`, merges the attributes, and leaves every other link unchanged |
| Graphs.AddEdgeValid | src/network/topo_builder.py:72 | adding a link keeps the graph well formed |
| Graphs.Edges | src/network/edge_weight_calculator.py:81 | `G.edges()` reports every link of a well-formed graph under one orientation only, and nothing that is not a link |
| Graphs.UpdateEdges | src/network/topo_builder.py:47-51 | a loop over `graph.edges()` that rewrites each link's attributes rewrites every link and nothing else, keeping nodes and adjacency |
| Graphs.ChargeIsHops | src/network/flow_controller.py:175-181 | charging a demand along a path takes it from a link once for every hop that runs over that link |
| Counters.Bump | src/utils/counter.py:25-29 | the usage count of the node goes up by one, from 0 when absent; every other count is unchanged |
| Counters.BlockedRate | src/utils/counter.py:43-44 | blocked / total times 100, and 0 when no flow was counted; between 0 and 100 when the counts are consistent |
| Counters.BlockedRateMonotone | src/utils/counter.py:43-44 | more blocked flows never lowers the rate |
| Counters.Counter.constructor | src/utils/counter.py:15-23 | a first initialisation zeroes all counts and empties the node usage dict |
| Counters.Counter.Reset | src/utils/counter.py:16-23 | the first-time initialisation body zeroes every count |
| Counters.Counter.IncrementNodeUsage | src/utils/counter.py:25-29 | node usage becomes `Bump` of the old dict; the other counters are unchanged |
| Counters.Counter.GetNodeUsage | src/utils/counter.py:31-32 | returns the node usage dict |
| Counters.Counter.IncrementTotalFlows | src/utils/counter.py:34-35 | total flows goes up by one and nothing else changes |
| Counters.Counter.IncrementBlockedFlows | src/utils/counter.py:37-38 | blocked flows goes up by one and nothing else changes |
| Counters.Counter.IncrementCountSwitches | src/utils/counter.py:40-41 | switches go up by one and nothing else changes |
| Counters.Counter.GetBlockedRate | src/utils/counter.py:43-44 | returns the blocked rate of the current counts |
| Counters.CounterClass.constructor | src/utils/counter.py:6-8 | the class starts with no instance and not initialised |
| Counters.CounterClass.Call | src/utils/counter.py:10-23 | `Counter()` returns the one shared instance: a fresh zeroed counter on the first call, the same object with its counts untouched afterwards |
| Counters.SingletonKeepsCounts | src/utils/counter.py:10-13 | two `Counter()` calls give the same object, so a count bumped through the first is seen through the second |
| TimeGrid.Bisect | src/network/topo_builder.py:115 | the binary search keeps everything left of its window below the target and everything right of it at or above |
| TimeGrid.BisectLeft | src/network/topo_builder.py:115 | on a sorted list, `bisect_left` splits it into the entries below the target and those at or above |
| TimeGrid.NearestIndex | src/network/topo_builder.py:113-131 | `find_time_index`: 0 for an empty list or a target at or before the first time, the last index for a target after the last time, else a valid index |
| TimeGrid.NearestIsClosest | src/network/topo_builder.py:124-131 | on a sorted list the chosen snapshot is at least as close to the target as every other snapshot |
| TimeGrid.NearestTiesEarlier | src/network/topo_builder.py:128-129 | on a strictly sorted list every earlier snapshot is strictly farther, so a tie picks the earlier one |
| TimeGrid.ExactIndex | gen_topo.py:94-99 | the index of an exact match, none iff the time is absent (on a sorted list), and the first such index |
| TimeGrid.Window | src/utils/tools.py:18-24 | exactly the indices whose time lies in `[start, start + duration]`, in ascending order |
| TimeGrid.WindowIndices | old_traffic_generator.py:49-55 | the loop collects exactly the window of `Window` |
| TimeGrid.EmptyWindow | src/utils/tools.py:19-22 | a zero duration keeps only the time equal to the start |
| TimeGrid.FirstAfter | run_stk.py:370-372 | the inner loop stops at the first time after the target; every earlier time is at or before it |
| TimeGrid.GridFloor | run_stk.py:368-373 | none iff the list is empty or starts after the target; otherwise a list entry at or before the target |
| TimeGrid.FloorIsGreatest | run_stk.py:366-376 | on a sorted list the approximation is the greatest list time at or before the target, and none iff all list times are later |
| TimeGrid.FloorAll | run_stk.py:366-376 | the approximations are list times, at most one per input; when every input has a floor, the `i`-th approximation is the floor of the `i`-th input |
| TimeGrid.FloorAllLength | run_stk.py:374-375 | the output has one entry per input iff every input has a list time at or before it; otherwise inputs are dropped |
| TimeGrid.ApproximateTime | run_stk.py:366-376 | the nested loop computes `FloorAll` |
| TimeGrid.FirstAfterBound | run_stk.py:370-372 | an index whose time is at or before the target lies before the stopping point |
| TimeGrid.FirstAfterStop | run_stk.py:370-372 | the loop stops exactly at the first later time |
| TimeGrid.Truncated | src/utils/tools.py:63-64 | a string with no dot is kept; otherwise it is cut at its last dot, which is dropped |
| TimeGrid.TruncateTimes | src/utils/tools.py:60-67 | `ValueError` iff some truncated string does not parse; otherwise one parsed time per string, in order |
| NodeLists.KindOf | src/network/flow_generator.py:95-98 | a node is a satellite iff its name contains `Sat`, a facility iff it contains `Fac` and not `Sat` |
| NodeLists.OfKind | src/network/flow_generator.py:94-98 | the filtered list holds only nodes of the requested kind |
| NodeLists.OfKindMembers | old_traffic_generator.py:193-204 | a node is in the list of a kind iff it is a graph node of that kind |
| NodeLists.OfKindOrder | src/network/flow_generator.py:94-100 | the filtered list keeps the graph's node order |
| NodeLists.KindsDisjoint | src/network/flow_generator.py:95-98 | no node is in both lists |
| NodeLists.OfKindAppend | src/network/flow_generator.py:96-98 | one more node extends the list of its own kind only |
| NodeLists.GenerateNodeLists | src/network/flow_generator.py:88-100 | the loop computes both filtered lists |
| TopoBuilder.WithSpectrum | src/network/topo_builder.py:49-51 | 10 free wavelengths, 10 zero share degrees and zero bandwidth usage; weight, bandwidth, betweenness and direction kept |
| TopoBuilder.InitSpectrum | src/network/topo_builder.py:37-51 | an empty or edgeless graph is returned unchanged; otherwise every link gets the initial spectrum attributes and nothing else changes |
| TopoBuilder.InitBandwidth | topo_builder.py:55-58 | every link of a non-empty graph gets bandwidth 10240; an empty graph is unchanged |
| TopoBuilder.Unpack2 | src/network/topo_builder.py:68 | unpacking a split into two names succeeds only with two pieces, which rejoin to the original |
| TopoBuilder.UnpackPiecesFree | src/network/topo_builder.py:68 | neither unpacked name contains the separator |
| TopoBuilder.SatLinkAttrs | src/network/topo_builder.py:72 | a satellite link carries its distance as `weight` and nothing else |
| TopoBuilder.Labels | src/network/topo_builder.py:62 | the unique pair labels of a non-empty table number between 1 and its row count |
| TopoBuilder.Stride | src/network/topo_builder.py:66 | `range(i, len, step)` yields indices in `[i, len)` |
| TopoBuilder.Visits | src/network/topo_builder.py:65-66 | the nested loops visit only valid row indices |
| TopoBuilder.StrideReaches | src/network/topo_builder.py:66 | every `i + q * step` below the length is visited |
| TopoBuilder.VisitsHasStride | src/network/topo_builder.py:65-66 | a later outer iteration's rows are among those still to visit |
| TopoBuilder.VisitsAll | src/network/topo_builder.py:65-66 | every row of the table is visited at least once |
| TopoBuilder.ApplyRowsAppend | src/network/topo_builder.py:65-72 | adding rows in two batches is adding them in one, stopping at the first failure |
| TopoBuilder.ApplyRowsOk | src/network/topo_builder.py:68 | the rows apply iff every visited label splits into two names |
| TopoBuilder.ApplyRowsLinks | src/network/topo_builder.py:67-72 | the resulting links are the old ones plus exactly the pairs named by the visited rows |
| TopoBuilder.ApplyRowsValid | src/network/topo_builder.py:72 | adding the rows keeps the graph well formed |
| TopoBuilder.ApplyRowsRaises | src/network/topo_builder.py:68 | the only failure of the row loop is `ValueError` |
| TopoBuilder.TimeSteps | src/network/topo_builder.py:62 | `len // unique` is at least 1 for a non-empty table and undefined (division by zero) for an empty one |
| TopoBuilder.DivAtLeastOne | src/network/topo_builder.py:62 | a count divided by a smaller positive count is at least 1 |
| TopoBuilder.SatTopoOutcome | src/network/topo_builder.py:56-72 | adding satellite links succeeds iff the table is non-empty and every label splits in two; an empty table raises `ZeroDivisionError`, a bad label `ValueError` |
| TopoBuilder.SatTopoLinks | src/network/topo_builder.py:56-72 | every snapshot receives the links of every row, whatever its index, plus its old links, and stays well formed |
| TopoBuilder.AddStride | src/network/topo_builder.py:66-72 | the inner loop adds the rows of one stride |
| TopoBuilder.AddSatToTopo | src/network/topo_builder.py:56-72 | the method computes `SatTopo` |
| TopoBuilder.FacLinkAttrs | src/network/topo_builder.py:109 | a facility link carries its distance as `weight` and `bidirectional=True` |
| TopoBuilder.FirstSnap | src/network/topo_builder.py:96-104 | the first chain row whose time snaps to this snapshot, or none when no row does |
| TopoBuilder.LastSnap | topo_builder.py:102-115 | the last chain row whose time snaps to this snapshot, or none when no row does |
| TopoBuilder.ChainFirstOnly | src/network/topo_builder.py:96-110 | with the `break`, a chain file adds one link with the first snapping row's distance, or nothing |
| TopoBuilder.ChainEveryRow | topo_builder.py:102-115 | without the `break`, the last snapping row's distance is the weight that stays, and no other link changes |
| TopoBuilder.ChainLinks | src/network/topo_builder.py:104-109 | a chain file adds the facility link iff some row snaps to this snapshot, and keeps the graph well formed |
| TopoBuilder.FacTopoOutcome | src/network/topo_builder.py:86-90 | adding facility links fails, with `ValueError`, exactly when a `.csv` file name does not split in two |
| TopoBuilder.FacTopoLinks | src/network/topo_builder.py:86-110 | the resulting links are the old ones plus, for every `.csv` file with some snapping row, the link its name gives |
| TopoBuilder.AddChainRows | src/network/topo_builder.py:96-110 | the row loop computes `ApplyChain` |
| TopoBuilder.AddFacToTopo | src/network/topo_builder.py:81-110 | the file loop computes `FacTopo` |
| TopoBuilder.FacTopoAsWritten | topo_builder.py:107 | as written, the root builder raises at the first chain row and succeeds only when no `.csv` file has a row, leaving the graph unchanged |
| TopoBuilder.RootChainRowRaises | topo_builder.py:22-23 | a one-row chain file makes the root builder raise `TypeError`, where the intended computation adds the link |
| FlowGen.Repeat | src/network/flow_generator.py:45 | `n` copies of an index |
| FlowGen.Schedule | src/network/flow_generator.py:39-45 | every scheduled index is a present key below the bound |
| FlowGen.PresentCount | src/network/flow_generator.py:39-42 | the number of present indices is at most the number visited |
| FlowGen.ScheduleLength | src/network/flow_generator.py:39-45 | exactly `num_flows` flows per present index |
| FlowGen.ScheduleMembers | src/network/flow_generator.py:39-45 | an index gets flows iff `num_flows > 0` and it is a present key below `len(graph_dict)` |
| FlowGen.ScheduleSorted | src/network/flow_generator.py:39 | flows come in ascending snapshot order |
| FlowGen.Indices | src/network/flow_generator.py:59 | the `graph_index` of each flow, in order |
| FlowGen.IndicesAppend | src/network/flow_generator.py:67 | appending flows appends their indices |
| FlowGen.FlowGenerator.constructor | src/network/flow_generator.py:20-30 | an empty graph dict, no flows, empty node lists, the given flow count |
| FlowGen.FlowGenerator.GenerateFor | src/network/flow_generator.py:43-67 | one snapshot: succeeds iff there is nothing to draw or both node lists are non-empty, appends `num_flows` fresh flows (a satellite to a facility of that snapshot, no paths, delay in [1000, 5000]) and records the node lists |
| FlowGen.FlowGenerator.GenerateFlows | src/network/flow_generator.py:32-68 | raises `IndexError` iff some visited snapshot has an empty node list; otherwise returns the whole flow list, earlier flows kept, with new flows following the schedule, each one fresh |
| FlowControl.OtherFacilities | src/network/flow_controller.py:83-86 | the nodes matching `^Facility` other than the target |
| FlowControl.Pruned | src/network/flow_controller.py:83-87 | pruning only removes links |
| FlowControl.PrunedValid | src/network/flow_controller.py:95-98 | the search copy keeps exactly the non-facility nodes and the target, all links between them, and stays well formed |
| FlowControl.OnPrefixHops | src/network/flow_controller.py:108-110 | a link is cut iff it is one of the hops `path[i-1] -> path[i]` for `1 <= i < n` |
| FlowControl.CutEdges | src/network/flow_controller.py:106-113 | cutting the primary's hops keeps the nodes and removes only links |
| FlowControl.CutEdgesValid | src/network/flow_controller.py:106-113 | exactly the primary's hops except the last are gone, and the graph stays well formed |
| FlowControl.Take | src/network/flow_controller.py:89-92 | `islice(..., k)`: a prefix of at most `k` candidates, all of them when fewer |
| FlowControl.FirstPassing | src/network/flow_controller.py:123-128 | the first candidate with enough bandwidth on every hop, every earlier one failing; none iff all fail |
| FlowControl.AllocFrom | src/network/flow_controller.py:172-183 | allocation changes only link attributes |
| FlowControl.AllocKeepsOtherAttrs | src/network/flow_controller.py:172-183 | allocation changes a link's `bandwidth` and no other attribute |
| FlowControl.ChargeableHops | src/network/flow_controller.py:175-183 | allocation can proceed iff every remaining hop is a link that has a bandwidth |
| FlowControl.SnapshotStep | src/network/flow_controller.py:58-70 | one snapshot of a flow changes that snapshot's attributes only |
| FlowControl.Window | src/network/flow_controller.py:57-70 | the window loop changes only the snapshots inside the window, and only their attributes |
| FlowControl.WindowEnd | src/network/flow_controller.py:51-55 | `min(graph_index + duration, len(graph_list))` |
| FlowControl.ProcessFlowSpec | src/network/flow_controller.py:48-78 | a flow without `duration` raises `KeyError("duration")`; otherwise only snapshots in `[graph_index, graph_index + duration)` change, and only in their attributes |
| FlowControl.ControlFlowSpec | src/network/flow_controller.py:36-44 | the flow loop changes only link attributes, stopping at the first exception |
| FlowControl.SetBandwidthAll | src/network/flow_controller.py:28-30 | every link's bandwidth is set, nothing else changes |
| FlowControl.Provision | src/network/flow_controller.py:27-30 | every snapshot has every link at bandwidth 10 |
| FlowControl.ProvisionedAtCapacity | src/network/flow_controller.py:27-30 | after provisioning every link has bandwidth and carries the capacity |
| FlowControl.FlowController.constructor | src/network/flow_controller.py:23-30 | the controller keeps the flows, takes the shared counter, and provisions every snapshot's links at 10 |
| FlowControl.FlowController.CheckResource | src/network/flow_controller.py:132-161 | true iff every hop is a link of the flow's own snapshot with bandwidth at least the demand (a missing bandwidth reads 0) |
| FlowControl.FlowController.SearchGraph | src/network/flow_controller.py:94-121 | builds the search copy, source and target of the primary or backup search |
| FlowControl.FlowController.FirstFeasible | src/network/flow_controller.py:123-128 | the candidate loop computes `FirstPassing` |
| FlowControl.FlowController.FindPath | src/network/flow_controller.py:81-130 | the method computes `FindPathSpec`: a missing endpoint gives none, an `IndexError` propagates |
| FlowControl.FlowController.AllocateResource | src/network/flow_controller.py:163-183 | the snapshot becomes `AllocFrom`'s graph and the `ValueError` for a missing link is reported; no other snapshot changes |
| FlowControl.FlowController.ProcessSnapshot | src/network/flow_controller.py:57-78 | one loop iteration computes `SnapshotStep` |
| FlowControl.FlowController.ProcessFlow | src/network/flow_controller.py:48-78 | the method computes `ProcessFlowSpec` |
| FlowControl.FlowController.ControlFlow | src/network/flow_controller.py:36-44 | sets total flows to the flow count and touches no other count; the snapshots and the fault are `ControlFlowSpec`'s |
| FlowControl.PrimaryPathShape | src/network/flow_controller.py:98-102 | a primary path is a simple path from start to target with no facility but the target, and it passes the resource check |
| FlowControl.FirstOfFour | src/network/flow_controller.py:89-92 | the chosen path is among the first four candidates, the first one passing, every earlier one failing |
| FlowControl.BackupPathShape | src/network/flow_controller.py:104-121 | a backup runs from the primary's first to its second-to-last node, visits no facility, shares no link with the primary, and is a simple path of the snapshot |
| FlowControl.PrimaryNeverRaises | src/network/flow_controller.py:100-102 | a primary search never raises |
| FlowControl.BackupRaisesOnShortPath | src/network/flow_controller.py:120-121 | a backup search raises iff the primary has fewer than two nodes |
| FlowControl.ChargedOnlyWithBothPaths | src/network/flow_controller.py:67-70 | a snapshot changes only when both a primary and a backup were found |
| FlowControl.AllocValid | src/network/flow_controller.py:180-181 | allocation keeps the graph well formed |
| FlowControl.AllocAvailable | src/network/flow_controller.py:181 | each link loses the demand once per hop of the path over it |
| FlowControl.AllocCharges | src/network/flow_controller.py:175-181 | from any hop on, the remaining hops' charges are subtracted |
| FlowControl.ChargeableStep | src/network/flow_controller.py:180-181 | one charged hop leaves the remaining hops chargeable |
| FlowControl.AllocKeepsProvisioned | src/network/flow_controller.py:180-183 | on a provisioned graph a real path never raises, and every link still has a bandwidth |
| FlowControl.AllocFaults | src/network/flow_controller.py:180-183 | allocation raises iff some hop is not a link with a bandwidth |
| FlowControl.AllocationNotClamped | src/network/flow_controller.py:181 | a demand of 15 on a link at 10 leaves it at -5: the subtraction is not clamped |
| FlowControl.SnapshotValid | src/network/flow_controller.py:58-70 | one snapshot step keeps the graph well formed |
| FlowControl.WindowValid | src/network/flow_controller.py:57 | the window keeps every snapshot well formed |
| FlowControl.ControlFlowValid | src/network/flow_controller.py:41-43 | the whole run keeps every snapshot well formed |
| FlowControl.SnapshotNoFault | src/network/flow_controller.py:67-70 | on a provisioned snapshot with a sound path oracle and distinct endpoints, allocation never raises and the snapshot stays provisioned |
| FlowControl.WindowNoFault | src/network/flow_controller.py:57-70 | the same for every snapshot of the window |
| FlowControl.ControlFlowNoFault | src/network/flow_controller.py:41-43 | when every flow has a duration and distinct endpoints, the run on provisioned snapshots raises nothing |
| Betweenness.AllListed | src/network/edge_weight_calculator.py:184-186 | the visiting order lists exactly the nodes that have a distance |
| Betweenness.PredOf | src/network/edge_weight_calculator.py:193-195 | a predecessor is one layer closer to the source |
| Betweenness.SourceNoPred | src/network/edge_weight_calculator.py:178-182 | the source has no predecessor |
| Betweenness.RelaxEdge | src/network/edge_weight_calculator.py:190-195 | an unseen neighbour is queued one layer further; a neighbour one layer further gains the current node as predecessor and its path count; any other neighbour is untouched |
| Betweenness.ScanNeighbours | src/network/edge_weight_calculator.py:189-195 | the neighbour loop keeps the search invariant, and the distances grow only by neighbours |
| Betweenness.ShortestPathCounts | src/network/edge_weight_calculator.py:171-196 | the search visits every reachable node once in nondecreasing distance, from `S[0] == s` with `D[s] == 0` and `sigma[s] == 1`; each predecessor is a neighbour one layer closer, and every neighbour of a visited node one layer further lists it; each node's count is the sum of its predecessors' counts; unreached nodes keep count 0; when no adjacency list repeats a node (`SimpleAdj`), no predecessor list repeats one, so the count sums each shortest-path predecessor exactly once |
| Betweenness.SigmaAtLeastOne | src/network/edge_weight_calculator.py:181-194 | every reached node has at least one shortest path, so `sigma[w]` never divides by zero |
| Betweenness.ReadyToAccumulate | src/network/edge_weight_calculator.py:184-196 | the search result is in the shape the accumulation needs |
| Betweenness.InOrder | src/network/edge_weight_calculator.py:157-158 | every popped node has a predecessor list and a positive count |
| Betweenness.Credit | src/network/edge_weight_calculator.py:160-164 | crediting adds `c` to the undirected link `{v, w}` under whichever orientation exists, never adds a link's second orientation, and leaves node keys alone |
| Betweenness.PassShares | src/network/edge_weight_calculator.py:158-165 | one popped node passes its share to each predecessor and its links |
| Betweenness.Accumulate | src/network/edge_weight_calculator.py:150-168 | popping `S` from the end leaves each node's dependency, each link's credit and each node's own score equal to the sums over the search result, keeping one orientation per link |
| Betweenness.OwnTotal | src/network/edge_weight_calculator.py:166-167 | a node's own score grows by its dependency, except the source |
| Betweenness.PairTotal | src/network/edge_weight_calculator.py:159-164 | a link `{a, b}` receives what `b` passes to `a` plus what `a` passes to `b` |
| Betweenness.PopEndDependency | src/network/edge_weight_calculator.py:165 | popping one more node completes the dependencies of its predecessors |
| Betweenness.VertexKeepsOrientation | src/network/edge_weight_calculator.py:166-167 | writing a node key never stores a link twice |
| Betweenness.DropNodeKeys | src/network/edge_weight_calculator.py:70-73 | exactly the link keys remain, with their values |
| Betweenness.DroppedKeepPairs | src/network/edge_weight_calculator.py:69-73 | dropping node keys keeps every link's credit |
| Betweenness.BaseScale | src/network/edge_weight_calculator.py:132-141 | normalised: none for at most one node, else `1 / (n (n - 1))`; otherwise 0.5 for undirected graphs and none for directed ones |
| Betweenness.ScaleFactor | src/network/edge_weight_calculator.py:142-144 | with a sample size `k` the base scale is multiplied by `n / k` |
| Betweenness.Rescale | src/network/edge_weight_calculator.py:131-147 | every value is multiplied by the scale factor (kept when none); no key added or removed |
| Betweenness.ScaledPairs | src/network/edge_weight_calculator.py:145-146 | rescaling scales every link's credit |
| Betweenness.LinkValue | src/network/edge_weight_calculator.py:86-87 | the read of a link's credit finds it under either orientation |
| Betweenness.EdgeCentrality | src/network/edge_weight_calculator.py:82-87 | corrected value of a link: infinite iff the link touches a facility, else the link's whole credit, summed over both orientations |
| Betweenness.LinkValueAsWritten | src/network/edge_weight_calculator.py:87 | as written, the lookup reads only the orientation `G.edges()` reports, 0 when absent |
| Betweenness.EdgeCentralityAsWritten | src/network/edge_weight_calculator.py:82-87 | value the loop writes: infinite iff the link touches a facility, else the dict's entry under the orientation `G.edges()` reports, 0 when there is none |
| Betweenness.AsWrittenLosesReverse | src/network/edge_weight_calculator.py:82-87 | for a link `G.edges()` reports, the value as written is the same from both ends and equals the link's whole credit, except that it is 0 when the credit is stored under the reverse orientation |
| Betweenness.ChainOrientationLost | src/network/edge_weight_calculator.py:54-89 | on any chain `a - b - c` with satellites `[a]` and facilities `[c]`, the link `a - b` is reported as `(a, b)`, the value as written there is 0 and the link's betweenness is 1/3 |
| Betweenness.OrientationLost | src/network/edge_weight_calculator.py:54-89 | on the snapshot `SatA - SatB - Fac1` with satellites `["SatA"]` and facilities `["Fac1"]`, the source writes 0.0 on the reported link `("SatA", "SatB")`, whose betweenness is 1/3 |
| Betweenness.WriteCentrality | src/network/edge_weight_calculator.py:80-87 | corrected write: every link gets `betweenness` set to `EdgeCentrality`; nothing else changes |
| Betweenness.WriteCentralityAsWritten | src/network/edge_weight_calculator.py:80-87 | every link gets `betweenness` set to the value as written for the orientation `G.edges()` reports; nothing else changes |
| Betweenness.PairsFor | src/network/edge_weight_calculator.py:61-62 | for one satellite, the facilities searched are those present with it |
| Betweenness.PresentPairs | src/network/edge_weight_calculator.py:60-62 | the pairs searched are exactly the satellite and facility pairs both present in the graph |
| Betweenness.RunsAppend | src/network/edge_weight_calculator.py:64-67 | one more search adds its sums to the running totals |
| Betweenness.NewLinkIsEdge | src/network/edge_weight_calculator.py:161-164 | every link key the accumulation creates names a link of the graph |
| Betweenness.TallyPair | src/network/edge_weight_calculator.py:62-67 | one search and accumulation add that run's sums to the dict |
| Betweenness.TallyFacilities | src/network/edge_weight_calculator.py:61-67 | the inner loop adds one run per facility present |
| Betweenness.ScaledCredits | src/network/edge_weight_calculator.py:54-78 | one run per present satellite and facility pair; only links of the snapshot are keys, one orientation each, each from a node to one of its predecessors; each link's value is the normalised sum of its credits over the runs |
| Betweenness.ComputeStaticCentrality | src/network/edge_weight_calculator.py:54-89 | corrected: the dict as `ScaledCredits` leaves it, and every link's `betweenness` is its whole credit, or +infinity at a facility; nothing else changes |
| Betweenness.ComputeStaticCentralityAsWritten | src/network/edge_weight_calculator.py:54-89 | as written: the same dict, and every link's `betweenness` is the value as written for the orientation `G.edges()` reports, or +infinity at a facility; nothing else changes |
| OldTraffic.CheckPathBandwidth | old_traffic_generator.py:98-107 | false for no path; otherwise true iff every hop is a link with a bandwidth of at least the package size |
| OldTraffic.DrainHop | old_traffic_generator.py:111-115 | one hop changes only attributes |
| OldTraffic.DrainFrom | old_traffic_generator.py:110-115 | draining changes only attributes |
| OldTraffic.UpdateBandwidth | old_traffic_generator.py:110-115 | the loop computes `DrainFrom` |
| OldTraffic.DrainOk | old_traffic_generator.py:111-112 | draining raises (`graph[u][v]` on a missing link) iff some hop is not a link |
| OldTraffic.ChargeZero | old_traffic_generator.py:111-113 | a link no hop runs over is charged nothing |
| OldTraffic.ChargeNonNegative | old_traffic_generator.py:113 | a non-negative size never charges a negative amount |
| OldTraffic.DrainValid | old_traffic_generator.py:110-115 | draining keeps the graph well formed |
| OldTraffic.DrainBandwidth | old_traffic_generator.py:110-115 | each link with a bandwidth and a hop over it is drained by the hops' total charge, clamped hop by hop at 0; other links are unchanged |
| OldTraffic.HopsOnZero | old_traffic_generator.py:111 | a link that no hop runs over has hop count 0 |
| OldTraffic.HopsAtMostOnce | old_traffic_generator.py:111 | a path without repeated nodes runs over each link at most once |
| OldTraffic.DrainSimple | old_traffic_generator.py:110-115 | on a simple path each traversed link with a bandwidth loses the package size, clamped at 0 |
| OldTraffic.FitsDrains | old_traffic_generator.py:30-33 | a path that passed the check can be drained |
| OldTraffic.DrainKeepsEdges | old_traffic_generator.py:32-33 | draining one path keeps every other path's hops |
| OldTraffic.ShortestPath | old_traffic_generator.py:118-123 | raises `NodeNotFound` iff an endpoint is missing; no route gives none |
| OldTraffic.ShortestSound | old_traffic_generator.py:120-121 | a returned path is a simple path between the endpoints |
| OldTraffic.StripNodes | old_traffic_generator.py:133-134 | removing the interior raises `NetworkXError` on a repeated or missing node; otherwise exactly those nodes and their links are gone |
| OldTraffic.StripOk | old_traffic_generator.py:133-134 | the removal succeeds iff the nodes are distinct and all present |
| OldTraffic.Interior | old_traffic_generator.py:132-133 | `path[1:-2]` when the path has more than three nodes, else nothing |
| OldTraffic.BackupSpec | old_traffic_generator.py:126-141 | no primary raises `TypeError`; a primary shorter than two nodes raises `IndexError` |
| OldTraffic.CalculateBackupPath | old_traffic_generator.py:126-141 | the method computes `BackupSpec` |
| OldTraffic.BackupShape | old_traffic_generator.py:126-141 | a backup starts at the source, reaches the primary's second-to-last node through a simple path that avoids the primary's interior, then ends at the target |
| OldTraffic.BackupIsWalk | old_traffic_generator.py:137-138 | a backup for a primary that is a walk to the target is itself a walk |
| OldTraffic.BackupOfSimple | old_traffic_generator.py:130-134 | for a simple primary the backup search raises nothing iff it has at least two nodes |
| OldTraffic.InteriorFacts | old_traffic_generator.py:132-134 | the interior of a simple path is distinct nodes of the graph, none of them the source or the second-to-last node |
| OldTraffic.PathsSpec | old_traffic_generator.py:58-62 | a truthy existing path is kept, otherwise the shortest path is computed; the backup is computed from the resulting primary |
| OldTraffic.CalculatePaths | old_traffic_generator.py:58-62 | the method computes `PathsSpec` |
| OldTraffic.NoRouteRaises | old_traffic_generator.py:60-61 | with no route and no existing path, `shortest_path[-2]` on `None` raises `TypeError` |
| OldTraffic.PathsFound | old_traffic_generator.py:58-62 | with a route between distinct present endpoints, a simple primary of at least two nodes is found without raising |
| OldTraffic.ServiceCounter.constructor | old_traffic_generator.py:18 | all service counts start at 0 |
| OldTraffic.ServiceCounter.IncrementSwitches | old_traffic_generator.py:37 | switches go up by one |
| OldTraffic.ServiceCounter.IncrementBlockedServices | old_traffic_generator.py:39 | blocked services go up by one |
| OldTraffic.SwitchSpec | old_traffic_generator.py:21-41 | a switch installs both new paths only when both fit, and then draws bandwidth; once both paths are found, the service is blocked iff one of them does not fit; a block clears both paths and keeps the graph; an exception changes nothing |
| OldTraffic.SwitchDecision | old_traffic_generator.py:30-41 | the service is switched iff both paths are found and both fit, and, once both are found, blocked iff one of them does not fit |
| OldTraffic.SwitchPath | old_traffic_generator.py:21-41 | the method computes `SwitchSpec` and bumps exactly one of the counts matching the outcome |
| OldTraffic.SwitchRaisesOnlyFromPaths | old_traffic_generator.py:27 | a switch raises exactly what the path computation raises |
| OldTraffic.SwitchParts | old_traffic_generator.py:27-35 | an installing switch found both paths, drained the primary then the backup without raising, and stored the found paths in the service |
| OldTraffic.TwoDrains | old_traffic_generator.py:32-33 | draining one path after another takes both charges off each link, clamped at 0; other links and attributes are kept |
| OldTraffic.SwitchCharges | old_traffic_generator.py:32-33 | a switch drains each link by the charges of both new paths |
| OldTraffic.ServeSpec | old_traffic_generator.py:76-95 | serving one snapshot keeps the service's identity, endpoints, size and delay, and changes the graph only by a switch |
| OldTraffic.ServeSnapshot | old_traffic_generator.py:76-95 | the iteration computes `ServeSpec` and counts the switch or the block |
| OldTraffic.FittingServiceUntouched | old_traffic_generator.py:86-95 | a service whose two paths both still fit changes nothing |
| OldTraffic.ServeAt | old_traffic_generator.py:73-77 | serving at one index touches only that snapshot and keeps its time |
| OldTraffic.ServeAll | old_traffic_generator.py:73-95 | only snapshots in the window change, times are kept, and switches plus blocks grow by at most one per snapshot |
| OldTraffic.Times | old_traffic_generator.py:68 | the time of each snapshot, in order |
| OldTraffic.UpdateSpec | old_traffic_generator.py:65-95 | a missing start index raises `KeyError(index)`; otherwise only snapshots whose time lies in the service's window change |
| OldTraffic.UpdateGraphsForService | old_traffic_generator.py:65-95 | the method computes `UpdateSpec` and adds its switches and blocks to the counter |
| Stk.SatName | src/stk/stk_manager.py:180 | satellite names start with `Sat` |
| Stk.SatNameInjective | src/stk/stk_manager.py:180 | with single-digit plane and index, distinct satellites get distinct names |
| Stk.SatNameCollision | run_stk.py:169 | beyond nine, `Sat1` + `11` and `Sat11` + `1` are the same name |
| Stk.CellLinks | src/stk/stk_manager.py:183-193 | each satellite has two links, ring and next plane, except in the last plane, which has only its ring link |
| Stk.PlaneLinks | src/stk/stk_manager.py:179-208 | the inner loop produces one plane's links in order |
| Stk.NeighbourPairs | src/stk/stk_manager.py:178-208 | the nested loops produce the links of the whole grid |
| Stk.RowCount | src/stk/stk_manager.py:179-193 | one plane has two links per satellite, one in the last plane |
| Stk.GridCountUpTo | src/stk/stk_manager.py:178-193 | the planes before the last have `2 N` links each |
| Stk.GridCount | src/stk/stk_manager.py:178-193 | the grid has `(2 P - 1) N` links |
| Stk.RowMembers | src/stk/stk_manager.py:179-193 | a link is in a plane's list iff it is a ring or next-plane link of one of its satellites |
| Stk.GridMembersUpTo | src/stk/stk_manager.py:178-193 | the same for the planes visited so far |
| Stk.GridMembers | src/stk/stk_manager.py:178-193 | a link is produced iff it is a ring or next-plane link of some satellite of the grid |
| Stk.RingWraps | src/stk/stk_manager.py:190-191 | the last satellite of each plane links back to the first |
| Stk.LastPlaneHasNoNext | src/stk/stk_manager.py:183-187 | the last plane has no next-plane link |
| Stk.DistanceTable | src/stk/stk_manager.py:199-208 | one distance series per link label |
| Stk.DistanceOfLast | src/stk/stk_manager.py:199-208 | a label holds the ranges of its last computation |
| Stk.UniqueTimes | src/stk/stk_manager.py:176-208 | the set holds exactly the time strings of all computations |
| Stk.Insert | src/stk/stk_manager.py:211 | inserting keeps every element |
| Stk.SortStrings | src/stk/stk_manager.py:211 | sorting is a permutation |
| Stk.LexAsymmetric | src/stk/stk_manager.py:211 | the string order is asymmetric |
| Stk.LexLeqLess | src/stk/stk_manager.py:211 | at most then less is less |
| Stk.InsertSorted | src/stk/stk_manager.py:211 | inserting into a sorted list keeps it sorted |
| Stk.SortSorted | src/stk/stk_manager.py:211 | `list.sort()` yields a sorted permutation |
| Stk.ListOf | src/stk/stk_manager.py:210 | `list(unique_times)` lists each member of the set once |
| Stk.SortedList | src/stk/stk_manager.py:210-211 | sorting a duplicate-free list gives a sorted duplicate-free list with the same members, which sorting leaves fixed |
| Stk.SameElements | src/stk/stk_manager.py:210-211 | a rearrangement of a duplicate-free list is duplicate-free with the same members |
| Stk.NoDupCount | src/stk/stk_manager.py:210 | a duplicate-free list holds each element at most once |
| Stk.SortedFixed | src/stk/stk_manager.py:211 | sorting an already sorted duplicate-free list changes nothing |
| Stk.TextOrderIsNotTimeOrder | src/stk/stk_manager.py:211 | sorting time strings as text puts `10 Aug` before `9 Aug` |
| Stk.FirstPiece | src/stk/stk_manager.py:212 | `t.split('.')[0]`: the text before the first dot, or all of it |
| Stk.OccursDot | src/stk/stk_manager.py:212 | the one-character separator occurs exactly where the character is |
| Stk.FirstPieceIsSplit | src/stk/stk_manager.py:212 | the first piece equals the first element of the split |
| Stk.CutsAgreeOnOneDot | src/stk/stk_manager.py:212 | with at most one dot, cutting at the first dot equals cutting at the last |
| Stk.CutsDifferOnTwoDots | src/stk/stk_manager.py:212 | with two dots the two cuts keep different text |
| Stk.TimeListSpec | src/stk/stk_manager.py:212 | `ValueError` iff some first piece does not parse; otherwise one parsed time per string, in order |
| Stk.NormaliseTimes | src/stk/stk_manager.py:210-212 | the time strings become a sorted duplicate-free list of exactly the set's members, then the parsed time list |
| Stk.TruncParsed | src/stk/stk_manager.py:284-291 | one parsed time per truncated string |
| Stk.FacSpec | src/stk/stk_manager.py:255-279 | the interval loop succeeds iff every interval parses and has a strand name; it raises only `ValueError` or `IndexError` |
| Stk.FacSpecLast | src/stk/stk_manager.py:266-267 | after the loop the chain times and distances are those of the last interval, snapped onto the time list |
| Stk.StkManager.constructor | src/stk/stk_manager.py:27-37 | empty time lists, empty distance table, no constellation |
| Stk.StkManager.CreateConstellation | src/stk/stk_manager.py:96-98 | the constellation is set and nothing else changes |
| Stk.StkManager.ApproximateTime | src/stk/stk_manager.py:306-316 | the method snaps each time to the greatest time-list entry at or before it |
| Stk.StkManager.ComputeFacAccess | src/stk/stk_manager.py:229-280 | without a constellation it raises `Exception("Constellation object is not initialized.")` and changes nothing; otherwise the chain state and the outcome are `FacSpec`'s |
| Stk.StkManager.CreateAccess | src/stk/stk_manager.py:175-214 | the distance table gains one series per grid link, the time list is the parsed sorted set of all access times (a `ValueError` stops there), then the facility access runs |
| Stk.StkManager.CollectAccess | src/stk/stk_manager.py:176-209 | the pair loop builds exactly the distance table and the set of access times of the listed links |
| Stk.ChainRows | run_stk.py:349-360 | with the directory present the rows are the zip of times and distances, and `ValueError` iff their lengths differ; the first run, which creates the directory, writes nothing |
| Stk.EarlyChainTimeRaises | run_stk.py:344-355 | with equally long inputs the length check fails iff some chain time precedes the whole time list |
| Wavelengths.FreeEntries | test.py:15 | `KeyError("status")` iff some entry lacks a status; otherwise exactly the free entries, with their details |
| Wavelengths.FindFreeWavelengths | test.py:9-19 | no link gives `None`; a link gives the free entries of its wavelength dict (empty when it has none), or the `KeyError` of an entry without status |
| Wavelengths.FindSymmetric | test.py:11-13 | the answer does not depend on the order of the two nodes |
| Wavelengths.FreeIdempotent | test.py:15 | filtering the free entries again changes nothing |
| Wavelengths.NoTableNoneFree | test.py:13 | a link without a wavelength dict has no free wavelength |
| Wavelengths.SampleFree | test.py:21-34 | on the sample link, exactly the even wavelengths 2 to 10 are free |
| Wavelengths.EntryStatus | test.py:30 | the sample entry `wavelength_i` is free iff `i` is even |

## Left out

- STK automation: launching STK and connecting to it, creating the scenario, satellites, constellation and facilities, and running the access and chain computations. Access times, ranges and chain intervals are inputs.
- File reading and writing, CSV and JSON: `save_graph_after_modification`, `save_data`, `load_graphs`, `read_csv`, `to_csv`, `os.listdir`, `os.makedirs`. The distance table, the chain files and the graph dict are inputs.
- Logging and `print`; plotting (`geoplot.py`, `gen_topo.py` drawing).
- networkx `shortest_path` and `shortest_simple_paths`: they are oracles. Their search order and weighting are not modelled; only soundness is assumed where a lemma needs it.
- `datetime.strptime` and `pd.to_datetime`: these are a `parse` parameter. Times are integer seconds, so `timedelta(seconds=delay)` with a fractional delay is compared by real arithmetic.
- `round()` in `round_distances` and `random.uniform(...)` rounding, because floating point is not modelled.
- `extract_pattern_from_string` (the regular expression over strand names): only its `strand_names[0]` index is modelled.
- `generate_traffic` in old_traffic_generator.py (Poisson arrivals, random choices, printing). Its parts `update_graphs_for_service`, `switch_path` and the path helpers are modelled.
- `calculate_transmission_delay`, which is not called anywhere.
- The `counter` module imported by old_traffic_generator.py is not part of this model. Its three counts are modelled as `OldTraffic.ServiceCounter` from their uses.
- Object identity: graphs are values, and `graph.copy()` versus in-place mutation is modelled by passing and returning graphs. The aliasing between `graph_list` entries and the caller's graphs is not captured.
- Betweenness.EdgeCentrality, Betweenness.WriteCentrality, Betweenness.ComputeStaticCentrality: these read a link's credit under either orientation, the corrected half of the finding on src/network/edge_weight_calculator.py:87; the code as written is `EdgeCentralityAsWritten`, `WriteCentralityAsWritten` and `ComputeStaticCentralityAsWritten`.
- OldTraffic.DrainFrom, OldTraffic.UpdateBandwidth: on a missing link the result is the `KeyError` alone, without the hops drained before it, which the source has already changed in place; `switch_path` drains only paths whose every hop exists (`OldTraffic.FitsDrains`, `OldTraffic.SwitchRaisesOnlyFromPaths`), so it never meets this case.
- Graphs.Order: `len(G)` is the number of listed nodes; networkx never lists a node twice, and that is not part of `Graphs.Valid`, so the normalisation assumes it.
- Stk.StkManager.CreateAccess: on a `ValueError` from parsing, the model keeps the old `time_list`, while the source has already replaced it with the sorted strings.
- Stk.StkManager.ComputeFacAccess: the per-facility chain creation is an input (`chains`, the intervals of all facilities in order), and the CSV writing is left out.
- The wavelength dicts of test.py (`{name: {id, status}}`) are a separate format from the `wavelengths` list the builder writes, and are modelled on their own in `Wavelengths`.
- `traffic_generator.py`, `sat-net.py`, `main.py`, `sim_config.py` and the scratch scripts are not part of this model.

## Findings

| source | as written | input that shows it | evidently intended | confidence | as-written member | corrected member |
|---|---|---|---|---|---|---|
| src/network/edge_weight_calculator.py:87 | the link's credit is read under `(edge[0], edge[1])` only, but `_accumulate_edges` may have stored it under `(w, v)` | the snapshot `SatA - SatB - Fac1` with satellites `["SatA"]` and facilities `["Fac1"]`: the one search stores the credit of `SatA - SatB` under `("SatB", "SatA")`, `G.edges()` reports `("SatA", "SatB")`, and 0.0 is written where the betweenness is 1/3 (`Betweenness.OrientationLost`) | read the undirected link's credit under either orientation | not executed | Betweenness.ComputeStaticCentralityAsWritten | Betweenness.ComputeStaticCentrality |
| topo_builder.py:22-23 | `find_time_index` is a `@staticmethod` that still declares `self`, so the call at line 107 passes one argument too few and raises `TypeError` at the first chain row | one chain file `F To S.csv` with one row | the unbound helper with two parameters, as in src/network/topo_builder.py:112-131 | not executed | TopoBuilder.FacTopoAsWritten | TopoBuilder.AddFacToTopo |
