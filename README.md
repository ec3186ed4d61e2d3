# Aurea: a verified model of the symbolic-reasoning core

Aurea is a symbolic reasoning system written in Python. Raw input is perceived as an
*echo*. EchoNet filters the echo and collapses it into a *scar*. Scars are kept by
the Scar Logic Core and doctrines by the Doctrine Spine. Inputs under dangerous or
paradoxical pressure go to three suspension systems instead: the Cold Suspension
Archive (CSA), the Veiled Thread and the Black Sphere. Scars and doctrines are
placed as nodes in a topological space of weighted edges, scar bridges and
constellations, and a monitor reports on that graph.

This Dafny project models that in-memory bookkeeping and proves what each
operation promises. The modules follow the source files:

| Dafny file | module | source |
|---|---|---|
| topology_core.dfy | TopologyCore | src/topology/tca_core.py: positions and distance, nodes, constellations |
| topology_space.dfy | TopologySpace | src/topology/tca_core.py: the `TopologicalSpace` class |
| topology_monitor.dfy | TopologyMonitor | src/topology/tca_monitor.py |
| topology_integration.dfy | TopologyIntegration | src/topology/tca_integration.py |
| suspension_base.dfy | SuspensionBase | src/suspension/suspension_base.py |
| csa.dfy | ColdSuspension | src/suspension/csa.py |
| veiled_thread.dfy | VeiledThreads | src/suspension/veiled_thread.py |
| black_sphere.dfy | BlackSpheres | src/suspension/black_sphere.py |
| doctrine_spine.dfy | DoctrineLedger | src/doctrine/doctrine_spine.py |
| scar_logic_core.dfy | ScarLedger | src/filtration/scar_logic_core.py |
| echonet.dfy | EchoNets | src/filtration/echonet.py |
| spl.dfy | Perception | src/perception/spl.py |
| symbolic_grouping.dfy | Grouping | src/utils/symbolic_grouping.py |
| aurea_core.dfy | Aurea | src/aurea_core.py |
| records.dfy, vectors.dfy, strings.dfy, sorting.dfy, wrappers.dfy | Records, SemanticVectors, Strings, Sorting, Wrappers | shared records, semantic-vector arithmetic, Python's `str` operations, Python's stable `sorted`, Option and real helpers |

The model follows the shape of the code:
- Objects whose methods update their fields are classes with `modifies` clauses: the
  topological space, the suspension systems, the ledgers, the pressure monitor and the
  pipeline controller. Each method states its new state field by field, and each keeps
  a `Valid()` invariant. The pipeline controller states its result through `Answered`
  and the suspension systems it drives through a value snapshot (`Snapshot`), both
  in terms of the inputs and the old state.
- Rule functions and read-only analyses are functions with named results. Each is
  paired with lemmas that state what the source promises.
- Loops in the source are `while`/`for` loops with invariants. Each loop is proved
  against a function that specifies its result.
- Floats are `real`s, computed exactly.
- `math.sqrt` and `math.log` are function parameters. Properties that need a true square
  root assume `IsSqrt(sqrt)`.
- Clock readings, `datetime`-based ids, random jitter and the responses of the reflex
  grid are parameters of the operations that use them.
- Python dictionaries keep insertion order. The node table, the constellations, the
  suspension tables and the ledgers keep it: each is a map plus a sequence of its keys,
  or a sequence of entries with distinct ids. A node's edge dictionary is a plain map,
  so the order in which a search visits edges is not the source's (see "Left out").


## Model

| member | source | states |
|---|---|---|
| TopologyCore.PositionOf | src/topology/tca_core.py:44-53 | a position built from a vector and a depth keeps both and has temporal layer 0.0, no constellation and stability 1.0 |
| TopologyCore.DistAdd | src/topology/tca_core.py:202-208 | adding distances stays finite exactly when both are, and then adds them; `inf` absorbs |
| TopologyCore.DistRankOrders | src/topology/tca_core.py:423 | the sort key orders distances exactly as `<` does, with `inf` above every distance up to 2.0 |
| TopologyCore.Distance | src/topology/tca_core.py:56-86 | `inf` exactly when either semantic vector is empty; every finite distance is at most 2.0 |
| TopologyCore.DistanceDisjoint | src/topology/tca_core.py:62-64 | non-empty positions with no shared dimension are exactly 1.0 apart, whatever their layers and depths |
| TopologyCore.DistanceSymmetric | src/topology/tca_core.py:56-86 | distance is symmetric in its arguments |
| TopologyCore.SimilarityAtMostOne | src/topology/tca_core.py:66-77 | with a true square root, the cosine similarity over shared dimensions never exceeds 1 |
| TopologyCore.DistanceNonNegative | src/topology/tca_core.py:56-86 | with a true square root, no finite distance is negative |
| TopologyCore.SimilaritySelf | src/topology/tca_core.py:66-77 | a vector whose magnitude is above the 1e-8 floor is fully similar to itself |
| TopologyCore.DistanceToSelf | src/topology/tca_core.py:56-86 | such a position is at distance 0.0 from itself |
| TopologyCore.NewNode | src/topology/tca_core.py:90-109 | a new node has the given id, type, position and mass, no edges, bridges or tags, and zero charge, spin and access count |
| TopologyCore.NewConstellation | src/topology/tca_core.py:131-156 | a new constellation has no members, no gravity centre, zero mass and depth, and stability 1.0 |
| TopologyCore.CenterScanSpec | src/topology/tca_core.py:180-188 | after k members the scan holds either no centre (every centrality so far is at most 0) or the first member of largest positive centrality |
| TopologyCore.GravityCenterIsFirstMax | src/topology/tca_core.py:173-190 | the gravity centre is the first member of largest positive `mass * len(edges)`, and None when no member has positive centrality (an empty constellation included) |
| TopologyCore.GravityCenterUnique | src/topology/tca_core.py:173-190 | at most one choice meets that description |
| TopologyCore.MassSumAppend | src/topology/tca_core.py:162 | appending a member adds its mass to the sum of member masses |
| TopologyCore.MassSumWithout | src/topology/tca_core.py:169-170 | deleting a member subtracts its mass from the sum of member masses |
| TopologyCore.RecalculateCenter | src/topology/tca_core.py:173-194 | the loop finds the gravity centre above; the average depth is the mean over members, and is unchanged when there are none |
| TopologyCore.WithMember | src/topology/tca_core.py:158-163 | after `add_node` the members are the old ones plus the node; id and type are kept |
| TopologyCore.WithoutMember | src/topology/tca_core.py:165-171 | removing a non-member changes nothing; removing a member drops exactly that id and subtracts its mass |
| TopologyCore.AddMember | src/topology/tca_core.py:158-163 | the node table afterwards has the node marked with the constellation id, and the constellation is the one WithMember describes |
| TopologyCore.RemoveMember | src/topology/tca_core.py:165-171 | the constellation afterwards is the one WithoutMember describes; the node table, and so the node's constellation id, is untouched |
| TopologyCore.AddMemberKeepsMass | src/topology/tca_core.py:158-163 | adding a new member keeps `total_mass` equal to the members' masses and the members distinct |
| TopologyCore.AddMemberTwiceDoublesMass | src/topology/tca_core.py:160-162 | re-adding a member leaves the member list unchanged but adds its mass again |
| TopologyCore.RemoveMemberKeepsMass | src/topology/tca_core.py:165-171 | removing keeps `total_mass` equal to the members' masses, and the id is no longer a member |
| TopologyCore.RowSumNonNegative | src/topology/tca_core.py:206-209 | with a true square root, the running distance total of a row never goes negative |
| TopologyCore.PairSumNonNegative | src/topology/tca_core.py:202-209 | with a true square root, the pairwise distance total is never negative |
| TopologyCore.CohesionValueBounds | src/topology/tca_core.py:211-224 | the final cohesion formula lies in [0, 1] for any non-negative total |
| TopologyCore.AddRow | src/topology/tca_core.py:207-209 | the inner loop adds row i's distances to the total and `n - i - 1` to the comparison count |
| TopologyCore.PairTotal | src/topology/tca_core.py:202-209 | the two loops compute the sum over all pairs and the number of pairs |
| TopologyCore.Cohesion | src/topology/tca_core.py:196-224 | `calculate_cohesion` is CohesionOf, and 1.0 for fewer than two members |
| TopologyCore.CohesionOfBounds | src/topology/tca_core.py:196-224 | with a true square root, cohesion lies in [0, 1] |
| TopologySpace.SameLinksFacts | src/topology/tca_core.py:237-254 | the graph facts (closure, symmetric edges and bridges, the undirected pairs) depend only on the links, not on mass, position or tags |
| TopologySpace.SameLinksGraph | src/topology/tca_core.py:237-254 | so tables with the same links have the same graph facts and closure |
| TopologySpace.MarkMemberLinks | src/topology/tca_core.py:161 | marking a node's constellation id changes no link |
| TopologySpace.WithEdge | src/topology/tca_core.py:295-296 | the table after the two writes of `create_edge` has the same node ids |
| TopologySpace.WithEdgeWrites | src/topology/tca_core.py:295-296 | both directions get the same weight; every other adjacency entry, every bridge list, position and mass stays as it was |
| TopologySpace.WithEdgeClosed | src/topology/tca_core.py:290-297 | an edge between known nodes keeps every link pointing at a node |
| TopologySpace.WithEdgeSymmetric | src/topology/tca_core.py:290-297 | a new edge keeps edges symmetric with equal weights |
| TopologySpace.WithEdgeBridges | src/topology/tca_core.py:290-297 | a new edge leaves the bridges symmetric |
| TopologySpace.WithEdgePairs | src/topology/tca_core.py:294-297 | a new edge adds exactly the unordered pair {a, b}, which was not an edge before |
| TopologySpace.WithEdgeGraph | src/topology/tca_core.py:290-297 | a new edge keeps the graph facts with `total_edges` one higher |
| TopologySpace.WithBridge | src/topology/tca_core.py:302-303 | the table after the two appends of `create_scar_bridge` has the same node ids |
| TopologySpace.WithBridgeCounts | src/topology/tca_core.py:302-303 | each endpoint gains one entry for the other, a self bridge gains two, with no deduplication; every other node and every edge is unchanged |
| TopologySpace.WithBridgeCountChange | src/topology/tca_core.py:302-303 | the count of y in x's bridge list rises by one for (a, b) and for (b, a), and nowhere else |
| TopologySpace.WithBridgeClosed | src/topology/tca_core.py:299-307 | a new bridge between known nodes keeps every link pointing at a node |
| TopologySpace.WithBridgeGraph | src/topology/tca_core.py:299-307 | a new bridge keeps bridge counts symmetric and leaves the edges, and so `total_edges`, alone |
| TopologySpace.SameEdgesFacts | src/topology/tca_core.py:237-254 | tables with the same nodes and edges have the same edge symmetry and undirected pairs |
| TopologySpace.InsertFreshGraph | src/topology/tca_core.py:276 | storing a new node without links keeps closure and the graph facts |
| TopologySpace.ReplaceNodeClosed | src/topology/tca_core.py:276 | replacing a node by one without links keeps every link pointing at a node |
| TopologySpace.InsertFreshNode | src/topology/tca_core.py:276 | a new node without links adds no undirected pair and breaks no symmetry |
| TopologySpace.SeedVector | src/topology/tca_core.py:392-404 | each node type starts from one or two seed dimensions |
| TopologySpace.OptimalPosition | src/topology/tca_core.py:388-410 | the placed position has the seed dimensions in order, each value within 0.02 of its seed, and every other field at its default |
| TopologySpace.PlacedPosition | src/topology/tca_core.py:264-265 | `add_node` keeps a given position, and otherwise uses OptimalPosition |
| TopologySpace.JoinTargetRules | src/topology/tca_core.py:279-286 | a truthy requested constellation is joined only if it exists (else none); only a missing or empty request falls back to the nearest constellation |
| TopologySpace.NearestScanSpec | src/topology/tca_core.py:417-425 | after k constellations the scan holds the first eligible one at the least centre distance, or nothing with distance `inf` |
| TopologySpace.NearestIsClosest | src/topology/tca_core.py:412-427 | the answer is an eligible constellation nearer than 2.0 and no farther than any other; None means no eligible constellation is nearer than 2.0 |
| TopologySpace.NearestKnown | src/topology/tca_core.py:412-427 | the answer is a stored constellation |
| TopologySpace.BridgeKey | src/topology/tca_core.py:306 | the wormhole key starts with "bridge_" followed by the count |
| TopologySpace.LoadedDepth | src/topology/tca_core.py:550-554 | a saved depth of the string "inf" becomes 9.99; numbers stay; other strings go through `float` |
| TopologySpace.ExtendByEdge | src/topology/tca_core.py:353-355 | a walk to u extended by an edge neighbour v is a walk to v |
| TopologySpace.ExtendByBridge | src/topology/tca_core.py:358-361 | a walk to u extended by `"[scar]"` and a bridge end v is a walk to v |
| TopologySpace.Build | src/topology/tca_core.py:319-322 | the loop of `create_constellation` keeps the node ids and leaves every member a node |
| TopologySpace.JoinAll | src/topology/tca_core.py:319-322 | the loop computes Build, changes no link, and keeps the constellation id |
| TopologySpace.StoreNodeFacts | src/topology/tca_core.py:276-277 | storing a node without links keeps closure and known members, and the graph facts when the id is new |
| TopologySpace.JoinFacts | src/topology/tca_core.py:280-286 | a node joining a constellation keeps the links, known members and constellations keyed by their ids |
| TopologySpace.TopologicalSpace.constructor | src/topology/tca_core.py:233-256 | an empty space: no nodes, constellations or wormholes, zero mass and edges, with the invariants holding |
| TopologySpace.TopologicalSpace.FindNearestConstellation | src/topology/tca_core.py:412-427 | the loop answers Nearest, a stored constellation or None |
| TopologySpace.TopologicalSpace.AddNode | src/topology/tca_core.py:258-288 | stores the new node (replacing any node with that id), adds its mass to the total, joins the constellation JoinTarget names, leaves edges and wormholes alone, and keeps the graph invariant for a fresh id |
| TopologySpace.TopologicalSpace.StoreNode | src/topology/tca_core.py:268-277 | the node is stored, appended to the key order when new, and its mass counted |
| TopologySpace.TopologicalSpace.JoinConstellation | src/topology/tca_core.py:280-286 | `Constellation.add_node` on a stored constellation: the node is marked and the constellation updated, with nothing else changed |
| TopologySpace.TopologicalSpace.CreateEdge | src/topology/tca_core.py:290-297 | with both ids known and the edge new, both directions get the weight and `total_edges` rises by exactly 1; otherwise nothing changes; the graph invariant is kept |
| TopologySpace.TopologicalSpace.CreateScarBridge | src/topology/tca_core.py:299-307 | with both ids known, the bridge lists grow and the pair is recorded under `bridge_<prior count>`; otherwise nothing changes; the graph invariant is kept |
| TopologySpace.TopologicalSpace.CreateConstellation | src/topology/tca_core.py:309-325 | a new constellation that each listed known node joins in turn, stored under its id (replacing any earlier one); no link changes |
| TopologySpace.TopologicalSpace.FindPath | src/topology/tca_core.py:327-363 | None for an unknown id; `[x]` from x to x; any path found starts at start and ends at end, joins adjacent nodes by an edge (or by a bridge after `"[scar]"`), and holds no `"[scar]"` without bridges; whenever such a walk exists, a path is found |
| TopologySpace.SearchPath | src/topology/tca_core.py:333-363 | the breadth-first search itself, with the same guarantees over any closed node table: it finds a path exactly when a walk exists |
| TopologySpace.QueueEdges | src/topology/tca_core.py:353-355 | every entry queued for an edge neighbour carries a walk from start to it; earlier entries stay; every edge neighbour is visited or queued afterwards |
| TopologySpace.QueueBridges | src/topology/tca_core.py:358-361 | every entry queued for a bridge end carries a walk from start to it through `"[scar]"`; earlier entries stay; every bridge end is visited or queued afterwards |
| TopologySpace.Expand | src/topology/tca_core.py:352-361 | one visit: every neighbour one step away (edge, or bridge when allowed) is visited or queued afterwards, and no queued id is lost |
| TopologySpace.SearchSkip | src/topology/tca_core.py:347-348 | dropping an entry whose node was visited keeps start visited-or-queued, end unvisited, and every neighbour of a visited node visited or queued |
| TopologySpace.SearchVisit | src/topology/tca_core.py:350-361 | visiting the head of the queue keeps the same search state |
| TopologySpace.WalkStaysIn | src/topology/tca_core.py:352-361 | a walk that starts inside a set closed under single steps ends inside it |
| TopologySpace.SearchExhausted | src/topology/tca_core.py:363 | when the queue runs dry with end unvisited, no walk leads from start to end |
| TopologySpace.WalkWithoutBridges | src/topology/tca_core.py:358 | a walk that may not use bridges holds no `"[scar]"` marker |
| TopologySpace.TopologicalSpace.RecountEdges | src/topology/tca_core.py:599-607 | after the load recount, `total_edges` is the number of distinct unordered pairs in the adjacency, and nothing else changes |
| TopologySpace.CountPairs | src/topology/tca_core.py:600-607 | the counting loop over the node order counts each unordered pair once |
| TopologySpace.CountRow | src/topology/tca_core.py:603-607 | the inner loop adds each pair {x, y} not yet counted, and the count tracks the set |
| TopologySpace.PairsFromStep | src/topology/tca_core.py:602-607 | one more node adds its row of pairs |
| TopologySpace.PairsFromAll | src/topology/tca_core.py:602-607 | after every node, the counted pairs are exactly the undirected edges |
| TopologySpace.TopologicalSpace.Annotate | src/topology/tca_integration.py:104-105 | writing a stored node's tags and charge changes nothing else and keeps the invariants |
| TopologyMonitor.KeyList | src/topology/tca_monitor.py:387 | lists exactly the keys of an edge map |
| TopologyMonitor.Universe | src/topology/tca_monitor.py:385-388 | some finite set holds every node and every id a node links to, which bounds the search |
| TopologyMonitor.FrontierSkip | src/topology/tca_monitor.py:377-379 | dropping an already visited head keeps every neighbour of a visited node visited or queued |
| TopologyMonitor.FrontierVisit | src/topology/tca_monitor.py:381-388 | visiting the head and queueing its neighbours keeps that frontier property |
| TopologyMonitor.NextIds | src/topology/tca_monitor.py:385-388 | the ids queued after a visit are exactly the node's edge keys and bridge ends, none for an isolated node |
| TopologyMonitor.FrontierClosed | src/topology/tca_monitor.py:376 | when the queue is empty, no visited node links outside the visited set |
| TopologyMonitor.Explore | src/topology/tca_monitor.py:373-388 | the inner search visits its start plus what it adds, keeps the visited set closed under links, visits only nodes its start reaches over edges and bridges, and an isolated start is its own component |
| TopologyMonitor.Visit | src/topology/tca_monitor.py:381-388 | one visit marks the head (new to the component) and keeps the search state |
| TopologyMonitor.CountComponents | src/topology/tca_monitor.py:367-391 | the count equals the number of nodes, in node order, that no earlier node reaches over edges and bridges (`Roots`), which lies between 1 and n for n nodes, is n when no node has a link and 1 when the graph is connected |
| TopologyMonitor.CountNext | src/topology/tca_monitor.py:370-391 | one outer step keeps the component-count invariants: the visited set is what the first i nodes reach, and the count is `Roots` of the first i |
| TopologyMonitor.RootsSkip | src/topology/tca_monitor.py:371 | a node an earlier search visited is reached by an earlier node, so it starts no component |
| TopologyMonitor.RootsNew | src/topology/tca_monitor.py:371-391 | a node no earlier search visited is reached by no earlier node, so it starts a component, and everything its search visits is reached from it |
| TopologyMonitor.Fragmentation | src/topology/tca_monitor.py:361-397 | 0.0 below two nodes; otherwise (`Roots` - 1)/(n - 1) capped at 1.0, always in [0, 1], 1.0 when no node has an edge or bridge and 0.0 for a connected graph |
| TopologyMonitor.FragmentationRatio | src/topology/tca_monitor.py:395 | (c - 1)/(n - 1) lies in [0, 1] for 1 <= c <= n, is 1.0 at c = n and 0.0 at c = 1 |
| TopologyMonitor.FindIsolated | src/topology/tca_monitor.py:399-407 | exactly the nodes with no edges and no bridges, in node order, each once |
| TopologyMonitor.FieldStrength | src/topology/tca_monitor.py:341-346 | the inner loop sums each other node's mass over the squared distance, skipping distance zero |
| TopologyMonitor.CandidatesSpec | src/topology/tca_monitor.py:338-354 | a candidate well is exactly the well of a node heavier than 5.0 |
| TopologyMonitor.GravityWellsTop | src/topology/tca_monitor.py:334-359 | at most five wells, each heavier than 5.0, sorted by field strength strongest first, taken from the candidates, and no candidate left out is stronger than one kept |
| TopologyMonitor.FindGravityWells | src/topology/tca_monitor.py:334-359 | the two loops and the sort compute GravityWells |
| TopologyMonitor.OrphansSpec | src/topology/tca_monitor.py:195-202 | an orphan entry is exactly an isolated node of the table |
| TopologyMonitor.UnstablesSpec | src/topology/tca_monitor.py:205-213 | an unstable entry is exactly a constellation with stability below 0.3, reporting that stability |
| TopologyMonitor.ExtremesSpec | src/topology/tca_monitor.py:216-226 | an extreme-gravity entry is exactly a reported well with field strength above 50.0 |
| TopologyMonitor.AnomalyRules | src/topology/tca_monitor.py:190-248 | the rule set: one orphan entry per isolated node, one unstable entry per constellation below 0.3, one extreme entry per reported well above 50.0, and a cascade entry, carrying the paradox count and the constellation's mass, exactly when there are more than five paradox nodes, one sits in paradox_void, and that constellation is present and heavier than 30 |
| TopologyMonitor.CascadeRule | src/topology/tca_monitor.py:229-246 | a paradox-cascade entry, carrying the paradox count and the constellation's mass, appears exactly under the three paradox conditions |
| TopologyMonitor.OrphanRule | src/topology/tca_monitor.py:195-202 | an orphan entry appears exactly for isolated nodes |
| TopologyMonitor.UnstableRule | src/topology/tca_monitor.py:205-213 | an unstable entry appears exactly for constellations below 0.3 |
| TopologyMonitor.ExtremeRule | src/topology/tca_monitor.py:216-226 | an extreme-gravity entry appears exactly for reported wells above 50.0 |
| TopologyMonitor.DetectAnomalies | src/topology/tca_monitor.py:190-248 | the loops compute the anomaly list of the rule set over the top gravity wells |
| TopologyMonitor.OrphanScan | src/topology/tca_monitor.py:195-202 | the orphan loop computes the orphan entries in node order |
| TopologyMonitor.UnstableScan | src/topology/tca_monitor.py:205-213 | the stability loop computes the unstable entries in constellation order |
| TopologyMonitor.ExtremeScan | src/topology/tca_monitor.py:217-226 | the well loop computes the extreme-gravity entries |
| TopologyMonitor.VoidConstellation | src/topology/tca_monitor.py:233-237 | the search finds the paradox_void constellation exactly when some paradox node sits in it and it exists |
| TopologyMonitor.ProjectTo2dRules | src/topology/tca_monitor.py:250-259 | (0, 0) for an empty vector; otherwise x is the first value of largest absolute weight and y the first largest among the rest (0.0 when there is none), as a stable sort gives |
| TopologyMonitor.DensityRules | src/topology/tca_monitor.py:409-434 | both densities are 0.0 below two nodes; otherwise edge density is bridge density plus `total_edges` over n(n-1)/2, never below bridge density, and neither is negative |
| TopologyMonitor.BridgeEndsUpdate | src/topology/tca_monitor.py:419 | the sum of bridge-list lengths changes only by the updated node's change |
| TopologyMonitor.WithBridgeEnds | src/topology/tca_monitor.py:419 | a scar bridge adds exactly two bridge ends, so `// 2` counts it once |
| TopologyMonitor.AverageStabilityBounds | src/topology/tca_monitor.py:436-442 | 1.0 with no constellations, otherwise the mean lies within any bounds every stability lies within |
| TopologyMonitor.Hub | src/topology/tca_monitor.py:95-100 | None exactly for no members; otherwise a member with the most edges plus bridges |
| TopologyMonitor.UniqueEdgesAtMostDegree | src/topology/tca_monitor.py:74-90 | the unordered edge pairs of the members never outnumber their degree sum |
| TopologyMonitor.RowCard | src/topology/tca_monitor.py:88-90 | one node contributes at most its degree in pairs |
| TopologyMonitor.PairsFromLast | src/topology/tca_monitor.py:88-90 | the last member adds its row of pairs |
| TopologyMonitor.CountType | src/topology/tca_monitor.py:80-82 | one step counts the member's type and keeps every count equal to the number of members of that type so far |
| TopologyMonitor.Tally | src/topology/tca_monitor.py:78-92 | the member loop computes the type counts, the degree sum, the unordered pairs and the bridge ends |
| TopologyMonitor.ConstellationReport | src/topology/tca_monitor.py:65-120 | None exactly for an unknown id; otherwise every field of the report: the member counts, node types, degree sum, unique edges (at most the degree sum), bridge ends, hub, cohesion in [0, 1], and the mass, depth, stability, centre, bridge keys, radius, rotation and expansion rates copied from the constellation |
| TopologyIntegration.PlacementBounds | src/topology/tca_integration.py:81-94 | a scar's depth lies in [0, 1] and its mass in [0.1, 20], equal to weight/100 and weight/10 inside those ranges and to the caps above them |
| TopologyIntegration.ScarVector | src/topology/tca_integration.py:293-316 | the scar vector always ends with 'trauma' = min(weight/100, 1) |
| TopologyIntegration.DoctrineVector | src/topology/tca_integration.py:318-341 | the doctrine vector always holds 'structure' = 0.6, and holds 'instability' = 0.7 exactly when the doctrine has fallen |
| TopologyIntegration.KeywordDimensions | src/topology/tca_integration.py:325-339 | the same facts, for any combination of name keywords |
| TopologyIntegration.Extend | src/topology/tca_integration.py:325-332 | a keyword test appends its dimension only when it holds |
| TopologyIntegration.DoctrineVectorKeys | src/topology/tca_integration.py:334-339 | whatever keyword dimensions come first, 'structure' and 'instability' read as above |
| TopologyIntegration.ScarRouting | src/topology/tca_integration.py:364-376 | ethical goes to ethics_core, logical to logic_core, empirical to empirical_core, and every other type to identity_core |
| TopologyIntegration.DoctrineRouting | src/topology/tca_integration.py:378-399 | an ethics tag wins, then identity, then logic; tags win over the name; with no matching tag and no keyword the doctrine goes to logic_core |
| TopologyIntegration.InitializedCoresFold | src/topology/tca_integration.py:28-71 | the six guarded steps are one fold over the table of cores |
| TopologyIntegration.EnsureUpToKeys | src/topology/tca_integration.py:32-71 | the guarded steps keep every existing entry and add exactly the listed ids |
| TopologyIntegration.EnsureUpToBefore | src/topology/tca_integration.py:32-71 | with distinct ids, an id is present before its own step only if it was present at the start |
| TopologyIntegration.EnsureUpToFresh | src/topology/tca_integration.py:32-71 | each id missing at the start becomes a fresh constellation of its type |
| TopologyIntegration.EnsureUpToOrder | src/topology/tca_integration.py:32-71 | the constellation order gains the missing ids in turn |
| TopologyIntegration.MissingUpToFilter | src/topology/tca_integration.py:32-71 | the ids added are the listed ids filtered by absence |
| TopologyIntegration.CoreTableSpec | src/topology/tca_integration.py:28-71 | afterwards the six cores exist, no existing constellation is replaced, each missing core is fresh of its type, and nothing else is added |
| TopologyIntegration.CoreOrderSpec | src/topology/tca_integration.py:28-71 | the order gains exactly the missing cores, in their fixed order |
| TopologyIntegration.CoreTableIdempotent | src/topology/tca_integration.py:28-71 | running the initialization twice is running it once; with all cores present it changes nothing |
| TopologyIntegration.NoneMissing | src/topology/tca_integration.py:28-71 | with every core present the table and the order stay as they were |
| TopologyIntegration.EdgesUpToStep | src/topology/tca_integration.py:108-110 | one more id of the linking loop is one more guarded edge step |
| TopologyIntegration.EdgesUpToSpec | src/topology/tca_integration.py:108-110 | after n ids, the adjacency gains exactly the listed ids that are nodes; old weights stay and new edges have the loop's weight |
| TopologyIntegration.EdgesAfterSpec | src/topology/tca_integration.py:108-152 | edges go exactly to the listed ids that are nodes, an existing edge keeps its first weight, and every new edge has weight w |
| TopologyIntegration.EdgesOnlyTrans | src/topology/tca_integration.py:108-110 | changing only edge maps, twice, changes only edge maps |
| TopologyIntegration.WithEdgeFields | src/topology/tca_core.py:290-297 | `create_edge` changes edge maps only, and only at its two ends |
| TopologyIntegration.LinkStep | src/topology/tca_integration.py:109-110 | one guarded `create_edge` keeps the node ids |
| TopologyIntegration.LinkedUpTo | src/topology/tca_integration.py:108-110 | the linking loop keeps the node ids |
| TopologyIntegration.LinkStepFields | src/topology/tca_integration.py:109-110 | one step changes only `from`'s edges (by one guarded edge) and those of its target |
| TopologyIntegration.LinkedUpToSpec | src/topology/tca_integration.py:108-110 | the loop changes only adjacency; `from` gains exactly the edges EdgesUpTo describes; a node neither `from` nor listed keeps its edges |
| TopologyIntegration.LinkedUpToStep | src/topology/tca_integration.py:108-110 | one more step of the loop keeps those three facts |
| TopologyIntegration.IdentityCandidates | src/topology/tca_integration.py:409-414 | the candidates are other identity_core nodes |
| TopologyIntegration.BridgeTargets | src/topology/tca_integration.py:409-422 | every bridge target is another node |
| TopologyIntegration.BridgeTargetsRules | src/topology/tca_integration.py:401-422 | at most two targets, each another identity_core node within distance 0.6, closest first |
| TopologyIntegration.BridgeTargetsClosest | src/topology/tca_integration.py:414-422 | an identity node within the cap is skipped only when two targets, each no farther than it, were chosen |
| TopologyIntegration.ChosenUpTo | src/topology/tca_integration.py:417-422 | the bridged candidates are taken from the sorted list |
| TopologyIntegration.ChosenUpToStep | src/topology/tca_integration.py:417-420 | one more candidate is bridged exactly when it is within the cap |
| TopologyIntegration.ChosenUpToFilter | src/topology/tca_integration.py:417-420 | the bridged candidates so far are the close ones among those scanned, in order |
| TopologyIntegration.ChosenTake | src/topology/tca_integration.py:417-422 | stopping at the second bridge (or at the end) has bridged the first two close candidates |
| TopologyIntegration.BridgeAll | src/topology/tca_integration.py:419 | bridging in turn keeps the node ids |
| TopologyIntegration.BridgeAllGraph | src/topology/tca_integration.py:417-422 | bridging a node to several others keeps the graph facts |
| TopologyIntegration.BridgeAllSpec | src/topology/tca_integration.py:417-422 | the bridged node's list gains the targets in order; only bridge lists change, and nodes outside the bridge keep everything |
| TopologyIntegration.AmplificationNonNegative | src/topology/tca_integration.py:275-280 | with non-negative masses, nearby paradoxes never lower the risk |
| TopologyIntegration.CascadeRiskRules | src/topology/tca_integration.py:250-284 | 0.0 for an unknown node and never above 1.0; with non-negative masses, at least the weighted mass, edge and constellation factors capped at 1.0 |
| TopologyIntegration.NoParadoxNoAmplification | src/topology/tca_integration.py:275-280 | with no paradox node within distance 0.5, nothing is added |
| TopologyIntegration.PlacedTags | src/topology/tca_integration.py:103-147 | adding the tags to the marked node gives the placed node; with no tags they are the same node |
| TopologyIntegration.ScarLinked | src/topology/tca_integration.py:95-110 | the node table after the scar node and its edges holds the old nodes plus the scar |
| TopologyIntegration.ScarBridges | src/topology/tca_integration.py:112-115 | a scar's identity bridges go to other nodes |
| TopologyIntegration.ScarPlacement | src/topology/tca_integration.py:73-117 | the table after `place_scar` holds the old nodes plus the scar |
| TopologyIntegration.ScarLinkedNode | src/topology/tca_integration.py:95-110 | the scar node has 0.7 edges to exactly the linked doctrines that are nodes; others change only in their edges, and an unlinked node not at all |
| TopologyIntegration.ScarPlacementNode | src/topology/tca_integration.py:73-117 | the placed scar is the fresh node in its constellation with its tags, its 0.7 doctrine edges and its identity bridges |
| TopologyIntegration.ScarPlacementOthers | src/topology/tca_integration.py:73-117 | other nodes change only in edges and bridges; a node neither linked nor bridged is unchanged |
| TopologyIntegration.ScarBridgeRules | src/topology/tca_integration.py:112-422 | a placed scar has at most two bridges, each to another identity_core node within 0.6, and none without the Whisper reflex |
| TopologyIntegration.DoctrineLinked | src/topology/tca_integration.py:137-152 | the table after the doctrine node and its edges holds the old nodes plus the doctrine |
| TopologyIntegration.DoctrinePlacement | src/topology/tca_integration.py:119-158 | the table after `place_doctrine` holds the old nodes plus the doctrine |
| TopologyIntegration.DoctrinePlacementNodes | src/topology/tca_integration.py:119-158 | the placed doctrine has mass `len(scar_links) + 5`, 0.8 edges to exactly the linked scars that are nodes, and charge -0.5 exactly when fallen; others change only in their edges |
| TopologyIntegration.Integration.constructor | src/topology/tca_integration.py:22-26 | building the adapter initializes the six cores and leaves nodes, wormholes and counters alone |
| TopologyIntegration.Integration.EnsureConstellation | src/topology/tca_integration.py:32-36 | one guarded creation: a missing id gets a fresh constellation, a present one is kept |
| TopologyIntegration.Integration.InitializeCoreConstellations | src/topology/tca_integration.py:28-71 | the six guarded steps in turn; the table and order become InitializedCores of the old ones |
| TopologyIntegration.Integration.Place | src/topology/tca_integration.py:95-147 | `add_node` into a core constellation followed by the tag update |
| TopologyIntegration.Integration.AddMarked | src/topology/tca_integration.py:95-143 | the node is stored and joins the requested core; mass counted, edges and wormholes untouched |
| TopologyIntegration.Integration.AddTags | src/topology/tca_integration.py:104-147 | the tag update changes only that node's tags |
| TopologyIntegration.Integration.LinkAll | src/topology/tca_integration.py:108-152 | the guarded edge loop: `from` gets exactly the edges EdgesAfter describes, other nodes change only where linked, and `total_edges` rises by the number of new edges |
| TopologyIntegration.Integration.LinkEach | src/topology/tca_integration.py:108-110 | the loop reaches LinkedUpTo over every id and keeps the edge counter in step |
| TopologyIntegration.Integration.LinkOne | src/topology/tca_integration.py:109-110 | one guarded edge step |
| TopologyIntegration.Integration.PlaceScar | src/topology/tca_integration.py:73-117 | the table becomes ScarPlacement, the scar joins its routed core with the clamped depth and mass, wormholes record the Whisper bridges, and the graph invariant holds for a new id |
| TopologyIntegration.Integration.PlaceDoctrine | src/topology/tca_integration.py:119-158 | the table becomes DoctrinePlacement, the doctrine joins its routed core, and the graph invariant holds for a new id |
| TopologyIntegration.Integration.CreateIdentityBridges | src/topology/tca_integration.py:401-422 | an unknown id changes nothing; otherwise the node is bridged to BridgeTargets in order, each recorded as a wormhole |
| TopologyIntegration.Integration.BridgeFirstTwo | src/topology/tca_integration.py:416-422 | the loop bridges the first two close candidates and nothing else |
| TopologyIntegration.Integration.BridgeLoop | src/topology/tca_integration.py:416-422 | the loop ends after the last candidate or the second bridge, with exactly the chosen bridges made |
| TopologyIntegration.Integration.BridgeNext | src/topology/tca_integration.py:417-422 | one turn keeps the loop's description |
| TopologyIntegration.Integration.BridgeOne | src/topology/tca_integration.py:418-420 | a candidate is bridged exactly when within the 0.6 cap |
| TopologyIntegration.Integration.CascadeRisk | src/topology/tca_integration.py:250-284 | the scan computes CascadeRiskOf: 0.0 for an unknown node and never above 1.0 |
| TopologyIntegration.Integration.NavigateThought | src/topology/tca_integration.py:286-291 | None for an unknown id; a path is found exactly when some walk from `from` to `to` exists, and any path found is such a walk, possibly over bridges |
| SuspensionBase.ReasonOf | src/suspension/suspension_base.py:40 | an empty reason is the stock reason; any other reason is kept verbatim |
| SuspensionBase.NewEntry | src/suspension/suspension_base.py:28-62 | a fresh entry carries the given id, content, source, type, pressure, time and reason, and every dataclass default (no quarantine level, zero decay and cycles, orbit stability 1.0, no family, no access) |
| SuspensionBase.Ids | src/suspension/suspension_base.py:72 | the key list of the entry table, one key per entry, in order |
| SuspensionBase.IdSetMembers | src/suspension/suspension_base.py:72 | every stored entry's id is a key and every key belongs to a stored entry |
| SuspensionBase.IdSetAppend | src/suspension/suspension_base.py:72 | the keys of two tables joined are the union of their keys |
| SuspensionBase.Find | src/suspension/suspension_base.py:72 | `id in entries` / `entries[id]`: a found position holds that id; nothing is found exactly when no entry has the id |
| SuspensionBase.FindUnique | src/suspension/suspension_base.py:72 | with unique keys, the position of an id is the one position holding it |
| SuspensionBase.SameIdSameEntry | src/suspension/suspension_base.py:72 | with unique keys, two stored entries with the same id are the same entry |
| SuspensionBase.Put | src/suspension/suspension_base.py:72 | `entries[id] = e` overwrites in place under an existing key and appends under a new one |
| SuspensionBase.PutFacts | src/suspension/suspension_base.py:72 | storing keeps keys unique, makes e the entry under its id, and grows the table by one exactly when the key was new |
| SuspensionBase.DropFacts | src/suspension/suspension_base.py:129-131 | deleting a set of keys keeps exactly the entries whose key is not in the set, and never grows the table |
| SuspensionBase.DropUnique | src/suspension/suspension_base.py:129-131 | deleting keys keeps the remaining keys unique |
| SuspensionBase.DropDrop | src/suspension/suspension_base.py:129-131 | deleting one set of keys and then another is deleting their union |
| SuspensionBase.DropNone | src/suspension/suspension_base.py:129-131 | deleting keys the table does not hold changes nothing |
| SuspensionBase.DropCount | src/suspension/suspension_base.py:129-131 | with unique keys, deleting a set of keys removes exactly as many entries as the set holds keys of the table |
| SuspensionBase.FilterUnique | src/suspension/suspension_base.py:72 | selecting the entries that pass a test keeps keys unique and only selects keys of the table |
| SuspensionBase.DropMatching | src/suspension/suspension_base.py:129-131 | deleting the keys of the entries that pass a test keeps exactly the entries that fail it and removes as many entries as passed |
| SuspensionBase.DropMatchingOrder | src/suspension/suspension_base.py:129-131 | deleting the keys of the entries that pass a test leaves the entries that fail it in their original order |
| SuspensionBase.DropIsFilter | src/suspension/suspension_base.py:129-131 | deleting a set of keys that names exactly the entries failing a test is filtering by that test |
| SuspensionBase.ReplaceUnique | src/suspension/suspension_base.py:72 | mutating a stored entry under its own key keeps the key list unchanged and unique |
| SuspensionBase.SliceLength | src/suspension/suspension_base.py:109 | `s[:limit]` keeps limit elements when there are that many and never more than the sequence holds |
| SuspensionBase.VictimsFacts | src/suspension/suspension_base.py:120-129 | the purge's victims are entries of the table, with distinct keys, numbering `len - keep_recent` (all for a negative count) |
| SuspensionBase.SubIdSet | src/suspension/suspension_base.py:120-129 | entries drawn from the table carry keys of the table |
| SuspensionBase.PurgeCount | src/suspension/suspension_base.py:116-131 | once the table holds more than keep_recent entries, the purge leaves exactly keep_recent (none for a negative count), keeps keys unique, and deletes as many as it has victims |
| SuspensionBase.PurgeOldest | src/suspension/suspension_base.py:119-131 | every purged entry is no newer than every kept entry |
| SuspensionBase.SuspensionSystem.constructor | src/suspension/suspension_base.py:71-76 | an empty table of the given positive capacity, no suspensions counted, never purged |
| SuspensionBase.SuspensionSystem.LoadPercentage | src/suspension/suspension_base.py:98-100 | the load is non-negative, reaches 100 exactly when the system is at capacity, stays under 80 exactly when 5 * len < 4 * capacity, and is 0 when empty |
| SuspensionBase.SuspensionSystem.ListEntries | src/suspension/suspension_base.py:102-109 | exactly as many entries as Python's `[:limit]` keeps (min(limit, n), or n + limit floored at 0 for a negative limit), drawn from the table, newest first, and no omitted entry is newer than a listed one |
| SuspensionBase.SuspensionSystem.Store | src/suspension/suspension_base.py:72-75 | storing an entry under its id keeps keys unique and counts one more suspension |
| SuspensionBase.SuspensionSystem.Update | src/suspension/suspension_base.py:72 | mutating a stored entry in place changes only that entry, keeping keys unique |
| SuspensionBase.SuspensionSystem.DeleteEach | src/suspension/suspension_base.py:129-131 | deleting entries one key at a time leaves the table without exactly those keys |
| SuspensionBase.SuspensionSystem.PurgeOldEntries | src/suspension/suspension_base.py:111-134 | nothing happens at or under keep_recent entries; otherwise the oldest entries go, the count deleted is returned and the purge time is recorded |
| ColdSuspension.LevelFor | src/suspension/csa.py:184-193 | the quarantine level is Cascade exactly from 0.95, at least Toxic exactly from 0.85, at least Volatile exactly from 0.75, and Low below |
| ColdSuspension.LevelMonotone | src/suspension/csa.py:184-193 | more pressure never gives a lower quarantine level |
| ColdSuspension.QuarantineEntry | src/suspension/csa.py:58-71 | the quarantined entry carries the level for its pressure, a decay score of pressure times 100 and no dormancy |
| ColdSuspension.Touched | src/suspension/csa.py:87-95 | a retrieved entry counts one more access at the current time, wakes (dormancy 0), and is flagged volatile when its decay exceeds 50 |
| ColdSuspension.Aged | src/suspension/csa.py:164-169 | one dormancy cycle adds a cycle and cuts decay by 5% once the cycles pass ten |
| ColdSuspension.AgeAll | src/suspension/csa.py:164-169 | every entry is aged by one cycle, in place and in order |
| ColdSuspension.AgeAllUnique | src/suspension/csa.py:164-169 | ageing keeps the keys unique |
| ColdSuspension.DormancySpec | src/suspension/csa.py:158-182 | after a dormancy cycle the archive holds exactly the aged entries within 100 cycles, keys unique, and the reported entries are exactly those past 100 |
| ColdSuspension.CountLevel | src/suspension/csa.py:114-120 | a per-level count never exceeds the number of entries |
| ColdSuspension.Threats | src/suspension/csa.py:124-127 | one threat per cascade-level or toxic entry |
| ColdSuspension.AdviceFor | src/suspension/csa.py:140-147 | a stable archive is advised stable; an unstable one is told to purge over 80% load, else warned of cascades from 3, else of toxicity over an average decay of 70, else still called stable |
| ColdSuspension.Tally | src/suspension/csa.py:113-127 | the counting loop yields the per-level counts, the decay total and the threat list of the whole table |
| ColdSuspension.CSA.constructor | src/suspension/csa.py:26-36 | an empty archive of the given positive capacity |
| ColdSuspension.CSA.Suspend | src/suspension/csa.py:39-77 | a full archive is first purged to its 30 newest entries; the new entry is then stored, so a full archive ends with at most 31 entries and one with room never passes its capacity |
| ColdSuspension.CSA.Retrieve | src/suspension/csa.py:79-98 | an unknown id yields nothing and changes nothing; a known entry is touched in place and returned |
| ColdSuspension.CSA.CheckStability | src/suspension/csa.py:100-156 | an empty archive is stable and clear; otherwise the report holds the level counts, the average decay and load, stability exactly under 3 cascades, 5 toxic, average decay 70 and load 80%, the threats and the matching advice |
| ColdSuspension.CSA.UpdateDormancy | src/suspension/csa.py:158-182 | every entry ages one cycle, and the entries past 100 cycles are deleted and their ids returned |
| ColdSuspension.CSA.AgeEntries | src/suspension/csa.py:163-173 | the first loop ages every entry in place and collects the expired ones in table order |
| ColdSuspension.CSA.EmergencyPurge | src/suspension/csa.py:195-217 | without confirmation nothing changes; with it exactly the cascade-level entries are deleted, the survivors keep their order, and the number deleted is returned |
| VeiledThreads.VeiledEntry | src/suspension/veiled_thread.py:54-65 | a fresh veiled entry has no fermentation cycles, potential half its pressure, and is no doctrine candidate |
| VeiledThreads.Fermented | src/suspension/veiled_thread.py:146-161 | one cycle adds a cycle, leaves the potential alone up to five cycles, and flags the entry a candidate once its potential passes 0.8, never clearing the flag |
| VeiledThreads.FermentedBounds | src/suspension/veiled_thread.py:150-161 | fermentation keeps a potential in [0, 1], never lowers it, and never clears candidacy |
| VeiledThreads.NotReadyEarly | src/suspension/veiled_thread.py:176-204 | a fresh entry fermented fewer than ten times is never ready to emerge, whatever its potential |
| VeiledThreads.FermentAll | src/suspension/veiled_thread.py:146-161 | every entry is fermented one cycle, in place and in order |
| VeiledThreads.Resonated | src/suspension/veiled_thread.py:231-240 | the scar's score is always recorded; only resonance above 0.7 links the scar and raises the potential, capped at 1.0 |
| VeiledThreads.ResonatedBounds | src/suspension/veiled_thread.py:235-239 | strong resonance never lowers a potential in [0, 1] and keeps it in [0, 1] |
| VeiledThreads.VeiledThread.constructor | src/suspension/veiled_thread.py:26-33 | an empty thread of the given positive capacity |
| VeiledThreads.VeiledThread.CheckEmergence | src/suspension/veiled_thread.py:176-204 | an unknown id is never ready; for a stored id the answer is exactly whether its entry has at least ten cycles and potential at least 0.7; with unique ids, true exactly when some stored entry with that id is so |
| VeiledThreads.VeiledThread.DoctrineCandidates | src/suspension/veiled_thread.py:267-269 | exactly the flagged entries of the thread |
| VeiledThreads.VeiledThread.PurgeLowPotential | src/suspension/veiled_thread.py:244-265 | exactly the entries with more than 50 cycles and potential under the threshold are deleted, and their number returned |
| VeiledThreads.VeiledThread.Suspend | src/suspension/veiled_thread.py:35-71 | a thread with room stores the new entry; a full one purges its stale entries first, which may free nothing, so the table grows by at most one per call |
| VeiledThreads.VeiledThread.FermentCycle | src/suspension/veiled_thread.py:135-174 | every entry ferments one cycle; the report lists the ids flagged for the first time and exactly the stored ids that check_emergence accepts afterwards |
| VeiledThreads.VeiledThread.ExtractEmerged | src/suspension/veiled_thread.py:206-221 | an unknown id yields nothing and changes nothing; a known entry's content is returned and the entry, and only it, is removed |
| VeiledThreads.VeiledThread.UpdateResonance | src/suspension/veiled_thread.py:223-242 | an unknown id changes nothing; a known entry is resonated in place and nothing else changes |
| VeiledThreads.FermentScan | src/suspension/veiled_thread.py:146-165 | the loop collects the entries flagged for the first time and the fermented entries ready to emerge, in table order |
| VeiledThreads.EmergedAreReady | src/suspension/veiled_thread.py:164-165 | an id is listed as emerged exactly when it finds a stored entry ready to emerge |
| VeiledThreads.ReadyFound | src/suspension/veiled_thread.py:178-181 | with unique ids, a ready entry stored under an id is the entry that id looks up |
| VeiledThreads.ReadyIsStored | src/suspension/veiled_thread.py:164-165 | every emerged id finds a stored, ready entry |
| VeiledThreads.StoredIsReady | src/suspension/veiled_thread.py:164-165 | every id finding a stored, ready entry is listed as emerged |
| BlackSpheres.ParadoxEntry | src/suspension/black_sphere.py:60-71 | a fresh paradox orbits at stability 1.0 in its family, with influence 0.3 of its pressure |
| BlackSpheres.Observed | src/suspension/black_sphere.py:92-97 | an observed orbit counts one more access at the current time and loses 1% stability, so a positive stability strictly drops |
| BlackSpheres.Stabilized | src/suspension/black_sphere.py:220-224 | an orbit at 0.8 or above is untouched; one below gains 10%, capped at 1.0 |
| BlackSpheres.StabilizedBounds | src/suspension/black_sphere.py:220-224 | a stabilized orbit ends no lower than it was and no higher than the larger of itself and 1.0 |
| BlackSpheres.StabilizeAll | src/suspension/black_sphere.py:220-224 | every orbit is stabilized in place and in order |
| BlackSpheres.UnstableOrbits | src/suspension/black_sphere.py:124-126 | an id is listed exactly when some entry with that id has orbit stability below 0.5, and the list never has more ids than the sphere has entries |
| BlackSpheres.WarningFor | src/suspension/black_sphere.py:144-151 | no warning exactly when load is under 80, gravity under 10 and fewer than three orbits are unstable; the capacity warning exactly from 80% load; the field warning exactly when load is under 80 and gravity reaches 10 |
| BlackSpheres.InfluenceOutOfRange | src/suspension/black_sphere.py:178-183 | at or beyond the gravitational range no paradox contributes any influence |
| BlackSpheres.Overlap | src/suspension/black_sphere.py:201-208 | the share of the query's words a paradox also holds lies in [0, 1] |
| BlackSpheres.ShareBounds | src/suspension/black_sphere.py:208 | a part over a positive whole it does not exceed lies in [0, 1] |
| BlackSpheres.BlackSphere.constructor | src/suspension/black_sphere.py:30-36 | an empty sphere of the given positive capacity, with no families |
| BlackSpheres.BlackSphere.Suspend | src/suspension/black_sphere.py:38-82 | a full sphere refuses and nothing changes; otherwise the paradox is stored and its id joins its family, so the sphere never passes its capacity |
| BlackSpheres.BlackSphere.Retrieve | src/suspension/black_sphere.py:84-100 | an unknown id yields nothing and changes nothing; a known orbit is observed in place and returned; no entry is ever removed |
| BlackSpheres.BlackSphere.CheckStability | src/suspension/black_sphere.py:102-160 | an empty sphere is stable; otherwise the report holds the summed gravity, the unstable orbits, the family counts and the load, stability exactly under 80% load, gravity 10 and three unstable orbits, and a warning exactly when unstable |
| BlackSpheres.BlackSphere.GravitationalInfluence | src/suspension/black_sphere.py:162-186 | zero for an empty sphere or at or beyond the range; otherwise the summed inverse-square influence capped at 1.0 |
| BlackSpheres.BlackSphere.NearbyParadoxes | src/suspension/black_sphere.py:188-211 | exactly the ids of the paradoxes sharing more than the threshold of the query's words; a threshold of 1 or more finds none |
| BlackSpheres.BlackSphere.StabilizeOrbits | src/suspension/black_sphere.py:213-229 | every orbit below 0.8 is raised in place, the others are untouched, and the number raised is returned |
| BlackSpheres.BlackSphere.FamilyResonance | src/suspension/black_sphere.py:238-259 | zero for an unknown or empty family, and never above 1.0 |
| DoctrineLedger.FirstDoctrine | src/doctrine/doctrine_spine.py:28-31 | the front-to-back search stops at the first doctrine with the id, and finds none exactly when no doctrine has it |
| DoctrineLedger.Lookup | src/doctrine/doctrine_spine.py:24-31 | nothing exactly when no stored doctrine has the id; otherwise a stored doctrine with that id |
| DoctrineLedger.UpdateKeepsFirst | src/doctrine/doctrine_spine.py:37-50 | changing the found doctrine in place without changing its id keeps it the one the next lookup finds |
| DoctrineLedger.DoctrineSpine.constructor | src/doctrine/doctrine_spine.py:15-16 | the spine starts empty |
| DoctrineLedger.DoctrineSpine.AddDoctrine | src/doctrine/doctrine_spine.py:18-22 | the doctrine is appended at the end and nothing else changes |
| DoctrineLedger.DoctrineSpine.GetDoctrine | src/doctrine/doctrine_spine.py:24-31 | the search returns the first stored doctrine with the id, or nothing |
| DoctrineLedger.DoctrineSpine.LinkScar | src/doctrine/doctrine_spine.py:33-41 | the scar is linked to the first doctrine with the id exactly when it exists and lacks that link; afterwards a known doctrine holds the link, and no link list gains a duplicate |
| DoctrineLedger.DoctrineSpine.MutateDoctrine | src/doctrine/doctrine_spine.py:43-52 | a known doctrine is renamed in place with its old name appended to its lineage; an unknown id changes nothing; the spine keeps its length |
| ScarLedger.FirstScar | src/filtration/scar_logic_core.py:32-35 | the front-to-back search stops at the first scar with the id, and finds none exactly when no scar has it |
| ScarLedger.ScarById | src/filtration/scar_logic_core.py:28-35 | nothing exactly when no stored scar has the id; otherwise a stored scar with that id |
| ScarLedger.UpdateKeepsFirst | src/filtration/scar_logic_core.py:42-44 | changing the found scar in place without changing its id keeps it the one the next lookup finds |
| ScarLedger.RetireCount | src/filtration/scar_logic_core.py:42-44 | retiring a scar removes one active scar when it was active and none otherwise |
| ScarLedger.ScarLogicCore.constructor | src/filtration/scar_logic_core.py:13-14 | the core starts with no scars |
| ScarLedger.ScarLogicCore.AddScar | src/filtration/scar_logic_core.py:16-20 | the scar is appended at the end, adding one active scar exactly when it is active |
| ScarLedger.ScarLogicCore.ActiveScars | src/filtration/scar_logic_core.py:22-26 | exactly the scars whose decay state is "active", as many as are active |
| ScarLedger.ScarLogicCore.GetScar | src/filtration/scar_logic_core.py:28-35 | the search returns the first stored scar with the id, or nothing |
| ScarLedger.ScarLogicCore.DecayScar | src/filtration/scar_logic_core.py:37-46 | a known scar is retired in place, stays the one found under its id, is no longer active and lowers the active count by one if it was active; an unknown id changes nothing |
| EchoNets.FilterClaim | src/filtration/echonet.py:25-31 | a claim passes exactly when its stripped content has at least 10 characters and does not open with "ban " in any letter case; shortness is reported before a ban |
| EchoNets.FilterIgnoresPadding | src/filtration/echonet.py:26 | surrounding whitespace never changes the verdict |
| EchoNets.ShortBeatsForbidden | src/filtration/echonet.py:27-30 | a short ban command is reported as too short |
| EchoNets.UpperCaseBanForbidden | src/filtration/echonet.py:29-30 | a long enough claim opening with "BAN " is forbidden |
| EchoNets.Weight | src/filtration/echonet.py:42 | the scar's weight lies in [0, 100], is 1.5 per character below 67 characters and 100 from there |
| EchoNets.WeightMonotone | src/filtration/echonet.py:42 | a longer echo never makes a lighter scar |
| EchoNets.LinkedFrom | src/filtration/echonet.py:51 | no linked doctrine exactly when the link is missing or empty; otherwise the link alone |
| EchoNets.CollapseTest | src/filtration/echonet.py:33-58 | the scar is active, of unknown type, remembers the echo as its origin and only proximity, weighs by the echo's length and links the echo's doctrine |
| Perception.ProcessInput | src/perception/spl.py:15-35 | the echo holds the stripped input, no longer than the raw input and without surrounding whitespace, at full resonance |
| Perception.ProcessInputIdempotent | src/perception/spl.py:26-34 | perceiving an echo's own content again gives the same echo |
| Perception.PerceivedFilter | src/perception/spl.py:26-34 | the filter passes a perceived echo exactly when the stripped input is at least 10 characters long and opens with no "ban " |
| Perception.IntentName | src/perception/spl.py:46-52 | the intent is reported as "question", "command" or "claim" |
| Perception.ClassifyIntent | src/perception/spl.py:37-52 | a trailing question mark makes a question; otherwise a "do " or "please " opening in any case makes a command; the rest are claims |
| Perception.LowerKeepsQuestionMark | src/perception/spl.py:47-49 | lowercasing never creates or removes a trailing question mark |
| Grouping.ResolveScars | src/utils/symbolic_grouping.py:128 | only stored scars named by the ids come back, at most one per id, and every id that resolves contributes its scar |
| Grouping.ResolveDoctrines | src/utils/symbolic_grouping.py:135 | only stored doctrines named by the ids come back, at most one per id, and every id that resolves contributes its doctrine |
| Grouping.SortedUnion | src/utils/symbolic_grouping.py:37-42 | the union of every item's strings, sorted and without duplicates, holding exactly the strings some item lists |
| Grouping.TypesOf | src/utils/symbolic_grouping.py:114 | exactly the non-empty types some scar has |
| Grouping.SymbolicGrouping.constructor | src/utils/symbolic_grouping.py:20-22 | the grouping reads the given scar core and doctrine spine |
| Grouping.SymbolicGrouping.GroupScarsByTag | src/utils/symbolic_grouping.py:25-27 | every scar carrying the tag, as often as it is stored, and no other scar |
| Grouping.SymbolicGrouping.GroupScarsByType | src/utils/symbolic_grouping.py:29-31 | every scar of the type, as often as it is stored, and no other scar |
| Grouping.SymbolicGrouping.GroupScarsByReflex | src/utils/symbolic_grouping.py:33-35 | every scar linked to the reflex, as often as it is stored, and no other scar |
| Grouping.SymbolicGrouping.GroupScarsByStatus | src/utils/symbolic_grouping.py:108-110 | every scar in the decay state, as often as it is stored, and no other scar |
| Grouping.SymbolicGrouping.GroupDoctrinesByTag | src/utils/symbolic_grouping.py:45-47 | every doctrine carrying the tag, as often as it is stored, and no other doctrine |
| Grouping.SymbolicGrouping.GroupDoctrinesByStatus | src/utils/symbolic_grouping.py:49-51 | every doctrine with the status, as often as it is stored, and no other doctrine |
| Grouping.SymbolicGrouping.ConstellationByTag | src/utils/symbolic_grouping.py:61-69 | exactly the scars and exactly the doctrines carrying the tag |
| Grouping.SymbolicGrouping.ConstellationByReflex | src/utils/symbolic_grouping.py:71-80 | exactly the scars linked to the reflex and exactly the doctrines whose lineage names it |
| Grouping.SymbolicGrouping.FindScarTags | src/utils/symbolic_grouping.py:83-85 | the tags of the first scar with the id, none for an unknown id |
| Grouping.SymbolicGrouping.FindDoctrineTags | src/utils/symbolic_grouping.py:87-89 | the tags of the first doctrine with the id, none for an unknown id |
| Grouping.SymbolicGrouping.AllScarTags | src/utils/symbolic_grouping.py:37-42 | sorted, duplicate-free, and exactly the tags some scar carries |
| Grouping.SymbolicGrouping.AllDoctrineTags | src/utils/symbolic_grouping.py:53-58 | sorted, duplicate-free, and exactly the tags some doctrine carries |
| Grouping.SymbolicGrouping.AllScarReflexes | src/utils/symbolic_grouping.py:116-121 | sorted, duplicate-free, and exactly the reflexes some scar names |
| Grouping.SymbolicGrouping.AllScarTypes | src/utils/symbolic_grouping.py:112-114 | sorted, duplicate-free, and exactly the non-empty types some scar has |
| Grouping.SymbolicGrouping.LinkedScarsForDoctrine | src/utils/symbolic_grouping.py:124-129 | only stored scars the doctrine links to; none for an unknown doctrine |
| Grouping.SymbolicGrouping.LinkedDoctrinesForScar | src/utils/symbolic_grouping.py:131-136 | only stored doctrines the scar links to; none for an unknown scar |
| Grouping.SymbolicGrouping.LineageFrom | src/utils/symbolic_grouping.py:143-151 | one recursive step only extends the result, never past the depth, and appends the named doctrine first exactly when it is unseen, known and there is room |
| Grouping.SymbolicGrouping.TraverseDoctrineLineage | src/utils/symbolic_grouping.py:139-153 | at most depth doctrines, no id twice, all from the spine, starting with the named doctrine when it exists and depth is positive, and empty otherwise |
| Grouping.SymbolicGrouping.ChainFrom | src/utils/symbolic_grouping.py:159-170 | one recursive step only extends the chain, never past the depth, and appends the named scar first exactly when it is unseen, known and there is room |
| Grouping.SymbolicGrouping.TraverseScarLinks | src/utils/symbolic_grouping.py:155-172 | at most depth scars, no id twice, all from the scar list, starting with the named scar when it exists and depth is positive, and empty otherwise |
| Aurea.SecondsField | src/aurea_core.py:49 | the seconds field of an elapsed time always lies in [0, 86400) |
| Aurea.DayOldEventCountsAsRecent | src/aurea_core.py:48-49 | the written recency test accepts an event a day and five seconds old while rejecting one 100 seconds old |
| Aurea.RecentAgreesWithinDay | src/aurea_core.py:48-49 | within a day the written test and the corrected one agree |
| Aurea.OldEventsNeverRecent | src/aurea_core.py:48-49 | under the corrected test an event a minute old or older is never recent, however old |
| Aurea.Last | src/aurea_core.py:48 | `s[-n:]` keeps the last n elements, or all when there are fewer |
| Aurea.Mean | src/aurea_core.py:51-54 | the mean is 0 for no events, and otherwise times the count gives the sum of the levels |
| Aurea.SumAtMost | src/aurea_core.py:54 | levels each at most hi sum to at most hi per event |
| Aurea.SumAtLeast | src/aurea_core.py:54 | levels each at least lo sum to at least lo per event |
| Aurea.SymbolicPressureMonitor.constructor | src/aurea_core.py:25-28 | both histories start empty |
| Aurea.SymbolicPressureMonitor.RecordPressure | src/aurea_core.py:30-41 | the event is appended as the newest, the oldest is dropped past 100 events, and the coherence history is untouched |
| Aurea.SymbolicPressureMonitor.RecentEvents | src/aurea_core.py:48-49 | at most 20 events, all stored and recent, including every recent one among the last 20 |
| Aurea.SymbolicPressureMonitor.SystemPressure | src/aurea_core.py:43-54 | 0 with no history, and otherwise the mean level of the recent events |
| Aurea.MeanBelow | src/aurea_core.py:54 | a mean whose sum is at most t per event is at most t |
| Aurea.MeanAbove | src/aurea_core.py:54 | a mean whose sum is at least t per event is at least t |
| Aurea.HotMean | src/aurea_core.py:54-58 | a mean above a non-negative t needs an event above t |
| Aurea.MeanWithin | src/aurea_core.py:54 | the mean of levels within [lo, hi] lies within [lo, hi] |
| Aurea.CascadeNeedsHotEvent | src/aurea_core.py:56-58 | a cascade risk needs at least one recent event above 0.85 |
| Aurea.PressureWithinLevels | src/aurea_core.py:43-54 | levels within [lo, hi] keep the system pressure within [lo, hi] whenever some event is recent |
| Aurea.EmptyHistoryIsCalm | src/aurea_core.py:43-58 | with no history there is no cascade risk |
| Aurea.RouteFor | src/aurea_core.py:180-215 | a failed self-referential logical contradiction above 0.9 goes to the Black Sphere; any other failure above 0.9 to the archive, except a logical contradiction without the phrase; a failure strictly between 0.5 and 0.8 to the Veiled Thread; everything else stays unrouted |
| Aurea.ParkedIn | src/aurea_core.py:180-214 | step 3 on values changes only the system the route names (the sphere and its families for a paradox) and nothing for an unrouted echo |
| Aurea.ParkedHoldsEcho | src/aurea_core.py:185-214 | after step 3 the routed system holds an entry with the echo's content under the id the output reports and has counted one more suspension; a full sphere is left as it was |
| Aurea.LastWhere | src/aurea_core.py:253-262 | nothing exactly when no element passes; otherwise the position of a passing element after which none passes |
| Aurea.LastBlockerSpec | src/aurea_core.py:253-257 | the blocking reflex reported is nothing exactly when no response blocks, and otherwise the id of the last blocking response |
| Aurea.LastCascadeSpec | src/aurea_core.py:259-262 | the suspension reason is nothing exactly when no response calls a cascade, and otherwise the message of the last one that does |
| Aurea.ScanResponses | src/aurea_core.py:252-262 | the step-6 loop ends with the verdict of reading the responses in order |
| Aurea.ShownPressure | src/aurea_core.py:271-273 | the pressure is shown exactly when it exceeds 0.5 |
| Aurea.FormedScar | src/aurea_core.py:235 | without a scar from the filter, the collapse test's scar is active and remembers the echo |
| Aurea.FinalOutput | src/aurea_core.py:264-273 | a blocking reflex decides the message; otherwise it reports a processed echo exactly when the claim passed; it is never a suspension notice |
| Aurea.Answered | src/aurea_core.py:180-277 | the result steps 3 to 8 make: parking keeps the responses and the scar as they were; an error appears exactly for a full Black Sphere; a parked echo is blocked unless the sphere was full; the final message is never a notice |
| Aurea.AnsweredBlocking | src/aurea_core.py:248-277 | an echo that is not parked ends blocked exactly when some triggered response blocks output; unblocked, it reports the processed echo or the detected collapse; with no cascade risk and no scar density it triggers nothing and is not blocked |
| Aurea.AnsweredOpen | src/aurea_core.py:207-277 | a Veiled Thread notice is overwritten by steps 4 to 8, so what `Conclude` returns is `Answered` for the echo |
| Aurea.SeedDoctrines | src/aurea_core.py:115-131 | three doctrines, all seeds and active |
| Aurea.SeededSpine | src/aurea_core.py:111-131 | a fresh spine holding exactly the three seed doctrines |
| Aurea.AureaCore.constructor | src/aurea_core.py:67-113 | a fresh controller with capacities 50, 100 and 30, no scars, the seed doctrines, zeroed statistics and processing not suspended |
| Aurea.AureaCore.FormScar | src/aurea_core.py:232-250 | a failed claim stores one scar, the filter's or the collapse test's, and counts it; dense reports more than 50 active scars afterwards; a passed claim changes nothing |
| Aurea.AureaCore.ApplyReflexes | src/aurea_core.py:252-277 | each blocking response counts as a suppressed output, each response as a triggered reflex; the last blocker is reported and the last cascade response suspends processing with its message |
| Aurea.AureaCore.Conclude | src/aurea_core.py:217-277 | the cascade check's responses, then the density responses when a new scar makes more than 50 active; the scar, the final message, the suspension flag and reason, and every counter (`Tallied`) follow from them |
| Aurea.AureaCore.Park | src/aurea_core.py:180-215 | the three suspension systems become `ParkedIn` of what they were: the routed one stores the echo as its own `suspend` does, the others (all three for an unrouted echo) are unchanged; an archive echo is quarantined and blocked under its CSA id; a Black Sphere echo is blocked under its BS id unless the sphere is full, which reports an error instead; a Veiled Thread echo only gets a notice with its VT id and carries on |
| Aurea.AureaCore.ParkParadox | src/aurea_core.py:185-195 | the sphere and its families become `ParkedIn` for the Black Sphere route; a full sphere reports the capacity error, otherwise the output is blocked with the BS id |
| Aurea.AureaCore.ParkQuarantine | src/aurea_core.py:196-206 | the archive becomes `ParkedIn` for the Cold Suspension route and the output is blocked with the CSA id |
| Aurea.AureaCore.ParkVeiled | src/aurea_core.py:207-214 | the thread becomes `ParkedIn` for the Veiled Thread route and the output is the notice with the VT id |
| Aurea.AureaCore.ProcessInput | src/aurea_core.py:133-283 | while suspended the result is only the blocked notice and nothing changes. Otherwise the result is exactly `Answered` for the perceived echo, its route, the monitor's cascade verdict and the scar density; the echo is counted and its pressure recorded; the suspension systems become `ParkedIn` of what they were; a failed claim that is not parked forms exactly one scar; the counters are `Tallied` unless parked; and the suspension flag and reason follow the last cascade response |
| Aurea.AureaCore.Perceive | src/aurea_core.py:163-178 | the echo is counted and its collapse pressure joins the monitor's history |
| Aurea.AureaCore.Pipeline | src/aurea_core.py:162-283 | the result is exactly `Answered` for the route; the echo is counted and its pressure recorded; the suspension systems are `ParkedIn` for the route; the scar ledger grows by the scar of a failed claim that is not parked; the counters are `Tallied` unless parked; and the suspension flag and reason follow the last cascade response |
| Aurea.AureaCore.Respond | src/aurea_core.py:180-277 | steps 3 to 8 on a perceived echo: the result is exactly `Answered`; the systems are `ParkedIn` for the route; the counters are `Tallied` unless parked; and the suspension flag and reason follow the last cascade response |
| Aurea.AureaCore.RespondParked | src/aurea_core.py:180-206 | a parked echo: the result is `Answered` (quarantined, suspended or a full-sphere error); no scar forms, the counters are unchanged and processing is not suspended |
| Aurea.AureaCore.RespondOpen | src/aurea_core.py:207-277 | an echo that is not parked: the result is `Answered`, the scar of a failed claim is added, and the counters are `Tallied` |
| Aurea.AureaCore.ResumeProcessing | src/aurea_core.py:316-319 | the suspension and its reason are cleared and the statistics are untouched |
| Strings.Strip | src/perception/spl.py:26 | `str.strip()` leaves nothing shorter than the input that starts or ends with whitespace |
| Strings.StripCutsSpace | src/perception/spl.py:26 | stripping removes a whitespace prefix and a whitespace suffix and nothing else |
| Strings.StripIdempotent | src/filtration/echonet.py:25 | stripping twice is stripping once |
| Strings.Lower | src/perception/spl.py:46 | `str.lower()` keeps the length and lowercases each letter in place |
| Strings.Words | src/suspension/black_sphere.py:201 | `set(s.split())` holds only non-empty words without whitespace |
| Sorting.SortDescCorrect | src/suspension/suspension_base.py:104-108 | the newest-first sort is a permutation of its input, ordered by key, largest first |
| Sorting.SortDescHead | src/suspension/suspension_base.py:104-108 | the sort is stable: it starts with the first element of largest key |
| Sorting.TakeSorted | src/suspension/suspension_base.py:109 | the first n of a sorted sequence are sorted, drawn from it, and nothing left out outranks anything kept |

## Left out

- `reconfigure`, `ConstellationNode.gravitational_force_on`, `calculate_field_at_position` and `_find_nearest_node` (src/topology/tca_core.py:111-127, 365-490): a floating-point force simulation with `inf` sentinels. Rounding is what decides its behaviour, and exact reals do not capture rounding.
- `place_paradox`, `calculate_collapse_location`, `find_resonant_nodes` and `_echo_to_semantic_vector` (src/topology/tca_integration.py:160-248, 343-362): they are outside the placement, routing and cascade-risk bookkeeping modelled here.
- `get_topology_status`, `find_thought_path`, `visualize_ascii` and `_find_nodes_by_concept` (src/topology/tca_monitor.py): presentation strings and a text search. The graph facts they print are modelled by the other monitor members.
- `summarize_constellation`, `summarize_lineage` and `summarize_chain` (src/utils/symbolic_grouping.py:91-105, 175-189): they only format the modelled groupings as text.
- `VeiledThread.retrieve` and `VeiledThread.check_stability`, `BlackSphere.get_paradox_families`, `SuspensionSystem.get_statistics` and `AureaCore.get_system_status`: read-outs and counters outside the modelled suspension rules.
- Every `save_to_file` and `load_from_file` body, the `save_to_file` call at the end of each mutator, `DoctrineSpine.save_to_file/load_from_file` and src/utils/echo_memory.py: file and JSON I/O. The two load rules, `"inf"` depth and the edge recount, are modelled as functions on the loaded table.
- `datetime.now()`: every clock reading, and the id built from it, is a parameter (`now`, `stamp`). The 60-second window compares such readings in microseconds.
- `random.uniform` jitter in `_find_optimal_position`: the two draws are parameters of `AddNode`.
- `math.sqrt` and `math.log` are parameters. Distance facts that need a true square root assume `IsSqrt`.
- BlackSpheres.BlackSphere.FamilyResonance: only the zero cases and the cap at 1.0 are stated, not the logarithmic value.
- BlackSpheres.BlackSphere.NearbyParadoxes: `str.lower` is applied to ASCII letters only; word splitting uses Python's full whitespace set.
- TopologySpace.SearchPath and TopologySpace.QueueEdges: a node's edges are a map, so neighbours are queued in no fixed order rather than in the order the edges were added. When several walks reach the target, which one comes back is therefore not fixed, and that it has the fewest hops is not stated; only that it is a walk between the two nodes, and that one is found whenever one exists.
- TopologyMonitor.ConstellationReport: `bridge_connections` is a list of the constellation's bridge keys in insertion order; the model's bridges are a map, so the report gives the set of keys.
- TopologyCore.RecalculateCenter and TopologyCore.Cohesion: a constellation holds node objects, while the model holds member ids and reads each member through the node table. The two differ once `add_node` replaces a node under an id that a constellation still lists.
- Aurea.SymbolicPressureMonitor.RecentEvents: uses the corrected 60-second test, not the `timedelta.seconds` test as written, so an event a whole number of days old is not counted as recent (see "Findings").
- Aurea.SymbolicPressureMonitor.SystemPressure: averages over the corrected recent events, for the same reason.
- Aurea.SymbolicPressureMonitor.CheckCascadeRisk: counts the corrected recent events, for the same reason.
- Strings.Lower: Unicode case mapping is not modelled; only ASCII letters are lowercased.
- `ReflexGrid` (src/reflex/reflex_grid.py is not part of this model): its `evaluate_pressure` responses are inputs of `ProcessInput`.
- The EchoNet that `AureaCore` uses returns `pressure_generated`, `pressure_type` and an optional scar, which the `echonet.py` shown here does not produce. Its collapse result is therefore an input of `ProcessInput`.
- Exceptions other than the full Black Sphere (the only one the modelled code raises) are not modelled in `process_input`'s error path.
- src/utils/models.py lacks fields its consumers use (`Scar.type/name/tca_tags/reflexes`, `Doctrine.description/tca_tags`). The records in records.dfy follow the consumers instead.
- Quirks kept as written, with no property claimed beyond them:
  - `TopologicalSpace.add_node` on an existing id replaces the node with empty edges. Graph invariants are proved only for a fresh id.
  - `Constellation.add_node` of a member already present counts its mass twice.
  - The CSA recommendation stays "System stable" for an archive that is unstable only through five or more toxic entries, or whose load or average decay sits exactly on its bound.
  - The Veiled Thread's capacity is not strict: a full thread whose purge frees nothing still stores the new entry.

## Findings

| source | as written | input that shows it | evidently intended | confidence | as-written member | corrected member |
|---|---|---|---|---|---|---|
| src/aurea_core.py:48-49 | recency reads `timedelta.seconds`, the seconds field, which drops whole days | a pressure event recorded one day and five seconds earlier counts as recent | only events less than 60 seconds old count | high; not executed | Aurea.DayOldEventCountsAsRecent | Aurea.OldEventsNeverRecent |
