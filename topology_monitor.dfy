/**
 * TCAMonitor: read-only diagnostics over a topological space.  Each operation
 * takes the parts of the space it reads: the node table with its key order and
 * the constellation table with its key order (the space's `nodes`, `nodeOrder`,
 * `constellations` and `constellationOrder`).
 */
module TopologyMonitor {
  import opened Wrappers
  import opened SemanticVectors
  import opened TopologyCore
  import opened TopologySpace
  import Sorting

  // ---------------------------------------------------------------- fragmentation

  /** The ids a node's edges and bridges lead to: what the BFS queues after visiting it. */
  function Neighbours(n: Node): set<NodeId>
  {
    n.edges.Keys + (set y | y in n.scarBridges)
  }

  /** Every id that is a node or is named by some node's edges or bridges. */
  ghost function Mentioned(t: NodeTable): set<NodeId>
  {
    t.Keys + (set x, y | x in t && y in Neighbours(t[x]) :: y)
  }

  /** No node of s leads outside s. */
  ghost predicate NeighbourClosed(t: NodeTable, s: set<NodeId>)
  {
    forall x :: x in s && x in t ==> Neighbours(t[x]) <= s
  }

  /**
   * Every node reaches every other over edges and bridges: a set that holds a
   * node and is closed under neighbours holds every node.
   */
  ghost predicate Connected(t: NodeTable)
  {
    forall s: set<NodeId> :: NeighbourClosed(t, s) && (exists x :: x in s && x in t) ==> t.Keys <= s
  }

  /**
   * y can be reached from x over edges and bridges: every set that holds x and
   * is closed under neighbours holds y.
   */
  ghost predicate Reaches(t: NodeTable, x: NodeId, y: NodeId)
  {
    forall s: set<NodeId> {:trigger NeighbourClosed(t, s)} :: NeighbourClosed(t, s) && x in s ==> y in s
  }

  /** The i-th node in node order starts a component: no earlier node reaches it. */
  ghost predicate StartsComponent(t: NodeTable, order: seq<NodeId>, i: nat)
    requires i < |order|
  {
    forall j :: 0 <= j < i ==> !Reaches(t, order[j], order[i])
  }

  /** How many of the first i nodes in node order start a component. */
  ghost function Roots(t: NodeTable, order: seq<NodeId>, i: nat): nat
    requires i <= |order|
  {
    if i == 0 then 0 else Roots(t, order, i - 1) + (if StartsComponent(t, order, i - 1) then 1 else 0)
  }

  /** A node with no edges and no bridges. */
  predicate IsolatedIn(t: NodeTable, x: NodeId)
  {
    x in t && t[x].edges == map[] && t[x].scarBridges == []
  }

  ghost predicate NoLinks(t: NodeTable)
  {
    forall x :: x in t ==> IsolatedIn(t, x)
  }

  /** `queue.extend(node.edges.keys())`: the keys of a map, in some order. */
  method KeyList(m: map<NodeId, real>) returns (ks: seq<NodeId>)
    ensures forall y :: y in ks <==> y in m
  {
    ks := [];
    var pending := m.Keys;
    while pending != {}
      invariant forall y :: y in ks || y in pending <==> y in m
      decreases |pending|
    {
      var y :| y in pending;
      ks := ks + [y];
      pending := pending - {y};
    }
  }

  /** A finite set holding every node of t and every node one of them links to. */
  lemma Universe(t: NodeTable) returns (ids: set<NodeId>)
    ensures t.Keys <= ids
    ensures forall x :: x in t ==> Neighbours(t[x]) <= ids
  {
    ids := Mentioned(t);
  }

  /** Every neighbour of a visited node is visited or waiting in the queue. */
  ghost predicate Frontier(t: NodeTable, visited: set<NodeId>, queue: seq<NodeId>)
  {
    forall x, y :: x in visited && x in t && y in Neighbours(t[x]) ==> y in visited || y in queue
  }

  lemma FrontierSkip(t: NodeTable, visited: set<NodeId>, queue: seq<NodeId>)
    requires queue != [] && queue[0] in visited
    ensures Frontier(t, visited, queue) ==> Frontier(t, visited, queue[1..])
  {
    if Frontier(t, visited, queue) {
      forall x, y | x in visited && x in t && y in Neighbours(t[x]) ensures y in visited || y in queue[1..] {
        if y !in visited {
          assert y in queue && y != queue[0];
          var k :| 0 <= k < |queue| && queue[k] == y;
          assert queue[1..][k - 1] == y;
        }
      }
    }
  }

  lemma FrontierVisit(t: NodeTable, visited: set<NodeId>, queue: seq<NodeId>, more: seq<NodeId>)
    requires queue != []
    requires queue[0] in t ==> forall y :: y in Neighbours(t[queue[0]]) ==> y in more
    ensures Frontier(t, visited, queue) ==> Frontier(t, visited + {queue[0]}, queue[1..] + more)
  {
    if Frontier(t, visited, queue) {
      var v, q := visited + {queue[0]}, queue[1..] + more;
      forall x, y | x in v && x in t && y in Neighbours(t[x]) ensures y in v || y in q {
        if x != queue[0] && y !in v {
          assert y in queue && y != queue[0];
          var k :| 0 <= k < |queue| && queue[k] == y;
          assert q[k - 1] == y;
        } else if x == queue[0] {
          assert y in more;
          assert y in q;
        }
      }
    }
  }

  /** What the BFS queues after visiting a node: its edge keys, then its bridge list. */
  method NextIds(t: NodeTable, x: NodeId) returns (more: seq<NodeId>)
    ensures forall y :: y in more <==> x in t && y in Neighbours(t[x])
    ensures IsolatedIn(t, x) ==> more == []
  {
    more := [];
    if x in t {
      var ks := KeyList(t[x].edges);
      if ks != [] {
        assert ks[0] in t[x].edges;
      }
      more := ks + t[x].scarBridges;
    }
  }

  lemma FrontierClosed(t: NodeTable, visited: set<NodeId>)
    ensures Frontier(t, visited, []) ==> NeighbourClosed(t, visited)
  {
  }

  /**
   * The inner BFS of `_calculate_fragmentation`: visits everything reachable from
   * start that was not visited before; `component` is what this search visited.
   */
  method Explore(t: NodeTable, visited0: set<NodeId>, start: NodeId, ghost ids: set<NodeId>)
    returns (visited: set<NodeId>, component: set<NodeId>)
    requires start !in visited0 && start in ids
    requires forall x :: x in t ==> Neighbours(t[x]) <= ids
    ensures visited == visited0 + component && start in component
    ensures NeighbourClosed(t, visited0) ==> NeighbourClosed(t, visited)
    ensures IsolatedIn(t, start) ==> component == {start}
    ensures forall y :: y in component ==> Reaches(t, start, y)
  {
    visited, component := visited0, {};
    var queue := [start];
    while queue != []
      invariant Exploring(t, visited0, start, ids, visited, component, queue)
      decreases |ids - component|, |queue|
    {
      if queue[0] in visited {
        FrontierSkip(t, visited, queue);
        queue := queue[1..];
      } else {
        ghost var before := component;
        visited, component, queue := Visit(t, visited0, start, ids, visited, component, queue);
        assert ids - component < ids - before;
      }
    }
    FrontierClosed(t, visited);
  }

  /**
   * The state of the inner BFS: what it visited so far, every queued id among
   * the known ones, the start visited or still alone in the queue, and no
   * neighbour of a visited node lost when the earlier visits were closed.
   */
  ghost predicate Exploring(t: NodeTable, visited0: set<NodeId>, start: NodeId, ids: set<NodeId>,
                            visited: set<NodeId>, component: set<NodeId>, queue: seq<NodeId>)
  {
    && visited == visited0 + component && component <= ids
    && (forall q :: q in queue ==> q in ids)
    && ((component == {} && queue == [start]) || start in component)
    && (IsolatedIn(t, start) ==> (component == {} && queue == [start]) || (component == {start} && queue == []))
    && (NeighbourClosed(t, visited0) ==> Frontier(t, visited, queue))
    && (forall s :: NeighbourClosed(t, s) && start in s ==> component <= s && forall q :: q in queue ==> q in s)
  }

  /** One visit of the inner BFS: the head of the queue is marked and its neighbours queued. */
  method Visit(t: NodeTable, visited0: set<NodeId>, start: NodeId, ghost ids: set<NodeId>,
               visited: set<NodeId>, component: set<NodeId>, queue: seq<NodeId>)
    returns (visited': set<NodeId>, component': set<NodeId>, queue': seq<NodeId>)
    requires forall x :: x in t ==> Neighbours(t[x]) <= ids
    requires queue != [] && queue[0] !in visited
    requires Exploring(t, visited0, start, ids, visited, component, queue)
    ensures Exploring(t, visited0, start, ids, visited', component', queue')
    ensures component' == component + {queue[0]} && queue[0] !in component
  {
    var current := queue[0];
    var more := NextIds(t, current);
    FrontierVisit(t, visited, queue, more);
    visited' := visited + {current};
    component' := component + {current};
    queue' := queue[1..] + more;
  }

  /** The component count of `_calculate_fragmentation`: one BFS per node not yet visited. */
  method CountComponents(t: NodeTable, order: seq<NodeId>) returns (components: nat)
    requires Distinct(order) && forall x :: x in order <==> x in t
    ensures components <= |order| && (order != [] ==> 1 <= components)
    ensures NoLinks(t) ==> components == |order|
    ensures Connected(t) && order != [] ==> components == 1
    ensures components == Roots(t, order, |order|)
  {
    var visited: set<NodeId> := {};
    components := 0;
    ghost var ids := Universe(t);
    var i := 0;
    while i < |order|
      invariant i <= |order| && CountState(t, order, i, visited, components)
    {
      visited, components := CountNext(t, order, i, ids, visited, components);
      i := i + 1;
    }
    CountedAll(t, order, visited, components);
  }

  /** The outer loop's invariant: both views of what the first i nodes have counted. */
  ghost predicate CountState(t: NodeTable, order: seq<NodeId>, i: nat, visited: set<NodeId>, components: nat)
    requires i <= |order|
  {
    Counted(t, order, i, visited, components) && RootsCounted(t, order, i, visited, components)
  }

  /** What the outer loop of `_calculate_fragmentation` has counted once every node is seen. */
  lemma CountedAll(t: NodeTable, order: seq<NodeId>, visited: set<NodeId>, components: nat)
    requires CountState(t, order, |order|, visited, components)
    ensures components <= |order| && (order != [] ==> 1 <= components)
    ensures NoLinks(t) ==> components == |order|
    ensures Connected(t) && order != [] ==> components == 1
    ensures components == Roots(t, order, |order|)
  {
  }

  /**
   * The outer loop of `_calculate_fragmentation` after the first i nodes: at
   * most one component per node, all of them visited, and with no links every
   * node its own component, while a connected graph is one component.
   */
  ghost predicate Counted(t: NodeTable, order: seq<NodeId>, i: nat, visited: set<NodeId>, components: nat)
    requires i <= |order|
  {
    && components <= i && (i > 0 ==> 1 <= components)
    && (i == 0 ==> visited == {})
    && NeighbourClosed(t, visited)
    && (forall x :: x in order[..i] ==> x in visited)
    && (NoLinks(t) ==> components == i && forall x :: x in visited ==> x in order[..i])
    && (Connected(t) && i > 0 ==> t.Keys <= visited && components == 1)
  }

  /**
   * The same loop seen against reachability: every visited node is reached
   * from one of the first i nodes, and the count is the number of those that
   * no earlier node reaches.
   */
  ghost predicate RootsCounted(t: NodeTable, order: seq<NodeId>, i: nat, visited: set<NodeId>, components: nat)
    requires i <= |order|
  {
    && components == Roots(t, order, i)
    && (forall y {:trigger ReachedEarlier(t, order, i, y)} :: y in visited ==> ReachedEarlier(t, order, i, y))
  }

  /** One of the first i nodes in node order reaches y. */
  ghost predicate ReachedEarlier(t: NodeTable, order: seq<NodeId>, i: nat, y: NodeId)
    requires i <= |order|
  {
    exists j :: 0 <= j < i && Reaches(t, order[j], y)
  }

  /** A node some earlier search visited starts no component. */
  lemma RootsSkip(t: NodeTable, order: seq<NodeId>, i: nat, visited: set<NodeId>, components: nat)
    requires i < |order| && order[i] in visited
    requires RootsCounted(t, order, i, visited, components)
    ensures RootsCounted(t, order, i + 1, visited, components)
  {
    assert ReachedEarlier(t, order, i, order[i]);
    assert !StartsComponent(t, order, i);
    forall y | y in visited ensures ReachedEarlier(t, order, i + 1, y) {
      assert ReachedEarlier(t, order, i, y);
    }
  }

  /**
   * A node no earlier search visited (the visited set is closed and holds the
   * earlier nodes) is reached by none of them: it starts a component, and
   * what its search visits is reached from it.
   */
  lemma RootsNew(t: NodeTable, order: seq<NodeId>, i: nat, visited: set<NodeId>, components: nat, component: set<NodeId>)
    requires i < |order| && order[i] !in visited
    requires Counted(t, order, i, visited, components)
    requires RootsCounted(t, order, i, visited, components)
    requires forall y :: y in component ==> Reaches(t, order[i], y)
    ensures RootsCounted(t, order, i + 1, visited + component, components + 1)
  {
    forall j | 0 <= j < i ensures !Reaches(t, order[j], order[i]) {
      assert order[j] in order[..i];
    }
    assert StartsComponent(t, order, i);
    forall y | y in visited + component ensures ReachedEarlier(t, order, i + 1, y) {
      if y in visited {
        assert ReachedEarlier(t, order, i, y);
      } else {
        assert Reaches(t, order[i], y);
      }
    }
  }

  /** One node of the outer loop: a node not yet visited starts a new search. */
  method CountNext(t: NodeTable, order: seq<NodeId>, i: nat, ghost ids: set<NodeId>,
                   visited: set<NodeId>, components: nat)
    returns (visited': set<NodeId>, components': nat)
    requires Distinct(order) && (forall x :: x in order <==> x in t) && i < |order|
    requires t.Keys <= ids && forall x :: x in t ==> Neighbours(t[x]) <= ids
    requires CountState(t, order, i, visited, components)
    ensures CountState(t, order, i + 1, visited', components')
  {
    var id := order[i];
    assert id !in order[..i] by {
      assert forall k :: 0 <= k < i ==> order[k] != order[i];
    }
    visited', components' := visited, components;
    if id in visited {
      RootsSkip(t, order, i, visited, components);
    } else {
      var component;
      visited', component := Explore(t, visited, id, ids);
      RootsNew(t, order, i, visited, components, component);
      if component != {} {
        components' := components + 1;
      }
    }
    assert order[..i + 1] == order[..i] + [id];
  }

  /**
   * `_calculate_fragmentation`: (components - 1) / (nodes - 1), capped at 1.0;
   * 0.0 below two nodes.
   */
  method Fragmentation(t: NodeTable, order: seq<NodeId>) returns (f: real)
    requires Distinct(order) && forall x :: x in order <==> x in t
    ensures |t| < 2 ==> f == 0.0
    ensures 0.0 <= f <= 1.0
    ensures |t| >= 2 && NoLinks(t) ==> f == 1.0
    ensures |t| >= 2 && Connected(t) ==> f == 0.0
    ensures |t| >= 2 ==> f == Min((Roots(t, order, |order|) - 1) as real / (|t| - 1) as real, 1.0)
  {
    DistinctCard(order);
    assert (set x | x in order) == t.Keys;
    if |t| < 2 {
      return 0.0;
    }
    var components := CountComponents(t, order);
    FragmentationRatio(components, |t|);
    f := Min((components - 1) as real / (|t| - 1) as real, 1.0);
  }

  lemma FragmentationRatio(c: nat, n: nat)
    requires 1 <= c <= n && 2 <= n
    ensures 0.0 <= (c - 1) as real / (n - 1) as real <= 1.0
    ensures c == n ==> (c - 1) as real / (n - 1) as real == 1.0
    ensures c == 1 ==> (c - 1) as real / (n - 1) as real == 0.0
  {
    QuotientNonNegative((c - 1) as real, (n - 1) as real);
    var q := (c - 1) as real / (n - 1) as real;
    assert q * (n - 1) as real == (c - 1) as real;
  }

  // ---------------------------------------------------------------- isolated nodes

  /** `_find_isolated_nodes`: the nodes with no edges and no bridges, in node order. */
  method FindIsolated(t: NodeTable, order: seq<NodeId>) returns (r: seq<NodeId>)
    ensures r == Filter(order, x => IsolatedIn(t, x))
    ensures forall x :: x in r <==> x in order && IsolatedIn(t, x)
    ensures Distinct(order) ==> Distinct(r)
  {
    r := [];
    var i := 0;
    while i < |order|
      invariant 0 <= i <= |order|
      invariant r == Filter(order[..i], x => IsolatedIn(t, x))
    {
      FilterAppend(order[..i], order[i], x => IsolatedIn(t, x));
      assert order[..i + 1] == order[..i] + [order[i]];
      if IsolatedIn(t, order[i]) {
        r := r + [order[i]];
      }
      i := i + 1;
    }
    assert order[..i] == order;
    if Distinct(order) {
      FilterDistinct(order, x => IsolatedIn(t, x));
    }
  }

  // ---------------------------------------------------------------- gravity wells

  /** One entry of `_find_gravity_wells`. */
  datatype Well = Well(
    nodeId: NodeId,
    nodeType: NodeType,
    massStrength: real,
    fieldStrength: real,
    constellation: Option<ConstellationId>)

  /**
   * What another node adds to the field: its mass over the squared distance;
   * nothing at distance zero, and mass / inf == 0.0 at infinite distance.
   */
  function Pull(d: Dist, mass: real): real
  {
    if d.Fin? && d.value > 0.0 then mass / (d.value * d.value) else 0.0
  }

  /** The field strength at node id from the nodes in xs, the node itself excluded. */
  function FieldSum(t: NodeTable, xs: seq<NodeId>, id: NodeId, sqrt: real -> real): real
    requires id in t && forall x :: x in xs ==> x in t
  {
    if xs == [] then 0.0
    else
      var x := xs[|xs| - 1];
      FieldSum(t, xs[..|xs| - 1], id, sqrt) +
        (if x != id then Pull(Distance(t[id].position, t[x].position, sqrt), t[x].mass) else 0.0)
  }

  /** The inner loop of `_find_gravity_wells`. */
  method FieldStrength(t: NodeTable, order: seq<NodeId>, id: NodeId, sqrt: real -> real) returns (f: real)
    requires id in t && forall x :: x in order ==> x in t
    ensures f == FieldSum(t, order, id, sqrt)
  {
    f := 0.0;
    var i := 0;
    while i < |order|
      invariant 0 <= i <= |order|
      invariant f == FieldSum(t, order[..i], id, sqrt)
    {
      var other := order[i];
      assert order[..i + 1][..i] == order[..i];
      if other != id {
        var d := Distance(t[id].position, t[other].position, sqrt);
        if d.Fin? && d.value > 0.0 {
          f := f + Pull(d, t[other].mass);
        }
      }
      i := i + 1;
    }
    assert order[..i] == order;
  }

  function WellOf(t: NodeTable, order: seq<NodeId>, x: NodeId, sqrt: real -> real): Well
    requires x in t && forall y :: y in order ==> y in t
  {
    Well(x, t[x].nodeType, t[x].mass, FieldSum(t, order, x, sqrt), t[x].position.constellationId)
  }

  /** The wells of the nodes in xs with mass above 5.0, in node order, before sorting. */
  function Candidates(t: NodeTable, order: seq<NodeId>, xs: seq<NodeId>, sqrt: real -> real): seq<Well>
    requires forall y :: y in order ==> y in t
    requires forall y :: y in xs ==> y in t
  {
    if xs == [] then []
    else
      var x := xs[|xs| - 1];
      Candidates(t, order, xs[..|xs| - 1], sqrt) + (if t[x].mass > 5.0 then [WellOf(t, order, x, sqrt)] else [])
  }

  /** Every candidate is the well of a listed node heavier than 5.0, and every such node has one. */
  lemma {:induction false} CandidatesSpec(t: NodeTable, order: seq<NodeId>, xs: seq<NodeId>, sqrt: real -> real)
    requires forall y :: y in order ==> y in t
    requires forall y :: y in xs ==> y in t
    ensures forall w :: w in Candidates(t, order, xs, sqrt) <==>
      exists x :: x in xs && t[x].mass > 5.0 && w == WellOf(t, order, x, sqrt)
  {
    if xs != [] {
      var init := xs[..|xs| - 1];
      CandidatesSpec(t, order, init, sqrt);
      assert xs == init + [xs[|xs| - 1]];
    }
  }

  function FieldKey(w: Well): real
  {
    w.fieldStrength
  }

  /** `_find_gravity_wells`: the candidates sorted by field strength, strongest first, at most five. */
  function GravityWells(t: NodeTable, order: seq<NodeId>, sqrt: real -> real): seq<Well>
    requires forall y :: y in order ==> y in t
  {
    Sorting.Take(Sorting.SortDesc(Candidates(t, order, order, sqrt), FieldKey), 5)
  }

  /**
   * At most five wells, heavier than 5.0, strongest first, taken from the
   * candidates, and no candidate left out is stronger than one kept.
   */
  lemma GravityWellsTop(t: NodeTable, order: seq<NodeId>, sqrt: real -> real)
    requires forall y :: y in order ==> y in t
    ensures var c, r := Candidates(t, order, order, sqrt), GravityWells(t, order, sqrt);
      |r| == (if |c| < 5 then |c| else 5) &&
      Sorting.SortedDesc(r, FieldKey) &&
      multiset(r) <= multiset(c) &&
      (forall w :: w in r ==> w.massStrength > 5.0 && w.nodeId in t) &&
      (forall w, v :: w in multiset(c) - multiset(r) && v in r ==> w.fieldStrength <= v.fieldStrength)
  {
    var c := Candidates(t, order, order, sqrt);
    var s := Sorting.SortDesc(c, FieldKey);
    Sorting.SortDescCorrect(c, FieldKey);
    Sorting.TakeSorted(s, FieldKey, 5);
    CandidatesSpec(t, order, order, sqrt);
    var r := Sorting.Take(s, 5);
    forall w | w in r ensures w.massStrength > 5.0 && w.nodeId in t {
      assert w in multiset(r);
      assert w in multiset(c);
      assert w in c;
      var x :| x in order && t[x].mass > 5.0 && w == WellOf(t, order, x, sqrt);
    }
  }

  /** `_find_gravity_wells`, with its two loops. */
  method FindGravityWells(t: NodeTable, order: seq<NodeId>, sqrt: real -> real) returns (r: seq<Well>)
    requires forall y :: y in order ==> y in t
    ensures r == GravityWells(t, order, sqrt)
  {
    var wells: seq<Well> := [];
    var i := 0;
    while i < |order|
      invariant 0 <= i <= |order|
      invariant wells == Candidates(t, order, order[..i], sqrt)
    {
      var id := order[i];
      assert order[..i + 1][..i] == order[..i];
      if t[id].mass > 5.0 {
        var f := FieldStrength(t, order, id, sqrt);
        wells := wells + [Well(id, t[id].nodeType, t[id].mass, f, t[id].position.constellationId)];
      }
      i := i + 1;
    }
    assert order[..i] == order;
    r := Sorting.Take(Sorting.SortDesc(wells, FieldKey), 5);
  }

  // ---------------------------------------------------------------- anomalies

  datatype Severity = Medium | High | Critical

  /** The entries `detect_anomalies` reports. */
  datatype Anomaly =
    | OrphanedNode(nodeId: NodeId)
    | UnstableConstellation(constellationId: ConstellationId, stability: real)
    | ExtremeGravity(nodeId: NodeId, fieldStrength: real, massStrength: real)
    | ParadoxCascadeRisk(paradoxCount: nat, totalMass: real)

  function SeverityOf(a: Anomaly): Severity
  {
    match a
    case OrphanedNode(_) => Medium
    case UnstableConstellation(_, _) => High
    case ExtremeGravity(_, _, _) => High
    case ParadoxCascadeRisk(_, _) => Critical
  }

  const ParadoxVoid: ConstellationId := "paradox_void"

  /** One orphan entry per node of xs with no edges and no bridges, in node order. */
  function Orphans(t: NodeTable, xs: seq<NodeId>): seq<Anomaly>
  {
    if xs == [] then []
    else
      var x := xs[|xs| - 1];
      Orphans(t, xs[..|xs| - 1]) + (if IsolatedIn(t, x) then [OrphanedNode(x)] else [])
  }

  /** One entry per constellation of ys whose stability is below 0.3. */
  function Unstables(cs: map<ConstellationId, Constellation>, ys: seq<ConstellationId>): seq<Anomaly>
    requires forall y :: y in ys ==> y in cs
  {
    if ys == [] then []
    else
      var y := ys[|ys| - 1];
      Unstables(cs, ys[..|ys| - 1]) +
        (if cs[y].stability < 0.3 then [UnstableConstellation(y, cs[y].stability)] else [])
  }

  /** One entry per well whose field strength exceeds 50.0. */
  function Extremes(ws: seq<Well>): seq<Anomaly>
  {
    if ws == [] then []
    else
      var w := ws[|ws| - 1];
      Extremes(ws[..|ws| - 1]) +
        (if w.fieldStrength > 50.0 then [ExtremeGravity(w.nodeId, w.fieldStrength, w.massStrength)] else [])
  }

  function ParadoxIds(t: NodeTable, order: seq<NodeId>): seq<NodeId>
  {
    Filter(order, x => x in t && t[x].nodeType == Paradox)
  }

  /** Some paradox node sits in the paradox_void constellation. */
  predicate AnyInVoid(t: NodeTable, ps: seq<NodeId>)
  {
    exists k :: 0 <= k < |ps| && ps[k] in t && t[ps[k]].position.constellationId == Some(ParadoxVoid)
  }

  /**
   * The paradox-clustering entry: more than five paradox nodes, one of them in
   * paradox_void, and that constellation present with total mass above 30.
   */
  function Cascade(t: NodeTable, order: seq<NodeId>, cs: map<ConstellationId, Constellation>): seq<Anomaly>
  {
    var ps := ParadoxIds(t, order);
    if |ps| > 5 && AnyInVoid(t, ps) && ParadoxVoid in cs && cs[ParadoxVoid].totalMass > 30.0
    then [ParadoxCascadeRisk(|ps|, cs[ParadoxVoid].totalMass)]
    else []
  }

  function Anomalies(t: NodeTable, order: seq<NodeId>, cs: map<ConstellationId, Constellation>,
                     corder: seq<ConstellationId>, wells: seq<Well>): seq<Anomaly>
    requires forall y :: y in corder ==> y in cs
  {
    Orphans(t, order) + Unstables(cs, corder) + Extremes(wells) + Cascade(t, order, cs)
  }

  lemma {:induction false} OrphansSpec(t: NodeTable, xs: seq<NodeId>)
    ensures forall a :: a in Orphans(t, xs) <==> a.OrphanedNode? && a.nodeId in xs && IsolatedIn(t, a.nodeId)
  {
    if xs != [] {
      var init := xs[..|xs| - 1];
      OrphansSpec(t, init);
      assert xs == init + [xs[|xs| - 1]];
    }
  }

  lemma {:induction false} UnstablesSpec(cs: map<ConstellationId, Constellation>, ys: seq<ConstellationId>)
    requires forall y :: y in ys ==> y in cs
    ensures forall a :: a in Unstables(cs, ys) <==>
      a.UnstableConstellation? && a.constellationId in ys &&
      a.stability == cs[a.constellationId].stability && a.stability < 0.3
  {
    if ys != [] {
      var init := ys[..|ys| - 1];
      UnstablesSpec(cs, init);
      assert ys == init + [ys[|ys| - 1]];
    }
  }

  lemma {:induction false} ExtremesSpec(ws: seq<Well>)
    ensures forall a :: a in Extremes(ws) <==>
      exists w :: w in ws && w.fieldStrength > 50.0 && a == ExtremeGravity(w.nodeId, w.fieldStrength, w.massStrength)
  {
    if ws != [] {
      var init := ws[..|ws| - 1];
      ExtremesSpec(init);
      assert ws == init + [ws[|ws| - 1]];
    }
  }

  /**
   * The anomaly rules: an orphan entry exactly for each isolated node, an
   * unstable entry exactly for each constellation below 0.3, an extreme-gravity
   * entry exactly for each reported well above 50.0, and a cascade entry, with
   * the paradox count and the constellation's mass, exactly under the three
   * paradox conditions.
   */
  lemma AnomalyRules(t: NodeTable, order: seq<NodeId>, cs: map<ConstellationId, Constellation>,
                     corder: seq<ConstellationId>, wells: seq<Well>)
    requires forall y :: y in corder ==> y in cs
    ensures var r := Anomalies(t, order, cs, corder, wells);
      (forall x :: OrphanedNode(x) in r <==> x in order && IsolatedIn(t, x)) &&
      (forall c, s :: UnstableConstellation(c, s) in r <==> c in corder && s == cs[c].stability && s < 0.3) &&
      (forall w :: w in wells && w.fieldStrength > 50.0 ==> ExtremeGravity(w.nodeId, w.fieldStrength, w.massStrength) in r) &&
      (forall x, f, m :: ExtremeGravity(x, f, m) in r ==> f > 50.0 && exists w :: w in wells && w.nodeId == x && w.fieldStrength == f) &&
      (forall n, m :: ParadoxCascadeRisk(n, m) in r <==>
        |ParadoxIds(t, order)| > 5 && AnyInVoid(t, ParadoxIds(t, order)) &&
        ParadoxVoid in cs && cs[ParadoxVoid].totalMass > 30.0 &&
        n == |ParadoxIds(t, order)| && m == cs[ParadoxVoid].totalMass)
  {
    OrphanRule(t, order, cs, corder, wells);
    UnstableRule(t, order, cs, corder, wells);
    ExtremeRule(t, order, cs, corder, wells);
    CascadeRule(t, order, cs, corder, wells);
  }

  lemma CascadeRule(t: NodeTable, order: seq<NodeId>, cs: map<ConstellationId, Constellation>,
                    corder: seq<ConstellationId>, wells: seq<Well>)
    requires forall y :: y in corder ==> y in cs
    ensures forall n, m :: ParadoxCascadeRisk(n, m) in Anomalies(t, order, cs, corder, wells) <==>
        |ParadoxIds(t, order)| > 5 && AnyInVoid(t, ParadoxIds(t, order)) &&
        ParadoxVoid in cs && cs[ParadoxVoid].totalMass > 30.0 &&
        n == |ParadoxIds(t, order)| && m == cs[ParadoxVoid].totalMass
  {
    OrphansSpec(t, order);
    UnstablesSpec(cs, corder);
    ExtremesSpec(wells);
  }

  lemma OrphanRule(t: NodeTable, order: seq<NodeId>, cs: map<ConstellationId, Constellation>,
                   corder: seq<ConstellationId>, wells: seq<Well>)
    requires forall y :: y in corder ==> y in cs
    ensures forall x :: OrphanedNode(x) in Anomalies(t, order, cs, corder, wells) <==> x in order && IsolatedIn(t, x)
  {
    OrphansSpec(t, order);
    UnstablesSpec(cs, corder);
    ExtremesSpec(wells);
  }

  lemma UnstableRule(t: NodeTable, order: seq<NodeId>, cs: map<ConstellationId, Constellation>,
                     corder: seq<ConstellationId>, wells: seq<Well>)
    requires forall y :: y in corder ==> y in cs
    ensures forall c, s :: UnstableConstellation(c, s) in Anomalies(t, order, cs, corder, wells) <==>
      c in corder && s == cs[c].stability && s < 0.3
  {
    OrphansSpec(t, order);
    UnstablesSpec(cs, corder);
    ExtremesSpec(wells);
  }

  lemma ExtremeRule(t: NodeTable, order: seq<NodeId>, cs: map<ConstellationId, Constellation>,
                    corder: seq<ConstellationId>, wells: seq<Well>)
    requires forall y :: y in corder ==> y in cs
    ensures var r := Anomalies(t, order, cs, corder, wells);
      (forall w :: w in wells && w.fieldStrength > 50.0 ==> ExtremeGravity(w.nodeId, w.fieldStrength, w.massStrength) in r) &&
      (forall x, f, m :: ExtremeGravity(x, f, m) in r ==> f > 50.0 && exists w :: w in wells && w.nodeId == x && w.fieldStrength == f)
  {
    OrphansSpec(t, order);
    UnstablesSpec(cs, corder);
    ExtremesSpec(wells);
  }

  /** `detect_anomalies`. */
  method DetectAnomalies(t: NodeTable, order: seq<NodeId>, cs: map<ConstellationId, Constellation>,
                         corder: seq<ConstellationId>, sqrt: real -> real) returns (r: seq<Anomaly>)
    requires forall y :: y in order ==> y in t
    requires forall y :: y in corder ==> y in cs
    ensures r == Anomalies(t, order, cs, corder, GravityWells(t, order, sqrt))
  {
    r := OrphanScan(t, order);
    var u := UnstableScan(cs, corder);
    r := r + u;
    var wells := FindGravityWells(t, order, sqrt);
    var e := ExtremeScan(wells);
    r := r + e;
    var paradoxNodes := ParadoxIds(t, order);
    if |paradoxNodes| > 5 {
      var found := VoidConstellation(t, cs, paradoxNodes);
      if found.Some? && found.value.totalMass > 30.0 {
        r := r + [ParadoxCascadeRisk(|paradoxNodes|, found.value.totalMass)];
      }
    }
  }

  method OrphanScan(t: NodeTable, order: seq<NodeId>) returns (r: seq<Anomaly>)
    ensures r == Orphans(t, order)
  {
    r := [];
    var i := 0;
    while i < |order|
      invariant 0 <= i <= |order|
      invariant r == Orphans(t, order[..i])
    {
      assert order[..i + 1][..i] == order[..i];
      var node := order[i];
      if IsolatedIn(t, node) {
        r := r + [OrphanedNode(node)];
      }
      i := i + 1;
    }
    assert order[..i] == order;
  }

  method UnstableScan(cs: map<ConstellationId, Constellation>, corder: seq<ConstellationId>) returns (r: seq<Anomaly>)
    requires forall y :: y in corder ==> y in cs
    ensures r == Unstables(cs, corder)
  {
    r := [];
    var i := 0;
    while i < |corder|
      invariant 0 <= i <= |corder|
      invariant r == Unstables(cs, corder[..i])
    {
      assert corder[..i + 1][..i] == corder[..i];
      var c := cs[corder[i]];
      if c.stability < 0.3 {
        r := r + [UnstableConstellation(corder[i], c.stability)];
      }
      i := i + 1;
    }
    assert corder[..i] == corder;
  }

  method ExtremeScan(wells: seq<Well>) returns (r: seq<Anomaly>)
    ensures r == Extremes(wells)
  {
    r := [];
    var i := 0;
    while i < |wells|
      invariant 0 <= i <= |wells|
      invariant r == Extremes(wells[..i])
    {
      assert wells[..i + 1][..i] == wells[..i];
      var w := wells[i];
      if w.fieldStrength > 50.0 {
        r := r + [ExtremeGravity(w.nodeId, w.fieldStrength, w.massStrength)];
      }
      i := i + 1;
    }
    assert wells[..i] == wells;
  }

  /**
   * The search loop of the paradox rule: at the first paradox node in
   * paradox_void, `constellations.get("paradox_void")`.
   */
  method VoidConstellation(t: NodeTable, cs: map<ConstellationId, Constellation>, ps: seq<NodeId>)
    returns (found: Option<Constellation>)
    ensures found == if AnyInVoid(t, ps) && ParadoxVoid in cs then Some(cs[ParadoxVoid]) else None
  {
    found := None;
    var i := 0;
    while i < |ps|
      invariant 0 <= i <= |ps|
      invariant forall k :: 0 <= k < i ==> !(ps[k] in t && t[ps[k]].position.constellationId == Some(ParadoxVoid))
    {
      if ps[i] in t && t[ps[i]].position.constellationId == Some(ParadoxVoid) {
        found := if ParadoxVoid in cs then Some(cs[ParadoxVoid]) else None;
        return;
      }
      i := i + 1;
    }
  }

  // ---------------------------------------------------------------- projection

  function AbsKey(kv: (Label, real)): real
  {
    Abs(kv.1)
  }

  /** `_project_to_2d`: the two values of largest absolute weight, by a stable sort. */
  function ProjectTo2d(v: seq<(Label, real)>): (real, real)
  {
    if v == [] then (0.0, 0.0)
    else
      Sorting.SortDescCorrect(v, AbsKey);
      var dims := Sorting.SortDesc(v, AbsKey);
      (dims[0].1, if |dims| > 1 then dims[1].1 else 0.0)
  }

  /**
   * x is the first value of largest absolute weight; y is the first value of
   * largest absolute weight among the others, or 0.0 when there is none.
   */
  lemma ProjectTo2dRules(v: seq<(Label, real)>)
    ensures v == [] ==> ProjectTo2d(v) == (0.0, 0.0)
    ensures v != [] ==>
      var i := Sorting.FirstMax(v, AbsKey);
      ProjectTo2d(v).0 == v[i].1 &&
      (forall k :: 0 <= k < |v| ==> Abs(v[k].1) <= Abs(ProjectTo2d(v).0)) &&
      (forall k :: 0 <= k < i ==> Abs(v[k].1) < Abs(ProjectTo2d(v).0))
    ensures |v| == 1 ==> ProjectTo2d(v).1 == 0.0
    ensures |v| > 1 ==>
      var rest := Sorting.RemoveAt(v, Sorting.FirstMax(v, AbsKey));
      ProjectTo2d(v).1 == rest[Sorting.FirstMax(rest, AbsKey)].1
  {
    if v != [] {
      var i := Sorting.FirstMax(v, AbsKey);
      Sorting.SortDescHead(v, AbsKey);
      Sorting.SortDescCorrect(v, AbsKey);
      if |v| > 1 {
        var rest := Sorting.RemoveAt(v, i);
        Sorting.SortDescHead(rest, AbsKey);
      }
    }
  }

  // ---------------------------------------------------------------- densities

  /** The sum of the bridge-list lengths of the nodes in xs. */
  function BridgeEnds(t: NodeTable, xs: seq<NodeId>): nat
  {
    if xs == [] then 0
    else
      var x := xs[|xs| - 1];
      BridgeEnds(t, xs[..|xs| - 1]) + (if x in t then |t[x].scarBridges| else 0)
  }

  /** n(n-1)/2, the number of possible edges among n nodes. */
  function PossibleEdges(n: nat): real
  {
    (n * (n - 1)) as real / 2.0
  }

  /** `_calculate_edge_density`: edges plus bridges over possible edges. */
  function EdgeDensity(t: NodeTable, order: seq<NodeId>, totalEdges: int): real
  {
    var n := |t|;
    if n < 2 then 0.0
    else (totalEdges + BridgeEnds(t, order) / 2) as real / PossibleEdges(n)
  }

  /** `_calculate_bridge_density`: bridges over possible edges. */
  function BridgeDensity(t: NodeTable, order: seq<NodeId>): real
  {
    var n := |t|;
    if n < 2 then 0.0
    else (BridgeEnds(t, order) / 2) as real / PossibleEdges(n)
  }

  /**
   * Both densities are 0.0 below two nodes; otherwise edge density is bridge
   * density plus the edge counter over the possible edges, so it is never below
   * bridge density, and neither is negative.
   */
  lemma DensityRules(t: NodeTable, order: seq<NodeId>, totalEdges: int)
    ensures |t| < 2 ==> EdgeDensity(t, order, totalEdges) == 0.0 && BridgeDensity(t, order) == 0.0
    ensures |t| >= 2 ==>
      EdgeDensity(t, order, totalEdges) == BridgeDensity(t, order) + totalEdges as real / PossibleEdges(|t|)
    ensures totalEdges >= 0 ==> 0.0 <= BridgeDensity(t, order) <= EdgeDensity(t, order, totalEdges)
  {
    var n := |t|;
    if n >= 2 {
      var p := PossibleEdges(n);
      assert n * (n - 1) >= 2 by { MulAtLeast(n, n - 1); }
      var b := (BridgeEnds(t, order) / 2) as real;
      var e := totalEdges as real;
      SplitQuotient(e, b, p);
      if totalEdges >= 0 {
        QuotientNonNegative(b, p);
        QuotientNonNegative(e, p);
      }
    }
  }

  lemma MulAtLeast(a: nat, b: nat)
    requires a >= 2 && b >= 1
    ensures a * b >= 2
  {
  }

  lemma SplitQuotient(e: real, b: real, p: real)
    requires p > 0.0
    ensures (e + b) / p == b / p + e / p
  {
  }

  /** Bridge ends counted over the node order change only at the updated node. */
  lemma {:induction false} BridgeEndsUpdate(t: NodeTable, xs: seq<NodeId>, a: NodeId, n: Node)
    requires a in t && Distinct(xs)
    ensures a in xs ==> BridgeEnds(t[a := n], xs) + |t[a].scarBridges| == BridgeEnds(t, xs) + |n.scarBridges|
    ensures a !in xs ==> BridgeEnds(t[a := n], xs) == BridgeEnds(t, xs)
  {
    if xs != [] {
      var init := xs[..|xs| - 1];
      assert Distinct(init) by {
        forall i, j | 0 <= i < j < |init| ensures init[i] != init[j] { assert init[i] == xs[i] && init[j] == xs[j]; }
      }
      BridgeEndsUpdate(t, init, a, n);
      assert xs == init + [xs[|xs| - 1]];
      if xs[|xs| - 1] == a {
        assert a !in init by {
          forall k | 0 <= k < |init| ensures init[k] != a { assert init[k] == xs[k]; }
        }
      }
    }
  }

  /** A scar bridge adds exactly two bridge ends, so `// 2` counts it once. */
  lemma WithBridgeEnds(t: NodeTable, order: seq<NodeId>, a: NodeId, b: NodeId)
    requires a in t && b in t && Distinct(order) && a in order && b in order
    ensures BridgeEnds(WithBridge(t, a, b), order) == BridgeEnds(t, order) + 2
  {
    var t1 := t[a := t[a].(scarBridges := t[a].scarBridges + [b])];
    BridgeEndsUpdate(t, order, a, t1[a]);
    BridgeEndsUpdate(t1, order, b, t1[b].(scarBridges := t1[b].scarBridges + [a]));
  }

  // ---------------------------------------------------------------- stability

  /** The stability of constellation c, or 0.0 when it is not in the table. */
  function StabilityIn(cs: map<ConstellationId, Constellation>, c: ConstellationId): real
  {
    if c in cs then cs[c].stability else 0.0
  }

  /** `_average_constellation_stability`: 1.0 with no constellations, else the mean. */
  function AverageStability(cs: map<ConstellationId, Constellation>, corder: seq<ConstellationId>): real
  {
    if corder == [] then 1.0
    else SumOf(corder, c => StabilityIn(cs, c)) / |corder| as real
  }

  /** The mean lies within any bounds all stabilities lie within. */
  lemma AverageStabilityBounds(cs: map<ConstellationId, Constellation>, corder: seq<ConstellationId>, lo: real, hi: real)
    requires forall c :: c in corder ==> c in cs && lo <= cs[c].stability <= hi
    ensures corder == [] ==> AverageStability(cs, corder) == 1.0
    ensures corder != [] ==> lo <= AverageStability(cs, corder) <= hi
  {
    if corder != [] {
      SumOfBounds(corder, c => StabilityIn(cs, c), lo, hi);
      MeanBounds(SumOf(corder, c => StabilityIn(cs, c)), |corder| as real, lo, hi);
    }
  }

  lemma MeanBounds(sum: real, n: real, lo: real, hi: real)
    requires n > 0.0 && n * lo <= sum <= n * hi
    ensures lo <= sum / n <= hi
  {
    assert (sum / n) * n == sum;
    if sum / n < lo {
      MulMono(sum / n, lo, n);
    }
    if sum / n > hi {
      MulMono(hi, sum / n, n);
    }
  }

  // ---------------------------------------------------------------- constellation report

  /** `get_constellation_report`; the bridge connections are kept as a set. */
  datatype Report = Report(
    id: ConstellationId,
    constellationType: ConstellationType,
    totalNodes: nat,
    nodeTypes: map<NodeType, nat>,
    totalMass: real,
    averageCollapseDepth: real,
    cohesion: real,
    stability: real,
    gravityCenter: Option<NodeId>,
    hubNode: Option<NodeId>,
    totalEdgeDegree: nat,
    uniqueEdges: nat,
    scarBridges: nat,
    bridgeConnections: set<ConstellationId>,
    radius: real,
    rotationRate: real,
    expansionRate: real)

  /** The sum of the degrees of the nodes in xs. */
  function DegreeSum(t: NodeTable, xs: seq<NodeId>): nat
  {
    if xs == [] then 0
    else
      var x := xs[|xs| - 1];
      DegreeSum(t, xs[..|xs| - 1]) + (if x in t then |t[x].edges| else 0)
  }

  /** How many nodes of xs have type ty. */
  function TypeCount(t: NodeTable, xs: seq<NodeId>, ty: NodeType): nat
  {
    if xs == [] then 0
    else
      var x := xs[|xs| - 1];
      TypeCount(t, xs[..|xs| - 1], ty) + (if x in t && t[x].nodeType == ty then 1 else 0)
  }

  /** The hub key: edges plus bridges. */
  function LinkCount(t: NodeTable, x: NodeId): real
  {
    if x in t then (|t[x].edges| + |t[x].scarBridges|) as real else 0.0
  }

  /** The most connected member, the first of them on a tie (Python's `max`). */
  function Hub(t: NodeTable, ms: seq<NodeId>): (h: Option<NodeId>)
    ensures ms == [] <==> h == None
    ensures h.Some? ==> h.value in ms && forall m :: m in ms ==> LinkCount(t, m) <= LinkCount(t, h.value)
  {
    if ms == [] then None else Some(ms[Sorting.FirstMax(ms, x => LinkCount(t, x))])
  }

  lemma {:induction false} RowCard(x: NodeId, ys: set<NodeId>)
    ensures |Row(x, ys)| <= |ys|
    decreases |ys|
  {
    if ys != {} {
      var y :| y in ys;
      var zs := ys - {y};
      RowCard(x, zs);
      RowAdd(x, zs, y);
      assert zs + {y} == ys;
    }
  }

  lemma PairsFromLast(t: NodeTable, xs: seq<NodeId>)
    requires xs != []
    ensures var x := xs[|xs| - 1];
      PairsFrom(t, xs) == PairsFrom(t, xs[..|xs| - 1]) + (if x in t then Row(x, t[x].edges.Keys) else {})
  {
    var i := |xs| - 1;
    assert xs[..i + 1] == xs;
    if xs[i] in t {
      PairsFromStep(t, xs, i);
    } else {
      assert xs == xs[..i] + [xs[i]];
    }
  }

  /** The unordered pairs among the members' edges never outnumber the degree sum. */
  lemma {:induction false} UniqueEdgesAtMostDegree(t: NodeTable, xs: seq<NodeId>)
    ensures |PairsFrom(t, xs)| <= DegreeSum(t, xs)
  {
    if xs != [] {
      var x := xs[|xs| - 1];
      UniqueEdgesAtMostDegree(t, xs[..|xs| - 1]);
      PairsFromLast(t, xs);
      if x in t {
        RowCard(x, t[x].edges.Keys);
      }
    } else {
      assert PairsFrom(t, xs) == {};
    }
  }

  /** One step of the node-type count: adds the type of ms[i]. */
  method CountType(t: NodeTable, ms: seq<NodeId>, i: nat, counts0: map<NodeType, nat>)
    returns (counts: map<NodeType, nat>)
    requires i < |ms| && ms[i] in t
    requires forall ty :: ty in counts0 <==> TypeCount(t, ms[..i], ty) > 0
    requires forall ty :: ty in counts0 ==> counts0[ty] == TypeCount(t, ms[..i], ty)
    ensures forall ty :: ty in counts <==> TypeCount(t, ms[..i + 1], ty) > 0
    ensures forall ty :: ty in counts ==> counts[ty] == TypeCount(t, ms[..i + 1], ty)
  {
    assert ms[..i + 1][..i] == ms[..i];
    var ty := t[ms[i]].nodeType;
    counts := counts0[ty := (if ty in counts0 then counts0[ty] else 0) + 1];
  }

  /**
   * The member loop of `get_constellation_report`: node-type counts, degree sum,
   * unordered edge pairs and bridge ends.
   */
  method Tally(t: NodeTable, ms: seq<NodeId>)
    returns (nodeTypes: map<NodeType, nat>, degree: nat, unique: nat, bridges: nat)
    requires forall m :: m in ms ==> m in t
    ensures degree == DegreeSum(t, ms) && unique == |PairsFrom(t, ms)| && bridges == BridgeEnds(t, ms)
    ensures forall ty :: ty in nodeTypes <==> TypeCount(t, ms, ty) > 0
    ensures forall ty :: ty in nodeTypes ==> nodeTypes[ty] == TypeCount(t, ms, ty)
  {
    nodeTypes, degree, unique, bridges := map[], 0, 0, 0;
    var counted: set<set<NodeId>> := {};
    var i := 0;
    while i < |ms|
      invariant 0 <= i <= |ms|
      invariant degree == DegreeSum(t, ms[..i]) && bridges == BridgeEnds(t, ms[..i])
      invariant counted == PairsFrom(t, ms[..i]) && unique == |counted|
      invariant forall ty :: ty in nodeTypes <==> TypeCount(t, ms[..i], ty) > 0
      invariant forall ty :: ty in nodeTypes ==> nodeTypes[ty] == TypeCount(t, ms[..i], ty)
    {
      var node := t[ms[i]];
      assert ms[..i + 1][..i] == ms[..i];
      nodeTypes := CountType(t, ms, i, nodeTypes);
      degree := degree + |node.edges|;
      counted, unique := CountRow(ms[i], node.edges.Keys, counted, unique);
      PairsFromStep(t, ms, i);
      bridges := bridges + |node.scarBridges|;
      i := i + 1;
    }
    assert ms[..i] == ms;
  }

  /** `get_constellation_report`: None for an unknown id. */
  method ConstellationReport(t: NodeTable, cs: map<ConstellationId, Constellation>, cid: ConstellationId,
                             sqrt: real -> real) returns (r: Option<Report>)
    requires ConstellationsKnown(cs, t.Keys) && IsSqrt(sqrt)
    ensures cid !in cs <==> r == None
    ensures cid in cs ==> var c, rep := cs[cid], r.value;
      rep.id == cid && rep.constellationType == c.constellationType &&
      rep.totalNodes == |c.members| &&
      rep.totalEdgeDegree == DegreeSum(t, c.members) &&
      rep.uniqueEdges == |PairsFrom(t, c.members)| &&
      rep.uniqueEdges <= rep.totalEdgeDegree &&
      rep.scarBridges == BridgeEnds(t, c.members) &&
      rep.hubNode == Hub(t, c.members) &&
      (forall ty :: ty in rep.nodeTypes <==> TypeCount(t, c.members, ty) > 0) &&
      (forall ty :: ty in rep.nodeTypes ==> rep.nodeTypes[ty] == TypeCount(t, c.members, ty)) &&
      rep.cohesion == CohesionOf(c, t, sqrt) && 0.0 <= rep.cohesion <= 1.0 &&
      rep.totalMass == c.totalMass && rep.averageCollapseDepth == c.avgCollapseDepth &&
      rep.stability == c.stability && rep.gravityCenter == c.gravityCenter &&
      rep.bridgeConnections == c.bridges.Keys &&
      rep.radius == c.radius && rep.rotationRate == c.rotationRate && rep.expansionRate == c.expansionRate
  {
    if cid !in cs {
      return None;
    }
    var c := cs[cid];
    var nodeTypes, degree, unique, bridges := Tally(t, c.members);
    UniqueEdgesAtMostDegree(t, c.members);
    var cohesion := Cohesion(c, t, sqrt);
    CohesionOfBounds(c, t, sqrt);
    r := Some(Report(cid, c.constellationType, |c.members|, nodeTypes, c.totalMass, c.avgCollapseDepth,
                     cohesion, c.stability, c.gravityCenter, Hub(t, c.members), degree, unique, bridges,
                     c.bridges.Keys, c.radius, c.rotationRate, c.expansionRate));
  }
}
