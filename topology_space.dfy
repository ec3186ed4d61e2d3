/**
 * TopologicalSpace of src/topology/tca_core.py: the node table with its
 * symmetric weighted adjacency, the scar-bridge lists and wormhole registry,
 * the constellation table, node insertion, edge and bridge creation,
 * constellation creation, nearest-constellation search, breadth-first path
 * search, and the two rules of loading a saved map that are not I/O: the
 * undirected-edge recount and the "inf" collapse depth.
 */
module TopologySpace {
  import opened Wrappers
  import opened SemanticVectors
  import opened TopologyCore
  import Strings

  // ---------------------------------------------------------------------------
  // Graph facts about a node table.

  /** Every edge and bridge leads to a node of the table. */
  ghost predicate Closed(t: NodeTable)
  {
    forall x :: x in t ==>
      (forall y :: y in t[x].edges ==> y in t) &&
      (forall k :: 0 <= k < |t[x].scarBridges| ==> t[x].scarBridges[k] in t)
  }

  /** Edges go both ways with the same weight. */
  ghost predicate EdgesSymmetric(t: NodeTable)
  {
    forall x, y :: x in t && y in t[x].edges ==> y in t && x in t[y].edges && t[y].edges[x] == t[x].edges[y]
  }

  /** How many times y occurs in x's bridge list. */
  function BridgeCount(t: NodeTable, x: NodeId, y: NodeId): nat
    requires x in t
  {
    multiset(t[x].scarBridges)[y]
  }

  /** Bridges are recorded at both ends, as often at one end as at the other. */
  ghost predicate BridgesSymmetric(t: NodeTable)
  {
    forall x, y :: x in t && y in t ==> BridgeCount(t, x, y) == BridgeCount(t, y, x)
  }

  /** The undirected edges: unordered pairs {a, b} with b among a's edges. */
  ghost function UndirectedPairs(t: NodeTable): set<set<NodeId>>
  {
    set x, y | x in t && y in t[x].edges :: {x, y}
  }

  /** Symmetric edges, symmetric bridge counts, and e undirected edges. */
  ghost predicate GraphFacts(t: NodeTable, e: int)
  {
    EdgesSymmetric(t) && BridgesSymmetric(t) && e == |UndirectedPairs(t)|
  }

  /** Two tables with the same nodes, edges and bridges (other fields may differ). */
  ghost predicate SameLinks(t1: NodeTable, t2: NodeTable)
  {
    t1.Keys == t2.Keys &&
    forall x :: x in t1 ==> t1[x].edges == t2[x].edges && t1[x].scarBridges == t2[x].scarBridges
  }

  lemma SameLinksGraph(t1: NodeTable, t2: NodeTable, e: int)
    requires SameLinks(t1, t2)
    ensures Closed(t1) ==> Closed(t2)
    ensures GraphFacts(t1, e) ==> GraphFacts(t2, e)
  {
    SameLinksFacts(t1, t2);
  }

  /** The graph facts depend only on the links. */
  lemma SameLinksFacts(t1: NodeTable, t2: NodeTable)
    requires SameLinks(t1, t2)
    ensures Closed(t1) <==> Closed(t2)
    ensures EdgesSymmetric(t1) <==> EdgesSymmetric(t2)
    ensures BridgesSymmetric(t1) <==> BridgesSymmetric(t2)
    ensures UndirectedPairs(t1) == UndirectedPairs(t2)
  {
    assert forall x, y :: x in t1 ==> BridgeCount(t1, x, y) == BridgeCount(t2, x, y);
  }

  lemma MarkMemberLinks(t: NodeTable, id: NodeId, cid: ConstellationId)
    requires id in t
    ensures SameLinks(t, MarkMember(t, id, cid))
  {
  }

  lemma PairCases(x: NodeId, y: NodeId, a: NodeId, b: NodeId)
    requires {x, y} == {a, b}
    ensures (x == a && y == b) || (x == b && y == a)
  {
    assert x in {a, b} && y in {a, b};
    assert a in {x, y} && b in {x, y};
  }

  /** The table after `create_edge`'s two writes. */
  function WithEdge(t: NodeTable, a: NodeId, b: NodeId, w: real): (r: NodeTable)
    requires a in t && b in t
    ensures r.Keys == t.Keys
  {
    var t1 := t[a := t[a].(edges := t[a].edges[b := w])];
    t1[b := t1[b].(edges := t1[b].edges[a := w])]
  }

  /**
   * `create_edge` writes both directions with the same weight and leaves every
   * other adjacency entry, every bridge and every other field as it was.
   */
  lemma WithEdgeWrites(t: NodeTable, a: NodeId, b: NodeId, w: real)
    requires a in t && b in t
    ensures WithEdge(t, a, b, w)[a].edges[b] == w && WithEdge(t, a, b, w)[b].edges[a] == w
    ensures forall x :: x in t ==>
      WithEdge(t, a, b, w)[x].scarBridges == t[x].scarBridges &&
      WithEdge(t, a, b, w)[x].position == t[x].position && WithEdge(t, a, b, w)[x].mass == t[x].mass
    ensures forall x, y :: x in t && y in t[x].edges && !(x == a && y == b) && !(x == b && y == a) ==>
      y in WithEdge(t, a, b, w)[x].edges && WithEdge(t, a, b, w)[x].edges[y] == t[x].edges[y]
    ensures forall x, y :: x in t && y in WithEdge(t, a, b, w)[x].edges ==>
      y in t[x].edges || (x == a && y == b) || (x == b && y == a)
  {
  }

  /** A new edge between known nodes keeps the graph closed. */
  lemma WithEdgeClosed(t: NodeTable, a: NodeId, b: NodeId, w: real)
    requires a in t && b in t && Closed(t)
    ensures Closed(WithEdge(t, a, b, w))
  {
    WithEdgeWrites(t, a, b, w);
  }

  /** A new edge keeps the edges symmetric. */
  lemma WithEdgeSymmetric(t: NodeTable, a: NodeId, b: NodeId, w: real)
    requires a in t && b in t && b !in t[a].edges && EdgesSymmetric(t)
    ensures EdgesSymmetric(WithEdge(t, a, b, w))
  {
    var r := WithEdge(t, a, b, w);
    WithEdgeWrites(t, a, b, w);
    assert a !in t[b].edges;
    forall x, y | x in r && y in r[x].edges ensures y in r && x in r[y].edges && r[y].edges[x] == r[x].edges[y] {
      if (x == a && y == b) || (x == b && y == a) {
      } else {
        assert y in t[x].edges;
        assert x in t[y].edges && t[y].edges[x] == t[x].edges[y];
        assert !(y == a && x == b) && !(y == b && x == a);
      }
    }
  }

  /** A new edge leaves the bridges alone. */
  lemma WithEdgeBridges(t: NodeTable, a: NodeId, b: NodeId, w: real)
    requires a in t && b in t
    ensures BridgesSymmetric(t) ==> BridgesSymmetric(WithEdge(t, a, b, w))
  {
    var r := WithEdge(t, a, b, w);
    WithEdgeWrites(t, a, b, w);
    assert forall x, y :: x in t ==> BridgeCount(r, x, y) == BridgeCount(t, x, y);
  }

  /** A new edge adds exactly the pair {a, b}, which was not an edge before. */
  lemma WithEdgePairs(t: NodeTable, a: NodeId, b: NodeId, w: real)
    requires a in t && b in t && b !in t[a].edges && EdgesSymmetric(t)
    ensures {a, b} !in UndirectedPairs(t)
    ensures UndirectedPairs(WithEdge(t, a, b, w)) == UndirectedPairs(t) + {{a, b}}
  {
    var r := WithEdge(t, a, b, w);
    WithEdgeWrites(t, a, b, w);
    assert a !in t[b].edges;
    var old_, new_ := UndirectedPairs(t), UndirectedPairs(r);
    if {a, b} in old_ {
      var x, y :| x in t && y in t[x].edges && {x, y} == {a, b};
      PairCases(x, y, a, b);
      assert false;
    }
    forall p | p in new_ ensures p in old_ + {{a, b}} {
      var x, y :| x in r && y in r[x].edges && p == {x, y};
      if (x == a && y == b) || (x == b && y == a) {
        assert p == {a, b};
      } else {
        assert y in t[x].edges;
      }
    }
    forall p | p in old_ + {{a, b}} ensures p in new_ {
      if p == {a, b} {
        assert b in r[a].edges;
      } else {
        var x, y :| x in t && y in t[x].edges && p == {x, y};
        assert !(x == a && y == b) && !(x == b && y == a);
        assert y in r[x].edges;
      }
    }
  }

  /** A new edge keeps the graph facts, with one more undirected edge. */
  lemma WithEdgeGraph(t: NodeTable, a: NodeId, b: NodeId, w: real, e: int)
    requires a in t && b in t && b !in t[a].edges
    ensures GraphFacts(t, e) ==> GraphFacts(WithEdge(t, a, b, w), e + 1)
  {
    if GraphFacts(t, e) {
      WithEdgeSymmetric(t, a, b, w);
      WithEdgeBridges(t, a, b, w);
      WithEdgePairs(t, a, b, w);
    }
  }

  /** The table after `create_scar_bridge`'s two appends. */
  function WithBridge(t: NodeTable, a: NodeId, b: NodeId): (r: NodeTable)
    requires a in t && b in t
    ensures r.Keys == t.Keys
  {
    var t1 := t[a := t[a].(scarBridges := t[a].scarBridges + [b])];
    t1[b := t1[b].(scarBridges := t1[b].scarBridges + [a])]
  }

  /** Each endpoint gains one entry for the other (a self bridge gains two), with no deduplication. */
  lemma WithBridgeCounts(t: NodeTable, a: NodeId, b: NodeId)
    requires a in t && b in t
    ensures a != b ==> WithBridge(t, a, b)[a].scarBridges == t[a].scarBridges + [b]
    ensures a != b ==> WithBridge(t, a, b)[b].scarBridges == t[b].scarBridges + [a]
    ensures a == b ==> WithBridge(t, a, b)[a].scarBridges == t[a].scarBridges + [a, a]
    ensures forall x :: x in t && x != a && x != b ==> WithBridge(t, a, b)[x] == t[x]
    ensures forall x :: x in t ==> WithBridge(t, a, b)[x].edges == t[x].edges
    ensures forall x :: x in t ==> WithBridge(t, a, b)[x] == t[x].(scarBridges := WithBridge(t, a, b)[x].scarBridges)
  {
    if a == b {
      assert t[a].scarBridges + [a] + [a] == t[a].scarBridges + [a, a];
    }
  }

  /** A bridge between a and b adds one count at each end (two for a self bridge) and nothing else. */
  lemma WithBridgeCountChange(t: NodeTable, a: NodeId, b: NodeId)
    requires a in t && b in t
    ensures forall x, y :: x in t && y in t ==>
      BridgeCount(WithBridge(t, a, b), x, y) ==
      BridgeCount(t, x, y) + (if x == a && y == b then 1 else 0) + (if x == b && y == a then 1 else 0)
  {
    var r := WithBridge(t, a, b);
    WithBridgeCounts(t, a, b);
    forall x, y | x in t && y in t
      ensures BridgeCount(r, x, y) == BridgeCount(t, x, y) + (if x == a && y == b then 1 else 0) + (if x == b && y == a then 1 else 0)
    {
      if a == b && x == a {
        assert multiset(r[a].scarBridges) == multiset(t[a].scarBridges) + multiset{a, a};
      } else if x == a {
        assert multiset(r[a].scarBridges) == multiset(t[a].scarBridges) + multiset{b};
      } else if x == b {
        assert multiset(r[b].scarBridges) == multiset(t[b].scarBridges) + multiset{a};
      }
    }
  }

  /** A new bridge keeps the graph closed. */
  lemma WithBridgeClosed(t: NodeTable, a: NodeId, b: NodeId)
    requires a in t && b in t && Closed(t)
    ensures Closed(WithBridge(t, a, b))
  {
    var r := WithBridge(t, a, b);
    WithBridgeCounts(t, a, b);
    forall x | x in r ensures forall k :: 0 <= k < |r[x].scarBridges| ==> r[x].scarBridges[k] in r {
      if x == a || x == b {
        forall k | 0 <= k < |r[x].scarBridges| ensures r[x].scarBridges[k] in r {
          if k < |t[x].scarBridges| {
            assert r[x].scarBridges[k] == t[x].scarBridges[k];
          }
        }
      }
    }
  }

  /** A new bridge keeps bridge counts symmetric and leaves the edges, and so the edge count, alone. */
  lemma WithBridgeGraph(t: NodeTable, a: NodeId, b: NodeId, e: int)
    requires a in t && b in t
    ensures GraphFacts(t, e) ==> GraphFacts(WithBridge(t, a, b), e)
  {
    WithBridgeCounts(t, a, b);
    WithBridgeCountChange(t, a, b);
    SameEdgesFacts(t, WithBridge(t, a, b));
  }

  /** Tables with the same nodes and edges have the same edge facts. */
  lemma SameEdgesFacts(t1: NodeTable, t2: NodeTable)
    requires t1.Keys == t2.Keys && forall x :: x in t1 ==> t1[x].edges == t2[x].edges
    ensures EdgesSymmetric(t1) <==> EdgesSymmetric(t2)
    ensures UndirectedPairs(t1) == UndirectedPairs(t2)
  {
  }

  lemma InsertFreshGraph(t: NodeTable, n: Node, e: int)
    requires n.id !in t && n.edges == map[] && n.scarBridges == [] && Closed(t)
    ensures Closed(t[n.id := n])
    ensures GraphFacts(t, e) ==> GraphFacts(t[n.id := n], e)
  {
    InsertFreshNode(t, n);
  }

  /** Replacing a node by one without links keeps the graph closed. */
  lemma ReplaceNodeClosed(t: NodeTable, n: Node)
    requires n.id in t && n.edges == map[] && n.scarBridges == [] && Closed(t)
    ensures Closed(t[n.id := n])
  {
  }

  /** A node that is new to the table, with no links, adds no pair and breaks no fact. */
  lemma InsertFreshNode(t: NodeTable, n: Node)
    requires n.id !in t && n.edges == map[] && n.scarBridges == []
    requires Closed(t)
    ensures Closed(t[n.id := n])
    ensures EdgesSymmetric(t) ==> EdgesSymmetric(t[n.id := n])
    ensures BridgesSymmetric(t) ==> BridgesSymmetric(t[n.id := n])
    ensures UndirectedPairs(t[n.id := n]) == UndirectedPairs(t)
  {
    var r := t[n.id := n];
    forall x, y | x in r && y in r ensures BridgeCount(r, x, y) == (if x in t && y in t then BridgeCount(t, x, y) else 0) {
      if x in t && y == n.id {
        assert y !in t[x].scarBridges;
      }
    }
    forall p | p in UndirectedPairs(r) ensures p in UndirectedPairs(t) {
      var x, y :| x in r && y in r[x].edges && p == {x, y};
      assert x != n.id;
    }
  }

  // ---------------------------------------------------------------------------
  // Placement, routing and loading rules.

  /** The seed vector `_find_optimal_position` starts from for each node type. */
  function SeedVector(t: NodeType): (v: Vector)
    ensures |v| == 1 || |v| == 2
  {
    match t
    case Scar => [("trauma", 0.7), ("memory", 0.8)]
    case Doctrine => [("truth", 0.9), ("structure", 0.7)]
    case Paradox => [("contradiction", 1.0), ("recursion", 0.8)]
    case _ => [("neutral", 0.5)]
  }

  /**
   * `_find_optimal_position`: the seed vector with the jitter `random.uniform(-0.02, 0.02)`
   * added to each dimension; the two jitter draws are parameters.
   */
  function OptimalPosition(t: NodeType, j1: real, j2: real): (p: Position)
    requires -0.02 <= j1 <= 0.02 && -0.02 <= j2 <= 0.02
    ensures p == PositionOf(p.semanticVector, 0.0)
    ensures |p.semanticVector| == |SeedVector(t)|
    ensures forall k :: 0 <= k < |p.semanticVector| ==>
      p.semanticVector[k].0 == SeedVector(t)[k].0 &&
      Abs(p.semanticVector[k].1 - SeedVector(t)[k].1) <= 0.02
  {
    var s := SeedVector(t);
    if |s| == 2 then
      assert s[0].0 != s[1].0;
      PositionOf([(s[0].0, s[0].1 + j1), (s[1].0, s[1].1 + j2)], 0.0)
    else
      PositionOf([(s[0].0, s[0].1 + j1)], 0.0)
  }

  /** The position `add_node` stores: the one given, or OptimalPosition's. */
  function PlacedPosition(position: Option<Position>, nodeType: NodeType, j1: real, j2: real): (p: Position)
    requires -0.02 <= j1 <= 0.02 && -0.02 <= j2 <= 0.02
    ensures position.Some? ==> p == position.value
    ensures position == None ==> p == OptimalPosition(nodeType, j1, j2)
  {
    if position.Some? then position.value else OptimalPosition(nodeType, j1, j2)
  }

  /**
   * The constellation `add_node` joins: a truthy requested id joins only when it
   * names a constellation, and only a falsy request (None or "") falls back to
   * the nearest constellation.
   */
  function JoinTarget(requested: Option<ConstellationId>, known: set<ConstellationId>,
                      nearest: Option<ConstellationId>): Option<ConstellationId>
  {
    if requested.Some? && requested.value != "" then
      (if requested.value in known then requested else None)
    else if nearest.Some? && nearest.value != "" then nearest
    else None
  }

  lemma JoinTargetRules(requested: Option<ConstellationId>, known: set<ConstellationId>,
                        nearest: Option<ConstellationId>)
    requires nearest.Some? ==> nearest.value in known
    ensures JoinTarget(requested, known, nearest).Some? ==> JoinTarget(requested, known, nearest).value in known
    ensures requested.Some? && requested.value in known && requested.value != "" ==>
      JoinTarget(requested, known, nearest) == requested
    ensures requested.Some? && requested.value !in known && requested.value != "" ==>
      JoinTarget(requested, known, nearest) == None
    ensures (requested == None || requested == Some("")) ==>
      JoinTarget(requested, known, nearest) == (if nearest == Some("") then None else nearest)
  {
  }

  /** Eligible for `_find_nearest_constellation`: a truthy gravity centre that is a node. */
  predicate HasCenter(c: Constellation, nodes: NodeTable)
  {
    c.gravityCenter.Some? && c.gravityCenter.value != "" && c.gravityCenter.value in nodes
  }

  function CenterDistance(c: Constellation, nodes: NodeTable, p: Position, sqrt: real -> real): Dist
    requires HasCenter(c, nodes)
  {
    Distance(p, nodes[c.gravityCenter.value].position, sqrt)
  }

  ghost predicate OrderKnown(order: seq<ConstellationId>, cs: map<ConstellationId, Constellation>)
  {
    forall c :: c in order ==> c in cs
  }

  /** The scan of `_find_nearest_constellation` over the first k constellations: the best id and its distance. */
  function NearestScan(order: seq<ConstellationId>, cs: map<ConstellationId, Constellation>,
                       nodes: NodeTable, p: Position, sqrt: real -> real, k: nat): (Option<ConstellationId>, Dist)
    requires k <= |order| && OrderKnown(order, cs)
  {
    if k == 0 then (None, Inf)
    else
      var prev := NearestScan(order, cs, nodes, p, sqrt, k - 1);
      var c := cs[order[k - 1]];
      if HasCenter(c, nodes) && DistLess(CenterDistance(c, nodes, p, sqrt), prev.1) then
        (Some(order[k - 1]), CenterDistance(c, nodes, p, sqrt))
      else prev
  }

  /** `_find_nearest_constellation`: the scan's winner if it is nearer than 2.0. */
  function Nearest(order: seq<ConstellationId>, cs: map<ConstellationId, Constellation>,
                   nodes: NodeTable, p: Position, sqrt: real -> real): Option<ConstellationId>
    requires OrderKnown(order, cs)
  {
    var (best, d) := NearestScan(order, cs, nodes, p, sqrt, |order|);
    if DistLess(d, Fin(2.0)) then best else None
  }

  lemma {:induction false} NearestScanSpec(order: seq<ConstellationId>, cs: map<ConstellationId, Constellation>,
                                           nodes: NodeTable, p: Position, sqrt: real -> real, k: nat)
    requires k <= |order| && OrderKnown(order, cs)
    ensures var (best, d) := NearestScan(order, cs, nodes, p, sqrt, k);
      (best == None ==> d == Inf) &&
      (best.Some? ==>
         exists i ::
           0 <= i < k && order[i] == best.value && HasCenter(cs[order[i]], nodes) &&
           d == CenterDistance(cs[order[i]], nodes, p, sqrt) &&
           (forall j :: 0 <= j < i && HasCenter(cs[order[j]], nodes) ==> DistLess(d, CenterDistance(cs[order[j]], nodes, p, sqrt)))) &&
      (forall j :: 0 <= j < k && HasCenter(cs[order[j]], nodes) ==> !DistLess(CenterDistance(cs[order[j]], nodes, p, sqrt), d))
  {
    if k > 0 {
      NearestScanSpec(order, cs, nodes, p, sqrt, k - 1);
      var (best, d) := NearestScan(order, cs, nodes, p, sqrt, k - 1);
      var c := cs[order[k - 1]];
      if HasCenter(c, nodes) && DistLess(CenterDistance(c, nodes, p, sqrt), d) {
        var e := CenterDistance(c, nodes, p, sqrt);
        forall j | 0 <= j < k - 1 && HasCenter(cs[order[j]], nodes)
          ensures DistLess(e, CenterDistance(cs[order[j]], nodes, p, sqrt))
        {
          DistLessTransitive(e, d, CenterDistance(cs[order[j]], nodes, p, sqrt));
        }
        assert !DistLess(e, e);
      } else if best.Some? {
        var i :| 0 <= i < k - 1 && order[i] == best.value && HasCenter(cs[order[i]], nodes) &&
           d == CenterDistance(cs[order[i]], nodes, p, sqrt) &&
           (forall j :: 0 <= j < i && HasCenter(cs[order[j]], nodes) ==> DistLess(d, CenterDistance(cs[order[j]], nodes, p, sqrt)));
      }
    }
  }

  lemma DistLessTransitive(a: Dist, b: Dist, c: Dist)
    requires !DistLess(b, c) || DistLess(a, b)
    requires DistLess(a, b) && !DistLess(c, b)
    ensures DistLess(a, c)
  {
  }

  /**
   * `_find_nearest_constellation` answers the first eligible constellation at the
   * least distance, provided that distance is below 2.0; None means no eligible
   * constellation is nearer than 2.0.
   */
  lemma NearestIsClosest(order: seq<ConstellationId>, cs: map<ConstellationId, Constellation>,
                         nodes: NodeTable, p: Position, sqrt: real -> real)
    requires OrderKnown(order, cs)
    ensures var r := Nearest(order, cs, nodes, p, sqrt);
      (r.Some? ==>
         r.value in cs && HasCenter(cs[r.value], nodes) &&
         DistLess(CenterDistance(cs[r.value], nodes, p, sqrt), Fin(2.0)) &&
         forall j :: 0 <= j < |order| && HasCenter(cs[order[j]], nodes) ==>
           !DistLess(CenterDistance(cs[order[j]], nodes, p, sqrt), CenterDistance(cs[r.value], nodes, p, sqrt))) &&
      (r == None ==>
         forall j :: 0 <= j < |order| && HasCenter(cs[order[j]], nodes) ==>
           !DistLess(CenterDistance(cs[order[j]], nodes, p, sqrt), Fin(2.0)))
  {
    NearestScanSpec(order, cs, nodes, p, sqrt, |order|);
    var (best, d) := NearestScan(order, cs, nodes, p, sqrt, |order|);
    if !DistLess(d, Fin(2.0)) {
      forall j | 0 <= j < |order| && HasCenter(cs[order[j]], nodes)
        ensures !DistLess(CenterDistance(cs[order[j]], nodes, p, sqrt), Fin(2.0))
      {
        var e := CenterDistance(cs[order[j]], nodes, p, sqrt);
        assert !DistLess(e, d);
      }
    }
  }

  lemma NearestKnown(order: seq<ConstellationId>, cs: map<ConstellationId, Constellation>,
                     nodes: NodeTable, p: Position, sqrt: real -> real)
    requires OrderKnown(order, cs)
    ensures Nearest(order, cs, nodes, p, sqrt).Some? ==> Nearest(order, cs, nodes, p, sqrt).value in cs
  {
    NearestIsClosest(order, cs, nodes, p, sqrt);
  }

  /** The wormhole key `create_scar_bridge` uses: f"bridge_{n}". */
  function BridgeKey(n: nat): (key: string)
    ensures |key| > 7 && key[..7] == "bridge_"
  {
    "bridge_" + Strings.NatToString(n)
  }

  /** A saved collapse depth: a JSON number or a string. */
  datatype SavedDepth = Number(x: real) | Text(s: string)

  /**
   * The collapse-depth rule of `load_from_file`: the string "inf" becomes 9.99;
   * anything else goes through `float()`, whose parsing of strings is a
   * parameter (None where `float` raises).
   */
  function LoadedDepth(d: SavedDepth, parseFloat: string -> Option<real>): (r: Option<real>)
    ensures d == Text("inf") ==> r == Some(9.99)
    ensures d.Number? ==> r == Some(d.x)
    ensures d.Text? && d.s != "inf" ==> r == parseFloat(d.s)
  {
    match d
    case Number(x) => Some(x)
    case Text(s) => if s == "inf" then Some(9.99) else parseFloat(s)
  }

  // ---------------------------------------------------------------------------
  // Breadth-first path search.

  /** A path element: a node id, or the "[scar]" marker before a bridge hop. */
  datatype Token = Hop(id: NodeId) | ScarMark

  /**
   * p is a walk through the graph: it starts and ends with a node, every marker sits
   * between two nodes joined by a bridge (and only when bridges are allowed), and two
   * adjacent nodes are joined by an edge.
   */
  ghost predicate IsWalk(t: NodeTable, p: seq<Token>, useBridges: bool)
  {
    |p| > 0 && p[0].Hop? && p[|p| - 1].Hop? &&
    (forall i :: 0 <= i < |p| && p[i].Hop? ==> p[i].id in t) &&
    (forall i :: 0 < i < |p| - 1 && p[i].ScarMark? ==>
       useBridges && p[i - 1].Hop? && p[i + 1].Hop? && p[i + 1].id in t[p[i - 1].id].scarBridges) &&
    (forall i :: 0 <= i < |p| - 1 && p[i].Hop? && p[i + 1].Hop? ==> p[i + 1].id in t[p[i].id].edges)
  }

  ghost predicate IsPathBetween(t: NodeTable, p: seq<Token>, s: NodeId, e: NodeId, useBridges: bool)
  {
    IsWalk(t, p, useBridges) && p[0] == Hop(s) && p[|p| - 1] == Hop(e)
  }

  lemma ExtendByEdge(t: NodeTable, p: seq<Token>, s: NodeId, u: NodeId, v: NodeId, useBridges: bool)
    requires IsPathBetween(t, p, s, u, useBridges) && v in t[u].edges && v in t
    ensures IsPathBetween(t, p + [Hop(v)], s, v, useBridges)
  {
    var q := p + [Hop(v)];
    forall i | 0 <= i < |q| - 1 && q[i].Hop? && q[i + 1].Hop? ensures q[i + 1].id in t[q[i].id].edges {
      if i < |p| - 1 { assert q[i] == p[i] && q[i + 1] == p[i + 1]; }
    }
    forall i | 0 < i < |q| - 1 && q[i].ScarMark?
      ensures useBridges && q[i - 1].Hop? && q[i + 1].Hop? && q[i + 1].id in t[q[i - 1].id].scarBridges
    {
      assert q[i] == p[i] && q[i - 1] == p[i - 1] && q[i + 1] == p[i + 1];
    }
  }

  lemma ExtendByBridge(t: NodeTable, p: seq<Token>, s: NodeId, u: NodeId, v: NodeId)
    requires IsPathBetween(t, p, s, u, true) && v in t[u].scarBridges && v in t
    ensures IsPathBetween(t, p + [ScarMark, Hop(v)], s, v, true)
  {
    var q := p + [ScarMark, Hop(v)];
    forall i | 0 <= i < |q| - 1 && q[i].Hop? && q[i + 1].Hop? ensures q[i + 1].id in t[q[i].id].edges {
      assert i < |p| - 1;
      assert q[i] == p[i] && q[i + 1] == p[i + 1];
    }
    forall i | 0 < i < |q| - 1 && q[i].ScarMark?
      ensures q[i - 1].Hop? && q[i + 1].Hop? && q[i + 1].id in t[q[i - 1].id].scarBridges
    {
      if i < |p| - 1 { assert q[i] == p[i] && q[i - 1] == p[i - 1] && q[i + 1] == p[i + 1]; }
    }
  }

  /**
   * The loop of `create_constellation`: each id that names a node of the table
   * joins the constellation in turn (which marks the node), the others are skipped.
   */
  function Build(c: Constellation, ids: seq<NodeId>, t: NodeTable): (r: (Constellation, NodeTable))
    requires MembersKnown(c.members, t)
    ensures r.1.Keys == t.Keys && MembersKnown(r.0.members, r.1)
    decreases |ids|
  {
    if ids == [] then (c, t)
    else if ids[0] in t then
      var t1 := MarkMember(t, ids[0], c.id);
      Build(WithMember(c, ids[0], t1), ids[1..], t1)
    else Build(c, ids[1..], t)
  }

  /** The loop of `create_constellation`, over the node table. */
  method JoinAll(c0: Constellation, ids: seq<NodeId>, t0: NodeTable) returns (c: Constellation, t: NodeTable)
    requires MembersKnown(c0.members, t0)
    ensures (c, t) == Build(c0, ids, t0)
    ensures SameLinks(t0, t) && c.id == c0.id
  {
    c, t := c0, t0;
    var i := 0;
    while i < |ids|
      invariant 0 <= i <= |ids|
      invariant c.id == c0.id && MembersKnown(c.members, t) && SameLinks(t0, t)
      invariant Build(c, ids[i..], t) == Build(c0, ids, t0)
    {
      assert ids[i..] == [ids[i]] + ids[i + 1..];
      if ids[i] in t {
        var before := t;
        c, t := AddMember(c, ids[i], t);
        MarkMemberLinks(before, ids[i], c0.id);
      }
      i := i + 1;
    }
    assert ids[i..] == [];
  }

  /** Every constellation's members are nodes of the table. */
  ghost predicate ConstellationsKnown(cs: map<ConstellationId, Constellation>, keys: set<NodeId>)
  {
    forall c, m :: c in cs && m in cs[c].members ==> m in keys
  }

  /** order lists exactly the keys. */
  ghost predicate Enumerates<T(!new)>(order: seq<T>, keys: set<T>)
  {
    forall x :: x in order <==> x in keys
  }

  /** Each constellation is stored under its own id. */
  ghost predicate KeyedById(cs: map<ConstellationId, Constellation>)
  {
    forall c :: c in cs ==> cs[c].id == c
  }

  /** Storing a node without links keeps the table closed and every member known. */
  lemma StoreNodeFacts(t: NodeTable, cs: map<ConstellationId, Constellation>, n: Node, e: int)
    requires Closed(t) && ConstellationsKnown(cs, t.Keys) && n.edges == map[] && n.scarBridges == []
    ensures Closed(t[n.id := n]) && ConstellationsKnown(cs, t[n.id := n].Keys)
    ensures n.id !in t && GraphFacts(t, e) ==> GraphFacts(t[n.id := n], e)
  {
    if n.id in t {
      ReplaceNodeClosed(t, n);
    } else {
      InsertFreshGraph(t, n, e);
    }
  }

  /** A node joining a constellation keeps the links, and every member stays known. */
  lemma JoinFacts(t: NodeTable, cs: map<ConstellationId, Constellation>, cid: ConstellationId, id: NodeId, e: int)
    requires cid in cs && id in t && Closed(t) && ConstellationsKnown(cs, t.Keys) && KeyedById(cs)
    ensures var t1 := MarkMember(t, id, cid);
      Closed(t1) && (GraphFacts(t, e) ==> GraphFacts(t1, e)) &&
      ConstellationsKnown(cs[cid := WithMember(cs[cid], id, t1)], t1.Keys) &&
      KeyedById(cs[cid := WithMember(cs[cid], id, t1)])
  {
    var t1 := MarkMember(t, id, cid);
    MarkMemberLinks(t, id, cid);
    SameLinksGraph(t, t1, e);
  }

  class TopologicalSpace {
    var nodes: NodeTable
    var nodeOrder: seq<NodeId>
    var constellations: map<ConstellationId, Constellation>
    var constellationOrder: seq<ConstellationId>
    var wormholes: map<string, (NodeId, NodeId)>
    var totalMass: real
    var totalEdges: int
    var fragmentationIndex: real
    /** The square root `distance_to` uses. */
    const sqrt: real -> real

    /** The table shapes every operation keeps. */
    ghost predicate Valid()
      reads this
    {
      Distinct(nodeOrder) && Enumerates(nodeOrder, nodes.Keys) &&
      Distinct(constellationOrder) && Enumerates(constellationOrder, constellations.Keys) &&
      Closed(nodes) && ConstellationsKnown(constellations, nodes.Keys) && KeyedById(constellations)
    }

    /**
     * The graph facts the source keeps in step: symmetric edges, symmetric bridge
     * counts, and `total_edges` equal to the number of undirected edges.
     */
    ghost predicate GraphInvariant()
      reads this
    {
      GraphFacts(nodes, totalEdges)
    }

    /** An empty space, as `__init__` leaves it when there is no saved map. */
    constructor (sqrt: real -> real)
      ensures Valid() && GraphInvariant()
      ensures nodes == map[] && constellations == map[] && wormholes == map[]
      ensures totalMass == 0.0 && totalEdges == 0 && this.sqrt == sqrt
    {
      nodes := map[];
      nodeOrder := [];
      constellations := map[];
      constellationOrder := [];
      wormholes := map[];
      totalMass := 0.0;
      totalEdges := 0;
      fragmentationIndex := 0.0;
      this.sqrt := sqrt;
      new;
      assert UndirectedPairs(nodes) == {};
    }

    /** `_find_nearest_constellation`. */
    method FindNearestConstellation(p: Position) returns (r: Option<ConstellationId>)
      requires Valid()
      ensures OrderKnown(constellationOrder, constellations)
      ensures r == Nearest(constellationOrder, constellations, nodes, p, sqrt)
      ensures r.Some? ==> r.value in constellations
    {
      NearestKnown(constellationOrder, constellations, nodes, p, sqrt);
      var minDistance := Inf;
      var nearest: Option<ConstellationId> := None;
      var i := 0;
      while i < |constellationOrder|
        invariant 0 <= i <= |constellationOrder|
        invariant (nearest, minDistance) == NearestScan(constellationOrder, constellations, nodes, p, sqrt, i)
      {
        var c := constellations[constellationOrder[i]];
        if HasCenter(c, nodes) {
          var d := Distance(p, nodes[c.gravityCenter.value].position, sqrt);
          if DistLess(d, minDistance) {
            minDistance := d;
            nearest := Some(constellationOrder[i]);
          }
        }
        i := i + 1;
      }
      r := if DistLess(minDistance, Fin(2.0)) then nearest else None;
    }

    /**
     * `add_node`: stores a new node (replacing any node with the same id), adds its
     * mass to the total and joins the constellation JoinTarget names.  A missing
     * position is placed by OptimalPosition with the jitter draws j1 and j2.
     */
    method AddNode(id: NodeId, nodeType: NodeType, mass: real, position: Option<Position>,
                   requested: Option<ConstellationId>, j1: real, j2: real)
      returns (n: Node, ghost target: Option<ConstellationId>)
      requires Valid()
      requires -0.02 <= j1 <= 0.02 && -0.02 <= j2 <= 0.02
      modifies this
      ensures Valid()
      ensures var p := PlacedPosition(position, nodeType, j1, j2);
        target == JoinTarget(requested, old(constellations).Keys,
                             Nearest(old(constellationOrder), old(constellations), old(nodes)[id := NewNode(id, nodeType, p, mass)], p, sqrt))
      ensures target == None ==>
        nodes == old(nodes)[id := NewNode(id, nodeType, PlacedPosition(position, nodeType, j1, j2), mass)] &&
        constellations == old(constellations)
      ensures target.Some? ==>
        target.value in old(constellations) &&
        nodes == MarkMember(old(nodes)[id := NewNode(id, nodeType, PlacedPosition(position, nodeType, j1, j2), mass)], id, target.value) &&
        constellations == old(constellations)[target.value := WithMember(old(constellations)[target.value], id, nodes)]
      ensures n == nodes[id]
      ensures nodeOrder == if id in old(nodes) then old(nodeOrder) else old(nodeOrder) + [id]
      ensures totalMass == old(totalMass) + mass
      ensures constellationOrder == old(constellationOrder) && wormholes == old(wormholes) && totalEdges == old(totalEdges)
      ensures id !in old(nodes) && old(GraphInvariant()) ==> GraphInvariant()
    {
      var p := PlacedPosition(position, nodeType, j1, j2);
      StoreNode(NewNode(id, nodeType, p, mass));
      var join: Option<ConstellationId> := None;
      if requested.Some? && requested.value != "" {
        if requested.value in constellations {
          join := requested;
        }
      } else {
        var nearest := FindNearestConstellation(p);
        if nearest.Some? && nearest.value != "" {
          join := nearest;
        }
      }
      if join.Some? {
        JoinConstellation(join.value, id);
      }
      target := join;
      n := nodes[id];
    }

    /** The first half of `add_node`: the node is stored and its mass counted. */
    method StoreNode(node: Node)
      requires Valid() && node.edges == map[] && node.scarBridges == []
      modifies this
      ensures Valid()
      ensures nodes == old(nodes)[node.id := node] && constellations == old(constellations)
      ensures nodeOrder == if node.id in old(nodes) then old(nodeOrder) else old(nodeOrder) + [node.id]
      ensures totalMass == old(totalMass) + node.mass
      ensures constellationOrder == old(constellationOrder) && wormholes == old(wormholes) && totalEdges == old(totalEdges)
      ensures node.id !in old(nodes) && old(GraphInvariant()) ==> GraphInvariant()
    {
      StoreNodeFacts(nodes, constellations, node, totalEdges);
      if node.id !in nodes {
        nodeOrder := nodeOrder + [node.id];
      }
      nodes := nodes[node.id := node];
      totalMass := totalMass + node.mass;
    }

    /** `Constellation.add_node` on the stored constellation cid. */
    method JoinConstellation(cid: ConstellationId, id: NodeId)
      requires Valid() && cid in constellations && id in nodes
      modifies this
      ensures Valid()
      ensures nodes == MarkMember(old(nodes), id, cid)
      ensures constellations == old(constellations)[cid := WithMember(old(constellations)[cid], id, nodes)]
      ensures nodeOrder == old(nodeOrder) && totalMass == old(totalMass)
      ensures constellationOrder == old(constellationOrder) && wormholes == old(wormholes) && totalEdges == old(totalEdges)
      ensures old(GraphInvariant()) ==> GraphInvariant()
    {
      JoinFacts(nodes, constellations, cid, id, totalEdges);
      var c, t := AddMember(constellations[cid], id, nodes);
      nodes := t;
      constellations := constellations[cid := c];
    }

    /**
     * `create_edge`: when both ids are nodes and the edge is new, writes both
     * directions with weight w and counts one more edge; otherwise nothing changes.
     */
    method CreateEdge(a: NodeId, b: NodeId, w: real)
      requires Valid()
      modifies this
      ensures Valid()
      ensures if a in old(nodes) && b in old(nodes) && b !in old(nodes)[a].edges then
          nodes == WithEdge(old(nodes), a, b, w) && totalEdges == old(totalEdges) + 1
        else
          nodes == old(nodes) && totalEdges == old(totalEdges)
      ensures nodeOrder == old(nodeOrder) && constellations == old(constellations)
      ensures constellationOrder == old(constellationOrder) && wormholes == old(wormholes)
      ensures totalMass == old(totalMass)
      ensures old(GraphInvariant()) ==> GraphInvariant()
    {
      if a in nodes && b in nodes && b !in nodes[a].edges {
        var t := WithEdge(nodes, a, b, w);
        WithEdgeClosed(nodes, a, b, w);
        WithEdgeGraph(nodes, a, b, w, totalEdges);
        nodes := t;
        totalEdges := totalEdges + 1;
      }
    }

    /**
     * `create_scar_bridge`: when both ids are nodes, appends each to the other's
     * bridge list and records the pair under BridgeKey(prior wormhole count);
     * otherwise nothing changes.
     */
    method CreateScarBridge(a: NodeId, b: NodeId)
      requires Valid()
      modifies this
      ensures Valid()
      ensures if a in old(nodes) && b in old(nodes) then
          nodes == WithBridge(old(nodes), a, b) &&
          wormholes == old(wormholes)[BridgeKey(|old(wormholes)|) := (a, b)]
        else
          nodes == old(nodes) && wormholes == old(wormholes)
      ensures nodeOrder == old(nodeOrder) && constellations == old(constellations)
      ensures constellationOrder == old(constellationOrder)
      ensures totalMass == old(totalMass) && totalEdges == old(totalEdges)
      ensures old(GraphInvariant()) ==> GraphInvariant()
    {
      if a in nodes && b in nodes {
        var t := WithBridge(nodes, a, b);
        WithBridgeClosed(nodes, a, b);
        WithBridgeGraph(nodes, a, b, totalEdges);
        nodes := t;
        wormholes := wormholes[BridgeKey(|wormholes|) := (a, b)];
      }
    }

    /**
     * `create_constellation`: a fresh constellation that every listed id naming a
     * node joins in turn (see Build), stored under its id, replacing any earlier
     * constellation of that id.
     */
    method CreateConstellation(cid: ConstellationId, ctype: ConstellationType, ids: seq<NodeId>)
      returns (c: Constellation)
      requires Valid()
      modifies this
      ensures Valid()
      ensures (c, nodes) == Build(NewConstellation(cid, ctype), ids, old(nodes))
      ensures constellations == old(constellations)[cid := c]
      ensures constellationOrder == if cid in old(constellations) then old(constellationOrder) else old(constellationOrder) + [cid]
      ensures nodeOrder == old(nodeOrder) && wormholes == old(wormholes)
      ensures totalMass == old(totalMass) && totalEdges == old(totalEdges)
      ensures SameLinks(old(nodes), nodes)
      ensures old(GraphInvariant()) ==> GraphInvariant()
    {
      var t0, cs := nodes, constellations;
      var t;
      c, t := JoinAll(NewConstellation(cid, ctype), ids, t0);
      SameLinksGraph(t0, t, totalEdges);
      if cid !in cs {
        constellationOrder := constellationOrder + [cid];
      }
      nodes := t;
      constellations := cs[cid := c];
    }

    /**
     * `find_path`: breadth-first search from start.  Neighbours reached by an edge
     * are queued as `path + [neighbour]`, those reached by a bridge (when allowed)
     * as `path + ["[scar]", neighbour]`; the first dequeued entry at `end` is the answer.
     */
    method FindPath(start: NodeId, end: NodeId, useBridges: bool) returns (r: Option<seq<Token>>)
      requires Valid()
      ensures start !in nodes || end !in nodes ==> r == None
      ensures start in nodes && start == end ==> r == Some([Hop(start)])
      ensures r.Some? ==> IsPathBetween(nodes, r.value, start, end, useBridges)
      ensures (exists p :: IsPathBetween(nodes, p, start, end, useBridges)) ==> r.Some?
      ensures r.Some? && !useBridges ==> forall i :: 0 <= i < |r.value| ==> r.value[i].Hop?
    {
      r := SearchPath(nodes, start, end, useBridges);
    }

    /**
     * The edge recount of `load_from_file`: every node's neighbours are visited in
     * node order and each unordered pair is counted once.
     */
    method RecountEdges()
      requires Valid()
      modifies this
      ensures totalEdges == |UndirectedPairs(nodes)|
      ensures nodes == old(nodes) && nodeOrder == old(nodeOrder) && constellations == old(constellations)
      ensures constellationOrder == old(constellationOrder) && wormholes == old(wormholes)
      ensures totalMass == old(totalMass)
      ensures Valid()
      ensures EdgesSymmetric(nodes) && BridgesSymmetric(nodes) ==> GraphInvariant()
    {
      var count := CountPairs(nodes, nodeOrder);
      totalEdges := count;
    }

    /**
     * Callers hold the node object `add_node` returns and write its tags and
     * charge directly; this is that write on the stored node.
     */
    method Annotate(id: NodeId, tags: set<string>, charge: real)
      requires Valid() && id in nodes
      modifies this
      ensures Valid()
      ensures nodes == old(nodes)[id := old(nodes)[id].(tags := tags, charge := charge)]
      ensures nodeOrder == old(nodeOrder) && constellations == old(constellations)
      ensures constellationOrder == old(constellationOrder) && wormholes == old(wormholes)
      ensures totalMass == old(totalMass) && totalEdges == old(totalEdges)
      ensures old(GraphInvariant()) ==> GraphInvariant()
    {
      var t := nodes[id := nodes[id].(tags := tags, charge := charge)];
      SameLinksGraph(nodes, t, totalEdges);
      nodes := t;
    }
  }

  /**
   * The search of `find_path` over a node table: breadth first from start.
   * Neighbours reached by an edge are queued as `path + [neighbour]`, those
   * reached by a bridge (when allowed) as `path + ["[scar]", neighbour]`; the
   * first dequeued entry at `end` is the answer.
   */
  method SearchPath(nodes: NodeTable, start: NodeId, end: NodeId, useBridges: bool) returns (r: Option<seq<Token>>)
    requires Closed(nodes)
    ensures start !in nodes || end !in nodes ==> r == None
    ensures start in nodes && start == end ==> r == Some([Hop(start)])
    ensures r.Some? ==> IsPathBetween(nodes, r.value, start, end, useBridges)
    ensures (exists p :: IsPathBetween(nodes, p, start, end, useBridges)) ==> r.Some?
    ensures r.Some? && !useBridges ==> forall i :: 0 <= i < |r.value| ==> r.value[i].Hop?
  {
    if start !in nodes || end !in nodes {
      return None;
    }
    var visited: set<NodeId> := {};
    var queue: seq<(NodeId, seq<Token>)> := [(start, [Hop(start)])];
    while queue != []
      invariant visited <= nodes.Keys
      invariant Queued(nodes, start, useBridges, queue)
      invariant start == end ==> queue == [(start, [Hop(start)])]
      invariant Searching(nodes, start, end, useBridges, visited, queue)
      decreases |nodes.Keys - visited|, |queue|
    {
      var current := queue[0].0;
      var path := queue[0].1;
      if current == end {
        if !useBridges {
          WalkWithoutBridges(nodes, path);
        }
        return Some(path);
      }
      if current in visited {
        SearchSkip(nodes, start, end, useBridges, visited, queue);
        queue := queue[1..];
        continue;
      }
      assert nodes.Keys - (visited + {current}) < nodes.Keys - visited;
      var rest := queue[1..];
      var next := Expand(nodes, start, useBridges, visited + {current}, current, path, rest);
      SearchVisit(nodes, start, end, useBridges, visited, queue, next);
      visited, queue := visited + {current}, next;
    }
    SearchExhausted(nodes, start, end, useBridges, visited);
    return None;
  }

  /** Every queued entry of `find_path` is a node with a walk to it from start. */
  ghost predicate Queued(nodes: NodeTable, start: NodeId, useBridges: bool, queue: seq<(NodeId, seq<Token>)>)
  {
    forall q :: q in queue ==> q.0 in nodes && IsPathBetween(nodes, q.1, start, q.0, useBridges)
  }

  /** y is one step from x: over an edge, or over a bridge when bridges are allowed. */
  ghost predicate Linked(t: NodeTable, x: NodeId, y: NodeId, useBridges: bool)
  {
    x in t && (y in t[x].edges || (useBridges && y in t[x].scarBridges))
  }

  /** The node ids of the queued entries. */
  ghost function QueuedIds(queue: seq<(NodeId, seq<Token>)>): set<NodeId>
  {
    set i | 0 <= i < |queue| :: queue[i].0
  }

  /**
   * What the search loop has not lost: start was visited or is queued, end was
   * never visited, and every node one step from a visited node is visited or queued.
   */
  ghost predicate Searching(t: NodeTable, start: NodeId, end: NodeId, useBridges: bool,
                            visited: set<NodeId>, queue: seq<(NodeId, seq<Token>)>)
  {
    && (start in visited || start in QueuedIds(queue))
    && end !in visited
    && forall x, y :: x in visited && Linked(t, x, y, useBridges) ==> y in visited || y in QueuedIds(queue)
  }

  lemma QueuedIdsTail(queue: seq<(NodeId, seq<Token>)>)
    requires queue != []
    ensures QueuedIds(queue) == QueuedIds(queue[1..]) + {queue[0].0}
  {
    forall y | y in QueuedIds(queue) ensures y in QueuedIds(queue[1..]) + {queue[0].0} {
      var i :| 0 <= i < |queue| && queue[i].0 == y;
      if i > 0 { assert queue[1..][i - 1].0 == y; }
    }
    forall y | y in QueuedIds(queue[1..]) ensures y in QueuedIds(queue) {
      var i :| 0 <= i < |queue[1..]| && queue[1..][i].0 == y;
      assert queue[i + 1].0 == y;
    }
  }

  lemma QueuedIdsGrow(queue: seq<(NodeId, seq<Token>)>, queue': seq<(NodeId, seq<Token>)>)
    requires |queue'| >= |queue| && queue'[..|queue|] == queue
    ensures QueuedIds(queue) <= QueuedIds(queue')
  {
    forall y | y in QueuedIds(queue) ensures y in QueuedIds(queue') {
      var i :| 0 <= i < |queue| && queue[i].0 == y;
      assert queue'[..|queue|][i] == queue'[i];
    }
  }

  lemma QueuedIdsAppend(queue: seq<(NodeId, seq<Token>)>, e: (NodeId, seq<Token>))
    ensures QueuedIds(queue + [e]) == QueuedIds(queue) + {e.0}
  {
    var q := queue + [e];
    assert q[|queue|].0 == e.0;
    forall y | y in QueuedIds(queue) ensures y in QueuedIds(q) {
      var i :| 0 <= i < |queue| && queue[i].0 == y;
      assert q[i].0 == y;
    }
  }

  /** Dropping an entry whose node was visited already loses nothing. */
  lemma SearchSkip(t: NodeTable, start: NodeId, end: NodeId, useBridges: bool,
                   visited: set<NodeId>, queue: seq<(NodeId, seq<Token>)>)
    requires queue != [] && queue[0].0 in visited
    requires Searching(t, start, end, useBridges, visited, queue)
    ensures Searching(t, start, end, useBridges, visited, queue[1..])
  {
    QueuedIdsTail(queue);
  }

  /** Visiting the head of the queue and queuing its unvisited neighbours loses nothing. */
  lemma SearchVisit(t: NodeTable, start: NodeId, end: NodeId, useBridges: bool, visited: set<NodeId>,
                    queue: seq<(NodeId, seq<Token>)>, next: seq<(NodeId, seq<Token>)>)
    requires queue != [] && queue[0].0 != end
    requires Searching(t, start, end, useBridges, visited, queue)
    requires QueuedIds(queue[1..]) <= QueuedIds(next)
    requires forall y :: Linked(t, queue[0].0, y, useBridges) ==> y in visited + {queue[0].0} || y in QueuedIds(next)
    ensures Searching(t, start, end, useBridges, visited + {queue[0].0}, next)
  {
    QueuedIdsTail(queue);
  }

  /**
   * A walk that starts inside a set closed under single steps never leaves it.
   */
  lemma {:induction false} WalkStaysIn(t: NodeTable, p: seq<Token>, useBridges: bool, s: set<NodeId>)
    requires IsWalk(t, p, useBridges) && p[0].id in s
    requires forall x, y :: x in s && Linked(t, x, y, useBridges) ==> y in s
    ensures p[|p| - 1].id in s
  {
    var i := 0;
    while i < |p| - 1
      invariant 0 <= i < |p|
      invariant forall j :: 0 <= j <= i && p[j].Hop? ==> p[j].id in s
    {
      if p[i + 1].Hop? {
        if p[i].Hop? {
          assert Linked(t, p[i].id, p[i + 1].id, useBridges);
        } else {
          assert Linked(t, p[i - 1].id, p[i + 1].id, useBridges);
        }
      }
      i := i + 1;
    }
  }

  /** When the queue runs dry, no walk leads from start to end. */
  lemma SearchExhausted(t: NodeTable, start: NodeId, end: NodeId, useBridges: bool, visited: set<NodeId>)
    requires Searching(t, start, end, useBridges, visited, [])
    ensures forall p :: !IsPathBetween(t, p, start, end, useBridges)
  {
    assert QueuedIds([]) == {};
    forall p | IsPathBetween(t, p, start, end, useBridges) ensures false {
      WalkStaysIn(t, p, useBridges, visited);
    }
  }

  /**
   * One visit of `find_path`: the edge loop, then (when allowed) the bridge loop;
   * every unvisited neighbour ends up queued.
   */
  method Expand(nodes: NodeTable, start: NodeId, useBridges: bool, visited: set<NodeId>, current: NodeId,
                path: seq<Token>, queue: seq<(NodeId, seq<Token>)>) returns (queue': seq<(NodeId, seq<Token>)>)
    requires Closed(nodes) && current in nodes && IsPathBetween(nodes, path, start, current, useBridges)
    requires Queued(nodes, start, useBridges, queue)
    ensures Queued(nodes, start, useBridges, queue')
    ensures QueuedIds(queue) <= QueuedIds(queue')
    ensures forall y :: Linked(nodes, current, y, useBridges) ==> y in visited || y in QueuedIds(queue')
  {
    queue' := QueueEdges(nodes, start, useBridges, visited, current, path, queue);
    QueuedIdsGrow(queue, queue');
    if useBridges {
      var edged := queue';
      queue' := QueueBridges(nodes, start, visited, current, path, queue');
      QueuedIdsGrow(edged, queue');
    }
  }

  /** The edge loop of `find_path`: each unvisited edge neighbour is queued one hop further. */
  method QueueEdges(nodes: NodeTable, start: NodeId, useBridges: bool, visited: set<NodeId>, current: NodeId,
                    path: seq<Token>, queue: seq<(NodeId, seq<Token>)>) returns (queue': seq<(NodeId, seq<Token>)>)
    requires Closed(nodes) && current in nodes && IsPathBetween(nodes, path, start, current, useBridges)
    requires Queued(nodes, start, useBridges, queue)
    ensures Queued(nodes, start, useBridges, queue')
    ensures |queue'| >= |queue| && queue'[..|queue|] == queue
    ensures forall y :: y in nodes[current].edges ==> y in visited || y in QueuedIds(queue')
  {
    queue' := queue;
    var pending := nodes[current].edges.Keys;
    while pending != {}
      invariant pending <= nodes[current].edges.Keys
      invariant Queued(nodes, start, useBridges, queue')
      invariant |queue'| >= |queue| && queue'[..|queue|] == queue
      invariant forall y :: y in nodes[current].edges && y !in pending ==> y in visited || y in QueuedIds(queue')
      decreases |pending|
    {
      var neighbour :| neighbour in pending;
      pending := pending - {neighbour};
      if neighbour !in visited {
        ExtendByEdge(nodes, path, start, current, neighbour, useBridges);
        QueuedIdsAppend(queue', (neighbour, path + [Hop(neighbour)]));
        queue' := queue' + [(neighbour, path + [Hop(neighbour)])];
      }
    }
  }

  /** The bridge loop of `find_path`: each unvisited bridge end is queued behind a "[scar]" marker. */
  method QueueBridges(nodes: NodeTable, start: NodeId, visited: set<NodeId>, current: NodeId,
                      path: seq<Token>, queue: seq<(NodeId, seq<Token>)>) returns (queue': seq<(NodeId, seq<Token>)>)
    requires Closed(nodes) && current in nodes && IsPathBetween(nodes, path, start, current, true)
    requires Queued(nodes, start, true, queue)
    ensures Queued(nodes, start, true, queue')
    ensures |queue'| >= |queue| && queue'[..|queue|] == queue
    ensures forall y :: y in nodes[current].scarBridges ==> y in visited || y in QueuedIds(queue')
  {
    queue' := queue;
    var bridges := nodes[current].scarBridges;
    for k := 0 to |bridges|
      invariant Queued(nodes, start, true, queue')
      invariant |queue'| >= |queue| && queue'[..|queue|] == queue
      invariant forall j :: 0 <= j < k ==> bridges[j] in visited || bridges[j] in QueuedIds(queue')
    {
      var bridge := bridges[k];
      if bridge !in visited {
        ExtendByBridge(nodes, path, start, current, bridge);
        QueuedIdsAppend(queue', (bridge, path + [ScarMark, Hop(bridge)]));
        queue' := queue' + [(bridge, path + [ScarMark, Hop(bridge)])];
      }
    }
  }

  /** Without bridges, a walk holds no "[scar]" marker. */
  lemma WalkWithoutBridges(t: NodeTable, p: seq<Token>)
    requires IsWalk(t, p, false)
    ensures forall i :: 0 <= i < |p| ==> p[i].Hop?
  {
  }

  /**
   * The counting loop of the recount: each node's neighbours in node order, with
   * a set of the unordered pairs already counted.
   */
  method CountPairs(t: NodeTable, order: seq<NodeId>) returns (count: nat)
    requires forall x :: x in order <==> x in t
    ensures count == |UndirectedPairs(t)|
  {
    var counted: set<set<NodeId>> := {};
    count := 0;
    var i := 0;
    while i < |order|
      invariant 0 <= i <= |order|
      invariant counted == PairsFrom(t, order[..i]) && count == |counted|
    {
      var x := order[i];
      counted, count := CountRow(x, t[x].edges.Keys, counted, count);
      PairsFromStep(t, order, i);
      i := i + 1;
    }
    assert order[..i] == order;
    PairsFromAll(t, order);
  }

  /** The inner loop of the recount: adds the pairs {x, y} not yet counted. */
  method CountRow(x: NodeId, ys: set<NodeId>, counted0: set<set<NodeId>>, count0: nat)
    returns (counted: set<set<NodeId>>, count: nat)
    requires count0 == |counted0|
    ensures counted == counted0 + Row(x, ys) && count == |counted|
  {
    counted, count := counted0, count0;
    var pending := ys;
    ghost var done: set<NodeId> := {};
    while pending != {}
      invariant pending + done == ys && pending !! done
      invariant forall p :: p in counted <==> p in counted0 || p in Row(x, done)
      invariant count == |counted|
      decreases |pending|
    {
      var y :| y in pending;
      RowAdd(x, done, y);
      pending := pending - {y};
      done := done + {y};
      if {x, y} !in counted {
        CardAdd(counted, {x, y});
        counted := counted + {{x, y}};
        count := count + 1;
      }
    }
  }

  /** The pairs {x, y} for y in ys. */
  ghost function Row(x: NodeId, ys: set<NodeId>): set<set<NodeId>>
  {
    set y | y in ys :: {x, y}
  }

  lemma RowAdd(x: NodeId, ys: set<NodeId>, y: NodeId)
    ensures Row(x, ys + {y}) == Row(x, ys) + {{x, y}}
  {
  }

  lemma CardAdd<T>(a: set<T>, p: T)
    requires p !in a
    ensures |a + {p}| == |a| + 1
  {
  }

  /** The pairs counted after the nodes in xs. */
  ghost function PairsFrom(t: NodeTable, xs: seq<NodeId>): set<set<NodeId>>
  {
    set x, y | x in xs && x in t && y in t[x].edges :: {x, y}
  }

  lemma PairsFromStep(t: NodeTable, xs: seq<NodeId>, i: nat)
    requires i < |xs| && xs[i] in t
    ensures PairsFrom(t, xs[..i + 1]) == PairsFrom(t, xs[..i]) + Row(xs[i], t[xs[i]].edges.Keys)
  {
    assert xs[..i + 1] == xs[..i] + [xs[i]];
    var longer, shorter, row := PairsFrom(t, xs[..i + 1]), PairsFrom(t, xs[..i]), Row(xs[i], t[xs[i]].edges.Keys);
    forall p | p in longer ensures p in shorter + row {
      var x, y :| x in xs[..i + 1] && x in t && y in t[x].edges && p == {x, y};
      if x != xs[i] { assert x in xs[..i]; }
    }
  }

  lemma PairsFromAll(t: NodeTable, xs: seq<NodeId>)
    requires forall x :: x in xs <==> x in t
    ensures PairsFrom(t, xs) == UndirectedPairs(t)
  {
  }
}
