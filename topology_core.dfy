/**
 * The Topological Constellation Architecture core (src/topology/tca_core.py):
 * symbolic positions and their distance, nodes, constellations, and the
 * topological space that owns both.
 *
 * Nodes and constellations are values kept in the space's tables (an arena
 * indexed by id); a constellation records its members by id and reads their
 * mass, edges and depth from the node table, where the source shares node
 * objects between the space and its constellations.  The square root is a
 * parameter of the distance (`sqrt`); facts that depend on it being a true
 * square root say so with IsSqrt.
 */
module TopologyCore {
  import opened Wrappers
  import opened SemanticVectors
  import Sorting

  type NodeId = string
  type ConstellationId = string

  datatype NodeType = Scar | Doctrine | Paradox | Echo | Anchor | Suspension | Void

  datatype ConstellationType = Identity | Ethical | Logical | Empirical | Creative | Shadow | Paradoxical

  /** SymbolicPosition; drift_velocity is only used by reconfigure and is not kept. */
  datatype Position = Position(
    semanticVector: Vector,
    temporalLayer: real,
    collapseDepth: real,
    constellationId: Option<ConstellationId>,
    orbitalCenter: Option<NodeId>,
    stability: real)

  /** `SymbolicPosition(semantic_vector=v, collapse_depth=d)` with every other field at its default. */
  function PositionOf(v: Vector, collapseDepth: real): (p: Position)
    ensures p.semanticVector == v && p.collapseDepth == collapseDepth
    ensures p.temporalLayer == 0.0 && p.constellationId == None && p.stability == 1.0
  {
    Position(v, 0.0, collapseDepth, None, None, 1.0)
  }

  /** A distance, or float('inf'). */
  datatype Dist = Inf | Fin(value: real)

  /** Python's `<` between two distances. */
  predicate DistLess(a: Dist, b: Dist)
  {
    match (a, b)
    case (Fin(x), Fin(y)) => x < y
    case (Fin(_), Inf) => true
    case (Inf, _) => false
  }

  /** Python's `+` between two distances (inf absorbs). */
  function DistAdd(a: Dist, b: Dist): (r: Dist)
    ensures r.Fin? <==> a.Fin? && b.Fin?
    ensures r.Fin? ==> r.value == a.value + b.value
  {
    if a.Fin? && b.Fin? then Fin(a.value + b.value) else Inf
  }

  /** A sort key that orders distances as `<` does: every finite distance is at most 2.0. */
  function DistRank(d: Dist): real
  {
    if d.Fin? then d.value else 3.0
  }

  lemma DistRankOrders(a: Dist, b: Dist)
    requires a.Fin? ==> a.value <= 2.0
    requires b.Fin? ==> b.value <= 2.0
    ensures DistLess(a, b) <==> DistRank(a) < DistRank(b)
  {
  }

  /** The injected square root is a square root. */
  ghost predicate IsSqrt(sqrt: real -> real)
  {
    forall x :: IsRootOf(sqrt, x)
  }

  /** sqrt(x) is the non-negative square root of x, for every x >= 0. */
  ghost predicate IsRootOf(sqrt: real -> real, x: real)
  {
    0.0 <= x ==> 0.0 <= sqrt(x) && sqrt(x) * sqrt(x) == x
  }

  const Eps: real := 0.00000001

  /**
   * `SymbolicPosition.distance_to`: inf when either vector is empty, 1.0 when they
   * share no dimension, otherwise one minus the cosine similarity over the shared
   * dimensions (magnitudes over all dimensions, floored at 1e-8), plus a tenth of
   * the temporal gap and a fifth of the collapse-depth gap, capped at 2.0.
   */
  function Distance(a: Position, b: Position, sqrt: real -> real): (d: Dist)
    ensures d == Inf <==> a.semanticVector == [] || b.semanticVector == []
    ensures d.Fin? ==> d.value <= 2.0
  {
    var u, v := a.semanticVector, b.semanticVector;
    if u == [] || v == [] then Inf
    else if Keys(u) * Keys(v) == {} then Fin(1.0)
    else
      var similarity := Similarity(u, v, sqrt);
      var temporal := Abs(a.temporalLayer - b.temporalLayer) * 0.1;
      var collapse := Abs(a.collapseDepth - b.collapseDepth) * 0.2;
      Fin(Min(1.0 - similarity + temporal + collapse, 2.0))
  }

  /** Cosine similarity over the shared dimensions, each magnitude floored at 1e-8. */
  function Similarity(u: Vector, v: Vector, sqrt: real -> real): real
  {
    var mu := Max(Eps, sqrt(SumSquares(u)));
    var mv := Max(Eps, sqrt(SumSquares(v)));
    assert mu * mv > 0.0 by { PosMul(mu, mv); }
    DotCommon(u, v) / (mu * mv)
  }

  /** Positions that share no semantic dimension are exactly 1.0 apart, whatever their layers. */
  lemma DistanceDisjoint(a: Position, b: Position, sqrt: real -> real)
    requires a.semanticVector != [] && b.semanticVector != []
    requires Keys(a.semanticVector) !! Keys(b.semanticVector)
    ensures Distance(a, b, sqrt) == Fin(1.0)
  {
    assert Keys(a.semanticVector) * Keys(b.semanticVector) == {};
  }

  /** Distance is symmetric. */
  lemma DistanceSymmetric(a: Position, b: Position, sqrt: real -> real)
    ensures Distance(a, b, sqrt) == Distance(b, a, sqrt)
  {
    var u, v := a.semanticVector, b.semanticVector;
    if u != [] && v != [] && Keys(u) * Keys(v) != {} {
      DotCommonSymmetric(u, v);
      assert Keys(u) * Keys(v) == Keys(v) * Keys(u);
      var mu := Max(Eps, sqrt(SumSquares(u)));
      var mv := Max(Eps, sqrt(SumSquares(v)));
      assert mu * mv == mv * mu;
      assert Similarity(u, v, sqrt) == Similarity(v, u, sqrt);
      assert Abs(a.temporalLayer - b.temporalLayer) == Abs(b.temporalLayer - a.temporalLayer);
      assert Abs(a.collapseDepth - b.collapseDepth) == Abs(b.collapseDepth - a.collapseDepth);
    }
  }

  lemma SumSquaresNonNegative(v: seq<(Label, real)>)
    ensures SumSquares(v) >= 0.0
  {
    SumSquaresIsSq(v);
    SqNonNegative(Values(v));
  }

  lemma SquareRootFacts(sqrt: real -> real, x: real)
    requires IsSqrt(sqrt) && 0.0 <= x
    ensures 0.0 <= sqrt(x) && sqrt(x) * sqrt(x) == x
  {
    assert IsRootOf(sqrt, x);
  }

  lemma PosMul(x: real, y: real)
    requires x > 0.0 && y > 0.0
    ensures x * y > 0.0
  {
  }
  lemma MulMono(x: real, y: real, z: real)
    requires 0.0 <= z && x <= y
    ensures x * z <= y * z
  {
  }
  lemma ProductSquare(x: real, y: real)
    ensures (x * y) * (x * y) == (x * x) * (y * y)
  {
  }
  lemma BoundFromSquares(d: real, p: real)
    requires p >= 0.0 && d * d <= p * p
    ensures d <= p
  {
    if d > p {
      assert d * d - p * p == (d - p) * (d + p);
      PosMul(d - p, d + p);
    }
  }
  lemma QuotientAtMostOne(d: real, m: real)
    requires m > 0.0 && d <= m
    ensures d / m <= 1.0
  {
  }
  /** The cosine-similarity bound on plain reals: d^2 <= (ru^2)(rv^2) keeps d over the floored magnitudes at most 1. */
  lemma CosineBound(d: real, su: real, sv: real, ru: real, rv: real)
    requires ru >= 0.0 && rv >= 0.0 && ru * ru == su && rv * rv == sv
    requires d * d <= su * sv
    ensures d / (Max(Eps, ru) * Max(Eps, rv)) <= 1.0
  {
    var mu, mv := Max(Eps, ru), Max(Eps, rv);
    ProductSquare(ru, rv);
    var p := ru * rv;
    MulMono(0.0, ru, rv);
    BoundFromSquares(d, p);
    MulMono(ru, mu, rv);
    assert ru * rv <= mu * rv;
    MulMono(rv, mv, mu);
    assert rv * mu <= mv * mu;
    assert mu * rv == rv * mu && mv * mu == mu * mv;
    PosMul(mu, mv);
    calc {
      p;
    ==
      ru * rv;
    <=
      mu * rv;
    ==
      rv * mu;
    <=
      mv * mu;
    ==
      mu * mv;
    }
    QuotientAtMostOne(d, mu * mv);
  }
  lemma SelfQuotient(s: real, r: real)
    requires r >= 0.0 && r * r == s && s >= Eps * Eps
    ensures Max(Eps, r) == r
    ensures s / (Max(Eps, r) * Max(Eps, r)) == 1.0
  {
    BoundFromSquares(Eps, r);
    PosMul(r, r);
  }


  /** With a true square root the cosine similarity never exceeds 1. */
  lemma SimilarityAtMostOne(u: Vector, v: Vector, sqrt: real -> real)
    requires IsSqrt(sqrt)
    ensures Similarity(u, v, sqrt) <= 1.0
  {
    var su, sv, d := SumSquares(u), SumSquares(v), DotCommon(u, v);
    SumSquaresNonNegative(u);
    SumSquaresNonNegative(v);
    SquareRootFacts(sqrt, su);
    SquareRootFacts(sqrt, sv);
    DotCommonBound(u, v, d, su, sv);
    CosineBound(d, su, sv, sqrt(su), sqrt(sv));
  }

  /** With a true square root, distances are never negative. */
  lemma DistanceNonNegative(a: Position, b: Position, sqrt: real -> real)
    requires IsSqrt(sqrt)
    ensures Distance(a, b, sqrt).Fin? ==> Distance(a, b, sqrt).value >= 0.0
  {
    var u, v := a.semanticVector, b.semanticVector;
    if u != [] && v != [] && Keys(u) * Keys(v) != {} {
      SimilarityAtMostOne(u, v, sqrt);
    }
  }

  /**
   * With a true square root, a position is at distance 0 from itself, unless its
   * vector is empty (inf) or so small that the 1e-8 floor on its magnitude applies.
   */
  /** A vector is fully similar to itself unless the 1e-8 floor on its magnitude applies. */
  lemma SimilaritySelf(u: Vector, sqrt: real -> real)
    requires IsSqrt(sqrt) && SumSquares(u) >= Eps * Eps
    ensures Similarity(u, u, sqrt) == 1.0
  {
    DotCommonSelf(u);
    var s := SumSquares(u);
    SquareRootFacts(sqrt, s);
    var r := sqrt(s);
    SelfQuotient(s, r);
    assert Similarity(u, u, sqrt) == DotCommon(u, u) / (Max(Eps, r) * Max(Eps, r));
  }

  lemma DistanceToSelf(a: Position, sqrt: real -> real)
    requires IsSqrt(sqrt)
    requires a.semanticVector != []
    requires SumSquares(a.semanticVector) >= Eps * Eps
    ensures Distance(a, a, sqrt) == Fin(0.0)
  {
    var u := a.semanticVector;
    assert u[0].0 in Keys(u) * Keys(u);
    SimilaritySelf(u, sqrt);
    assert Abs(a.temporalLayer - a.temporalLayer) == 0.0;
    assert Abs(a.collapseDepth - a.collapseDepth) == 0.0;
  }

  /** ConstellationNode; created_at and last_accessed (clock values) are not kept. */
  datatype Node = Node(
    id: NodeId,
    nodeType: NodeType,
    position: Position,
    mass: real,
    charge: real,
    spin: real,
    edges: map<NodeId, real>,
    scarBridges: seq<NodeId>,
    accessCount: int,
    tags: set<string>)

  /** A node as `ConstellationNode(id=, node_type=, position=, mass=)` creates it. */
  function NewNode(id: NodeId, t: NodeType, p: Position, mass: real): (n: Node)
    ensures n.id == id && n.nodeType == t && n.position == p && n.mass == mass
    ensures n.edges == map[] && n.scarBridges == [] && n.tags == {}
    ensures n.charge == 0.0 && n.spin == 0.0 && n.accessCount == 0
  {
    Node(id, t, p, mass, 0.0, 0.0, map[], [], 0, {})
  }

  /** Constellation; `nodes` is kept as the member ids in insertion order. */
  datatype Constellation = Constellation(
    id: ConstellationId,
    constellationType: ConstellationType,
    members: seq<NodeId>,
    gravityCenter: Option<NodeId>,
    totalMass: real,
    avgCollapseDepth: real,
    radius: real,
    membraneStrength: real,
    rotationRate: real,
    expansionRate: real,
    stability: real,
    bridges: map<ConstellationId, real>)

  /** `Constellation(id=, constellation_type=)` with every other field at its default. */
  function NewConstellation(id: ConstellationId, t: ConstellationType): (c: Constellation)
    ensures c.id == id && c.constellationType == t && c.members == [] && c.gravityCenter == None
    ensures c.totalMass == 0.0 && c.avgCollapseDepth == 0.0 && c.stability == 1.0
  {
    Constellation(id, t, [], None, 0.0, 0.0, 1.0, 0.5, 0.0, 0.0, 1.0, map[])
  }

  type NodeTable = map<NodeId, Node>

  ghost predicate MembersKnown(ms: seq<NodeId>, table: NodeTable)
  {
    forall m :: m in ms ==> m in table
  }

  /** Centrality of `_recalculate_center`: mass times number of edges. */
  function Centrality(n: Node): real
  {
    n.mass * |n.edges| as real
  }

  /**
   * The scan of `_recalculate_center` over the first k members: the candidate
   * centre and the weight it beat (starting from 0, strictly greater wins).
   */
  function CenterScan(ms: seq<NodeId>, table: NodeTable, k: nat): (Option<NodeId>, real)
    requires k <= |ms| && MembersKnown(ms, table)
  {
    if k == 0 then (None, 0.0)
    else
      var prev := CenterScan(ms, table, k - 1);
      var x := Centrality(table[ms[k - 1]]);
      if x > prev.1 then (Some(ms[k - 1]), x) else prev
  }

  function GravityCenter(ms: seq<NodeId>, table: NodeTable): Option<NodeId>
    requires MembersKnown(ms, table)
  {
    CenterScan(ms, table, |ms|).0
  }

  /**
   * c is the gravity centre of the members: the first member of largest positive
   * centrality, or None when no member has positive centrality.
   */
  ghost predicate IsGravityCenter(ms: seq<NodeId>, table: NodeTable, c: Option<NodeId>)
    requires MembersKnown(ms, table)
  {
    match c
    case None => forall j :: 0 <= j < |ms| ==> Centrality(table[ms[j]]) <= 0.0
    case Some(k) =>
      exists i :: 0 <= i < |ms| && ms[i] == k && Centrality(table[ms[i]]) > 0.0 &&
        (forall j :: 0 <= j < |ms| ==> Centrality(table[ms[j]]) <= Centrality(table[ms[i]])) &&
        (forall j :: 0 <= j < i ==> Centrality(table[ms[j]]) < Centrality(table[ms[i]]))
  }

  lemma {:induction false} CenterScanSpec(ms: seq<NodeId>, table: NodeTable, k: nat)
    requires k <= |ms| && MembersKnown(ms, table)
    ensures var (c, w) := CenterScan(ms, table, k);
      (c == None ==> w == 0.0 && forall j :: 0 <= j < k ==> Centrality(table[ms[j]]) <= 0.0) &&
      (c.Some? ==>
         exists i ::
           0 <= i < k && ms[i] == c.value && w == Centrality(table[ms[i]]) && w > 0.0 &&
           (forall j :: 0 <= j < k ==> Centrality(table[ms[j]]) <= w) &&
           (forall j :: 0 <= j < i ==> Centrality(table[ms[j]]) < w))
  {
    if k > 0 {
      CenterScanSpec(ms, table, k - 1);
      var (c, w) := CenterScan(ms, table, k - 1);
      var x := Centrality(table[ms[k - 1]]);
      if x > w {
        assert CenterScan(ms, table, k) == (Some(ms[k - 1]), x);
        if c.Some? {
          var i :| 0 <= i < k - 1 && ms[i] == c.value && w == Centrality(table[ms[i]]) && w > 0.0 &&
            (forall j :: 0 <= j < k - 1 ==> Centrality(table[ms[j]]) <= w) &&
            (forall j :: 0 <= j < i ==> Centrality(table[ms[j]]) < w);
        }
      }
    }
  }

  /** `_recalculate_center` picks the first member of largest positive centrality. */
  lemma GravityCenterIsFirstMax(ms: seq<NodeId>, table: NodeTable)
    requires MembersKnown(ms, table)
    ensures IsGravityCenter(ms, table, GravityCenter(ms, table))
  {
    CenterScanSpec(ms, table, |ms|);
  }

  /** At most one member satisfies the description of the gravity centre. */
  lemma GravityCenterUnique(ms: seq<NodeId>, table: NodeTable, c1: Option<NodeId>, c2: Option<NodeId>)
    requires MembersKnown(ms, table)
    requires IsGravityCenter(ms, table, c1) && IsGravityCenter(ms, table, c2)
    ensures c1 == c2
  {
    if c1.Some? && c2.Some? {
      var i1 :| 0 <= i1 < |ms| && ms[i1] == c1.value && Centrality(table[ms[i1]]) > 0.0 &&
        (forall j :: 0 <= j < |ms| ==> Centrality(table[ms[j]]) <= Centrality(table[ms[i1]])) &&
        (forall j :: 0 <= j < i1 ==> Centrality(table[ms[j]]) < Centrality(table[ms[i1]]));
      var i2 :| 0 <= i2 < |ms| && ms[i2] == c2.value && Centrality(table[ms[i2]]) > 0.0 &&
        (forall j :: 0 <= j < |ms| ==> Centrality(table[ms[j]]) <= Centrality(table[ms[i2]])) &&
        (forall j :: 0 <= j < i2 ==> Centrality(table[ms[j]]) < Centrality(table[ms[i2]]));
      assert i1 == i2;
    }
  }

  function SumDepth(ms: seq<NodeId>, table: NodeTable): real
    requires MembersKnown(ms, table)
  {
    if ms == [] then 0.0 else table[ms[0]].position.collapseDepth + SumDepth(ms[1..], table)
  }

  function MassSum(ms: seq<NodeId>, table: NodeTable): real
    requires MembersKnown(ms, table)
  {
    if ms == [] then 0.0 else table[ms[0]].mass + MassSum(ms[1..], table)
  }

  lemma {:induction false} MassSumAppend(ms: seq<NodeId>, x: NodeId, table: NodeTable)
    requires MembersKnown(ms, table) && x in table
    ensures MassSum(ms + [x], table) == MassSum(ms, table) + table[x].mass
  {
    if ms == [] {
      assert [] + [x] == [x];
    } else {
      assert (ms + [x])[1..] == ms[1..] + [x];
      MassSumAppend(ms[1..], x, table);
    }
  }

  lemma {:induction false} MassSumWithout(ms: seq<NodeId>, x: NodeId, table: NodeTable)
    requires MembersKnown(ms, table) && Distinct(ms) && x in ms
    ensures MassSum(Without(ms, x), table) == MassSum(ms, table) - table[x].mass
  {
    if ms[0] == x {
      assert x !in ms[1..] by {
        forall k | 0 <= k < |ms[1..]| ensures ms[1..][k] != x { assert ms[1..][k] == ms[k + 1]; }
      }
      WithoutMissing(ms[1..], x);
    } else {
      assert Distinct(ms[1..]) by {
        forall i, j | 0 <= i < j < |ms[1..]| ensures ms[1..][i] != ms[1..][j] {
          assert ms[1..][i] == ms[i + 1] && ms[1..][j] == ms[j + 1];
        }
      }
      MassSumWithout(ms[1..], x, table);
    }
  }

  lemma {:induction false} WithoutMissing<T>(s: seq<T>, x: T)
    requires x !in s
    ensures Without(s, x) == s
  {
    if s != [] { WithoutMissing(s[1..], x); }
  }

  /** The node table after `node.position.constellation_id = cid`. */
  function MarkMember(table: NodeTable, id: NodeId, cid: ConstellationId): (t: NodeTable)
    requires id in table
    ensures t.Keys == table.Keys
  {
    table[id := table[id].(position := table[id].position.(constellationId := Some(cid)))]
  }

  /** `_recalculate_center`: the new gravity centre and average collapse depth. */
  method RecalculateCenter(ms: seq<NodeId>, table: NodeTable, previousDepth: real)
    returns (center: Option<NodeId>, avgDepth: real)
    requires MembersKnown(ms, table)
    ensures center == GravityCenter(ms, table)
    ensures avgDepth == if ms == [] then previousDepth else SumDepth(ms, table) / |ms| as real
  {
    if ms == [] {
      return None, previousDepth;
    }
    var maxWeight := 0.0;
    center := None;
    var i := 0;
    while i < |ms|
      invariant 0 <= i <= |ms|
      invariant (center, maxWeight) == CenterScan(ms, table, i)
    {
      var centrality := Centrality(table[ms[i]]);
      if centrality > maxWeight {
        maxWeight := centrality;
        center := Some(ms[i]);
      }
      i := i + 1;
    }
    avgDepth := SumDepth(ms, table) / |ms| as real;
  }

  /** The constellation after `add_node` of a node already in the table `t`. */
  function WithMember(c: Constellation, id: NodeId, t: NodeTable): (r: Constellation)
    requires id in t && MembersKnown(c.members, t)
    ensures r.id == c.id && r.constellationType == c.constellationType && MembersKnown(r.members, t)
    ensures forall m :: m in r.members <==> m in c.members || m == id
  {
    var ms := if id in c.members then c.members else c.members + [id];
    c.(members := ms, totalMass := c.totalMass + t[id].mass,
       gravityCenter := GravityCenter(ms, t), avgCollapseDepth := SumDepth(ms, t) / |ms| as real)
  }

  /** The constellation after `remove_node`: a non-member leaves it as it was; a member loses its place and its mass. */
  function WithoutMember(c: Constellation, id: NodeId, t: NodeTable): (r: Constellation)
    requires MembersKnown(c.members, t)
    ensures id !in c.members ==> r == c
    ensures r.id == c.id && r.constellationType == c.constellationType && MembersKnown(r.members, t)
    ensures forall m :: m in r.members <==> m in c.members && m != id
    ensures id in c.members ==> r.totalMass == c.totalMass - t[id].mass
  {
    if id !in c.members then c
    else
      var ms := Without(c.members, id);
      c.(members := ms, totalMass := c.totalMass - t[id].mass,
         gravityCenter := GravityCenter(ms, t),
         avgCollapseDepth := if ms == [] then c.avgCollapseDepth else SumDepth(ms, t) / |ms| as real)
  }

  /** `Constellation.add_node`: records the member, its mass and constellation id, then recentres. */
  method AddMember(c: Constellation, id: NodeId, table: NodeTable) returns (r: Constellation, t: NodeTable)
    requires id in table && MembersKnown(c.members, table)
    ensures t == MarkMember(table, id, c.id)
    ensures MembersKnown(c.members, t) && r == WithMember(c, id, t)
  {
    t := MarkMember(table, id, c.id);
    var ms := if id in c.members then c.members else c.members + [id];
    var center, depth := RecalculateCenter(ms, t, c.avgCollapseDepth);
    r := c.(members := ms, totalMass := c.totalMass + t[id].mass, gravityCenter := center, avgCollapseDepth := depth);
  }

  /** `Constellation.remove_node`: a non-member changes nothing; the node keeps its constellation id. */
  method RemoveMember(c: Constellation, id: NodeId, table: NodeTable) returns (r: Constellation)
    requires MembersKnown(c.members, table)
    ensures r == WithoutMember(c, id, table)
  {
    if id !in c.members {
      return c;
    }
    var ms := Without(c.members, id);
    var center, depth := RecalculateCenter(ms, table, c.avgCollapseDepth);
    r := c.(members := ms, totalMass := c.totalMass - table[id].mass, gravityCenter := center, avgCollapseDepth := depth);
  }

  /** A constellation's mass is the sum of its members' masses. */
  ghost predicate MassAgrees(c: Constellation, t: NodeTable)
    requires MembersKnown(c.members, t)
  {
    c.totalMass == MassSum(c.members, t)
  }

  /** Adding a new member keeps the mass equal to the members' masses, and the member list distinct. */
  lemma AddMemberKeepsMass(c: Constellation, id: NodeId, t: NodeTable)
    requires id in t && MembersKnown(c.members, t) && MassAgrees(c, t) && Distinct(c.members)
    requires id !in c.members
    ensures MembersKnown(WithMember(c, id, t).members, t)
    ensures MassAgrees(WithMember(c, id, t), t) && Distinct(WithMember(c, id, t).members)
  {
    MassSumAppend(c.members, id, t);
  }

  /** Re-adding a member counts its mass twice: the member list stays, the mass grows. */
  lemma AddMemberTwiceDoublesMass(c: Constellation, id: NodeId, t: NodeTable)
    requires id in t && MembersKnown(c.members, t) && id in c.members
    ensures WithMember(c, id, t).members == c.members
    ensures WithMember(c, id, t).totalMass == c.totalMass + t[id].mass
  {
  }

  /** Removing a member keeps the mass equal to the members' masses. */
  lemma RemoveMemberKeepsMass(c: Constellation, id: NodeId, t: NodeTable)
    requires MembersKnown(c.members, t) && MassAgrees(c, t) && Distinct(c.members)
    ensures MembersKnown(WithoutMember(c, id, t).members, t)
    ensures MassAgrees(WithoutMember(c, id, t), t)
    ensures id !in WithoutMember(c, id, t).members
  {
    if id in c.members {
      MassSumWithout(c.members, id, t);
    }
  }

  // ---------------------------------------------------------------------------
  // Cohesion.

  function Positions(ms: seq<NodeId>, t: NodeTable): (ps: seq<Position>)
    requires MembersKnown(ms, t)
    ensures |ps| == |ms| && forall k :: 0 <= k < |ms| ==> ps[k] == t[ms[k]].position
  {
    if ms == [] then [] else [t[ms[0]].position] + Positions(ms[1..], t)
  }

  /** total plus distance(ps[i], ps[k]) for i < k < j, added in the order of the inner loop. */
  function RowSum(total: Dist, ps: seq<Position>, i: nat, j: nat, sqrt: real -> real): Dist
    requires i < |ps| && j <= |ps|
  {
    if j <= i + 1 then total else DistAdd(RowSum(total, ps, i, j - 1, sqrt), Distance(ps[i], ps[j - 1], sqrt))
  }

  /** The sum over all pairs in the rows before row i, in the order of the two loops. */
  function PairSum(ps: seq<Position>, i: nat, sqrt: real -> real): Dist
    requires i <= |ps|
  {
    if i == 0 then Fin(0.0) else RowSum(PairSum(ps, i - 1, sqrt), ps, i - 1, |ps|, sqrt)
  }

  /** Number of pairs in the rows before row i. */
  function PairCount(n: nat, i: nat): nat
    requires i <= n
  {
    if i == 0 then 0 else PairCount(n, i - 1) + (n - i)
  }

  /** The final formula of `calculate_cohesion` from the pairwise total and count. */
  function CohesionValue(total: Dist, comparisons: nat, totalMass: real): real
    requires total.Fin? ==> total.value >= 0.0
  {
    if comparisons == 0 then 1.0
    else if total.Inf? then 0.0
    else
      var avg := total.value / comparisons as real;
      var cohesion := 1.0 / (1.0 + avg);
      var bound := if totalMass > 0.0 then cohesion * (1.0 + Min(totalMass / 100.0, 1.0) * 0.5) else cohesion;
      Min(bound, 1.0)
  }

  lemma {:induction false} RowSumNonNegative(total: Dist, ps: seq<Position>, i: nat, j: nat, sqrt: real -> real)
    requires i < |ps| && j <= |ps| && IsSqrt(sqrt)
    requires total.Fin? ==> total.value >= 0.0
    ensures RowSum(total, ps, i, j, sqrt).Fin? ==> RowSum(total, ps, i, j, sqrt).value >= 0.0
  {
    if j > i + 1 {
      RowSumNonNegative(total, ps, i, j - 1, sqrt);
      DistanceNonNegative(ps[i], ps[j - 1], sqrt);
    }
  }

  lemma {:induction false} PairSumNonNegative(ps: seq<Position>, i: nat, sqrt: real -> real)
    requires i <= |ps| && IsSqrt(sqrt)
    ensures PairSum(ps, i, sqrt).Fin? ==> PairSum(ps, i, sqrt).value >= 0.0
  {
    if i > 0 {
      PairSumNonNegative(ps, i - 1, sqrt);
      RowSumNonNegative(PairSum(ps, i - 1, sqrt), ps, i - 1, |ps|, sqrt);
    }
  }

  /** Cohesion is always between 0 and 1. */
  lemma CohesionValueBounds(total: Dist, comparisons: nat, totalMass: real)
    requires total.Fin? ==> total.value >= 0.0
    ensures 0.0 <= CohesionValue(total, comparisons, totalMass) <= 1.0
  {
    if comparisons > 0 && total.Fin? {
      var avg := total.value / comparisons as real;
      QuotientNonNegative(total.value, comparisons as real);
      var cohesion := 1.0 / (1.0 + avg);
      Reciprocal(1.0 + avg);
      if totalMass > 0.0 {
        PosMul(cohesion, 1.0 + Min(totalMass / 100.0, 1.0) * 0.5);
      }
    }
  }

  lemma QuotientNonNegative(x: real, y: real)
    requires x >= 0.0 && y > 0.0
    ensures x / y >= 0.0
  {
  }

  lemma Reciprocal(y: real)
    requires y >= 1.0
    ensures 0.0 < 1.0 / y <= 1.0
  {
  }

  /** `Constellation.calculate_cohesion`, as a function of the members' positions. */
  function CohesionOf(c: Constellation, t: NodeTable, sqrt: real -> real): real
    requires MembersKnown(c.members, t) && IsSqrt(sqrt)
  {
    var ps := Positions(c.members, t);
    if |ps| < 2 then 1.0
    else
      PairSumNonNegative(ps, |ps|, sqrt);
      CohesionValue(PairSum(ps, |ps|, sqrt), PairCount(|ps|, |ps|), c.totalMass)
  }

  /** The inner loop of `calculate_cohesion`: row i's pairs added to the running total and count. */
  method AddRow(total0: Dist, count0: nat, ps: seq<Position>, i: nat, sqrt: real -> real)
    returns (total: Dist, count: nat)
    requires i < |ps|
    ensures total == RowSum(total0, ps, i, |ps|, sqrt) && count == count0 + (|ps| - i - 1)
  {
    total, count := total0, count0;
    var j := i + 1;
    while j < |ps|
      invariant i + 1 <= j <= |ps|
      invariant total == RowSum(total0, ps, i, j, sqrt) && count == count0 + (j - i - 1)
    {
      total := DistAdd(total, Distance(ps[i], ps[j], sqrt));
      count := count + 1;
      j := j + 1;
    }
  }

  /** The two loops of `calculate_cohesion`: the sum of all pairwise distances and the number of pairs. */
  method PairTotal(ps: seq<Position>, sqrt: real -> real) returns (total: Dist, comparisons: nat)
    ensures total == PairSum(ps, |ps|, sqrt) && comparisons == PairCount(|ps|, |ps|)
  {
    total, comparisons := Fin(0.0), 0;
    var i := 0;
    while i < |ps|
      invariant 0 <= i <= |ps|
      invariant total == PairSum(ps, i, sqrt) && comparisons == PairCount(|ps|, i)
    {
      total, comparisons := AddRow(total, comparisons, ps, i, sqrt);
      i := i + 1;
    }
  }

  /** `Constellation.calculate_cohesion`. */
  method Cohesion(c: Constellation, t: NodeTable, sqrt: real -> real) returns (h: real)
    requires MembersKnown(c.members, t) && IsSqrt(sqrt)
    ensures h == CohesionOf(c, t, sqrt)
    ensures |c.members| < 2 ==> h == 1.0
  {
    var ps := Positions(c.members, t);
    if |ps| < 2 {
      return 1.0;
    }
    var total, comparisons := PairTotal(ps, sqrt);
    PairSumNonNegative(ps, |ps|, sqrt);
    h := CohesionValue(total, comparisons, c.totalMass);
  }

  /** Cohesion is always between 0 and 1, and 1 for fewer than two members. */
  lemma CohesionOfBounds(c: Constellation, t: NodeTable, sqrt: real -> real)
    requires MembersKnown(c.members, t) && IsSqrt(sqrt)
    ensures 0.0 <= CohesionOf(c, t, sqrt) <= 1.0
  {
    var ps := Positions(c.members, t);
    if |ps| >= 2 {
      PairSumNonNegative(ps, |ps|, sqrt);
      CohesionValueBounds(PairSum(ps, |ps|, sqrt), PairCount(|ps|, |ps|), c.totalMass);
    }
  }
}
