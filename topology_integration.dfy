/**
 * The integration layer between the topological space and the rest of the
 * system (src/topology/tca_integration.py): the six core constellations, the
 * placement of scars and doctrines as nodes, the routing of each to a
 * constellation, identity bridges and the cascade-risk estimate.
 */
module TopologyIntegration {
  import opened Wrappers
  import opened SemanticVectors
  import opened TopologyCore
  import opened TopologySpace
  import opened Records
  import Strings
  import Sorting

  // ---------------------------------------------------------------- core constellations

  const IdentityCore: ConstellationId := "identity_core"
  const EthicsCore: ConstellationId := "ethics_core"
  const LogicCore: ConstellationId := "logic_core"
  const EmpiricalCore: ConstellationId := "empirical_core"
  const ShadowRealm: ConstellationId := "shadow_realm"
  const ParadoxVoidId: ConstellationId := "paradox_void"

  /** The fundamental regions, each with its type. */
  const CoreConstellations: seq<(ConstellationId, ConstellationType)> := [
    (IdentityCore, Identity), (EthicsCore, Ethical), (LogicCore, Logical),
    (EmpiricalCore, Empirical), (ShadowRealm, Shadow), (ParadoxVoidId, Paradoxical)]

  const CoreIds: set<ConstellationId> := {IdentityCore, EthicsCore, LogicCore, EmpiricalCore, ShadowRealm, ParadoxVoidId}

  // ---------------------------------------------------------------- placement rules

  /** The collapse depth of a scar: weight / 100 clamped to [0, 1]. */
  function ScarDepth(weight: real): real
  {
    Min(Max(weight / 100.0, 0.0), 1.0)
  }

  /** The mass of a scar: weight / 10 clamped to [0.1, 20]. */
  function ScarMass(weight: real): real
  {
    Min(Max(weight / 10.0, 0.1), 20.0)
  }

  /** Depth and mass always lie in their ranges, and are the plain ratios inside them. */
  lemma PlacementBounds(weight: real)
    ensures 0.0 <= ScarDepth(weight) <= 1.0
    ensures 0.1 <= ScarMass(weight) <= 20.0
    ensures 0.0 <= weight <= 100.0 ==> ScarDepth(weight) == weight / 100.0
    ensures 1.0 <= weight <= 200.0 ==> ScarMass(weight) == weight / 10.0
    ensures weight >= 100.0 ==> ScarDepth(weight) == 1.0
    ensures weight >= 200.0 ==> ScarMass(weight) == 20.0
  {
  }

  /** The collapse depth of a doctrine: shallow while active, deep otherwise. */
  function DoctrineDepth(d: Doctrine): real
  {
    if d.status == "active" then 0.1 else 0.8
  }

  /** The mass of a doctrine: one per scar link plus five. */
  function DoctrineMass(d: Doctrine): real
  {
    |d.scarLinks| as real + 5.0
  }

  /** `_scar_to_semantic_vector`: two dimensions for the scar's type, then the trauma level. */
  function ScarVector(scar: Scar): (v: Vector)
    ensures |v| >= 2 && v[|v| - 1] == ("trauma", Min(scar.weight / 100.0, 1.0))
    ensures "trauma" in Keys(v) && Get(v, "trauma") == Min(scar.weight / 100.0, 1.0)
  {
    var base: seq<(Label, real)> :=
      if scar.scarType == "ethical" then [("ethics", 0.8), ("harm", 0.3)]
      else if scar.scarType == "logical" then [("logic", 0.8), ("contradiction", 0.5)]
      else if scar.scarType == "identity" then [("self", 0.9), ("fracture", 0.6)]
      else if scar.scarType == "structural" then [("structure", 0.7), ("collapse", 0.8)]
      else [("unknown", 0.5)];
    var v := base + [("trauma", Min(scar.weight / 100.0, 1.0))];
    assert DistinctKeys(v);
    LastKey(v);
    v
  }

  /** The last entry of a vector is its value for its label. */
  lemma LastKey(v: Vector)
    requires v != []
    ensures v[|v| - 1].0 in Keys(v) && Get(v, v[|v| - 1].0) == v[|v| - 1].1
  {
    var k := v[|v| - 1].0;
    KeysIndex(v, k);
    GetAt(v, |v| - 1);
  }

  /** One dimension when the test holds, none otherwise. */
  function When(b: bool, e: (Label, real)): seq<(Label, real)>
  {
    if b then [e] else []
  }

  /**
   * `_doctrine_to_semantic_vector`: keyword dimensions from the lowercased name,
   * then the structure dimension every doctrine has, then instability when fallen.
   */
  function DoctrineVector(d: Doctrine): (v: Vector)
    ensures "structure" in Keys(v) && Get(v, "structure") == 0.6
    ensures "instability" in Keys(v) <==> d.status == "fallen"
    ensures d.status == "fallen" ==> Get(v, "instability") == 0.7
  {
    var n := Strings.Lower(d.name);
    KeywordDimensions(
      Strings.Contains(n, "truth"),
      Strings.Contains(n, "collapse"),
      Strings.Contains(n, "preserve") || Strings.Contains(n, "protect"),
      Strings.Contains(n, "sentient") || Strings.Contains(n, "consciousness"),
      d.status == "fallen")
  }

  /** The doctrine dimensions, given which keywords the name holds and whether it has fallen. */
  function KeywordDimensions(truth: bool, collapse: bool, protection: bool, consciousness: bool, fallen: bool): (v: Vector)
    ensures "structure" in Keys(v) && Get(v, "structure") == 0.6
    ensures "instability" in Keys(v) <==> fallen
    ensures fallen ==> Get(v, "instability") == 0.7
  {
    var v1 := Extend([], {}, truth, ("truth", 0.9));
    var v2 := Extend(v1, {"truth"}, collapse, ("collapse", 0.7));
    var v3 := Extend(v2, {"truth", "collapse"}, protection, ("protection", 0.8));
    var head := Extend(v3, {"truth", "collapse", "protection"}, consciousness, ("consciousness", 0.8));
    var withStructure := Extend(head, {"truth", "collapse", "protection", "consciousness"}, true, ("structure", 0.6));
    var v := Extend(withStructure, {"truth", "collapse", "protection", "consciousness", "structure"}, fallen, ("instability", 0.7));
    DoctrineVectorKeys(head, fallen, v);
    v
  }

  /** Appends a dimension when the test holds; its label is not among the labels so far. */
  function Extend(v: Vector, labels: set<Label>, b: bool, e: (Label, real)): (r: Vector)
    requires e.0 !in labels && forall i :: 0 <= i < |v| ==> v[i].0 in labels
    ensures r == v + When(b, e)
    ensures forall i :: 0 <= i < |r| ==> r[i].0 in labels + {e.0}
  {
    var r := v + When(b, e);
    assert forall i :: 0 <= i < |v| ==> r[i] == v[i];
    r
  }

  lemma DoctrineVectorKeys(head: seq<(Label, real)>, fallen: bool, v: Vector)
    requires forall k :: 0 <= k < |head| ==> head[k].0 in {"truth", "collapse", "protection", "consciousness"}
    requires v == head + [("structure", 0.6)] + When(fallen, ("instability", 0.7))
    ensures "structure" in Keys(v) && Get(v, "structure") == 0.6
    ensures "instability" in Keys(v) <==> fallen
    ensures fallen ==> Get(v, "instability") == 0.7
  {
    var i := |head|;
    assert v[i] == ("structure", 0.6);
    KeysIndex(v, "structure");
    GetAt(v, i);
    KeysIndex(v, "instability");
    if fallen {
      assert v[i + 1] == ("instability", 0.7);
      GetAt(v, i + 1);
    } else {
      assert forall k :: 0 <= k < |v| ==> v[k].0 != "instability";
    }
  }

  /** `_determine_scar_constellation`. */
  function ScarConstellation(scar: Scar): ConstellationId
  {
    if scar.scarType == "ethical" then EthicsCore
    else if scar.scarType == "identity" then IdentityCore
    else if scar.scarType == "logical" then LogicCore
    else if scar.scarType == "empirical" then EmpiricalCore
    else IdentityCore
  }

  /** Scars route by type to the four domain cores; any other type goes to identity_core. */
  lemma ScarRouting(scar: Scar)
    ensures ScarConstellation(scar) in CoreIds
    ensures ScarConstellation(scar) == EthicsCore <==> scar.scarType == "ethical"
    ensures ScarConstellation(scar) == LogicCore <==> scar.scarType == "logical"
    ensures ScarConstellation(scar) == EmpiricalCore <==> scar.scarType == "empirical"
    ensures ScarConstellation(scar) == IdentityCore <==> scar.scarType !in {"ethical", "logical", "empirical"}
  {
  }

  /** `_determine_doctrine_constellation`: tags first, then keywords in the lowercased name. */
  function DoctrineConstellation(d: Doctrine): ConstellationId
  {
    var n := Strings.Lower(d.name);
    if d.tcaTags != [] && "ethics" in d.tcaTags then EthicsCore
    else if d.tcaTags != [] && "identity" in d.tcaTags then IdentityCore
    else if d.tcaTags != [] && "logic" in d.tcaTags then LogicCore
    else if Strings.Contains(n, "sentient") || Strings.Contains(n, "consciousness") then IdentityCore
    else if Strings.Contains(n, "truth") || Strings.Contains(n, "paradox") then LogicCore
    else if Strings.Contains(n, "harm") || Strings.Contains(n, "preserve") then EthicsCore
    else LogicCore
  }

  /**
   * Doctrines land in ethics, identity or logic core; an ethics tag wins over
   * every other rule, the tags win over the name, and with no matching tag and
   * no keyword the doctrine goes to logic_core.
   */
  lemma DoctrineRouting(d: Doctrine)
    ensures DoctrineConstellation(d) in {EthicsCore, IdentityCore, LogicCore}
    ensures "ethics" in d.tcaTags ==> DoctrineConstellation(d) == EthicsCore
    ensures "ethics" !in d.tcaTags && "identity" in d.tcaTags ==> DoctrineConstellation(d) == IdentityCore
    ensures "ethics" !in d.tcaTags && "identity" !in d.tcaTags && "logic" in d.tcaTags ==>
      DoctrineConstellation(d) == LogicCore
    ensures var n := Strings.Lower(d.name);
      "ethics" !in d.tcaTags && "identity" !in d.tcaTags && "logic" !in d.tcaTags &&
      !Strings.Contains(n, "sentient") && !Strings.Contains(n, "consciousness") &&
      !Strings.Contains(n, "truth") && !Strings.Contains(n, "paradox") &&
      !Strings.Contains(n, "harm") && !Strings.Contains(n, "preserve") ==>
      DoctrineConstellation(d) == LogicCore
  {
  }

  // ---------------------------------------------------------------- core table

  /** The constellation table with its insertion order. */
  type CoreState = (map<ConstellationId, Constellation>, seq<ConstellationId>)

  /** One `if cid not in constellations: create_constellation(cid, ct)` step. */
  function EnsureCore(s: CoreState, cid: ConstellationId, ct: ConstellationType): CoreState
  {
    if cid in s.0 then s else (s.0[cid := NewConstellation(cid, ct)], s.1 + [cid])
  }

  /** The table and order after the guarded steps for the first n entries of xs, in turn. */
  function EnsureUpTo(s: CoreState, xs: seq<(ConstellationId, ConstellationType)>, n: nat): CoreState
    requires n <= |xs|
    decreases n
  {
    if n == 0 then s else EnsureCore(EnsureUpTo(s, xs, n - 1), xs[n - 1].0, xs[n - 1].1)
  }

  /** The table and order after `_initialize_core_constellations`: the six guarded steps in turn. */
  function InitializedCores(s: CoreState): CoreState
  {
    EnsureCore(EnsureCore(EnsureCore(EnsureCore(EnsureCore(EnsureCore(s,
      IdentityCore, Identity), EthicsCore, Ethical), LogicCore, Logical),
      EmpiricalCore, Empirical), ShadowRealm, Shadow), ParadoxVoidId, Paradoxical)
  }

  /** The six steps are the fold over the table of cores. */
  lemma InitializedCoresFold(s: CoreState)
    ensures InitializedCores(s) == EnsureUpTo(s, CoreConstellations, |CoreConstellations|)
  {
    var xs := CoreConstellations;
    assert EnsureUpTo(s, xs, 1) == EnsureCore(s, IdentityCore, Identity);
    assert EnsureUpTo(s, xs, 2) == EnsureCore(EnsureUpTo(s, xs, 1), EthicsCore, Ethical);
    assert EnsureUpTo(s, xs, 3) == EnsureCore(EnsureUpTo(s, xs, 2), LogicCore, Logical);
    assert EnsureUpTo(s, xs, 4) == EnsureCore(EnsureUpTo(s, xs, 3), EmpiricalCore, Empirical);
    assert EnsureUpTo(s, xs, 5) == EnsureCore(EnsureUpTo(s, xs, 4), ShadowRealm, Shadow);
    assert EnsureUpTo(s, xs, 6) == EnsureCore(EnsureUpTo(s, xs, 5), ParadoxVoidId, Paradoxical);
  }

  const CoreIdOrder: seq<ConstellationId> := [IdentityCore, EthicsCore, LogicCore, EmpiricalCore, ShadowRealm, ParadoxVoidId]

  function Missing(cs: map<ConstellationId, Constellation>): ConstellationId -> bool
  {
    x => x !in cs
  }

  /** The ids of the first n entries of xs that are missing from cs, in order. */
  function MissingUpTo(cs: map<ConstellationId, Constellation>, xs: seq<(ConstellationId, ConstellationType)>, n: nat): seq<ConstellationId>
    requires n <= |xs|
    decreases n
  {
    if n == 0 then [] else MissingUpTo(cs, xs, n - 1) + (if xs[n - 1].0 in cs then [] else [xs[n - 1].0])
  }

  /** No id occurs twice among the entries. */
  predicate DistinctIds(xs: seq<(ConstellationId, ConstellationType)>)
  {
    forall i, j :: 0 <= i < j < |xs| ==> xs[i].0 != xs[j].0
  }

  /** The guarded steps keep every entry and add exactly the listed ids. */
  lemma {:induction false} EnsureUpToKeys(s: CoreState, xs: seq<(ConstellationId, ConstellationType)>, n: nat)
    requires n <= |xs|
    ensures EnsureUpTo(s, xs, n).0.Keys == s.0.Keys + (set k | 0 <= k < n :: xs[k].0)
    ensures forall c :: c in s.0 ==> EnsureUpTo(s, xs, n).0[c] == s.0[c]
    decreases n
  {
    if n > 0 {
      EnsureUpToKeys(s, xs, n - 1);
      assert (set k | 0 <= k < n :: xs[k].0) == (set k | 0 <= k < n - 1 :: xs[k].0) + {xs[n - 1].0};
    }
  }

  /** With distinct ids, an id missing at the start is present after its step exactly, and missing before it. */
  lemma EnsureUpToBefore(s: CoreState, xs: seq<(ConstellationId, ConstellationType)>, n: nat)
    requires n < |xs| && DistinctIds(xs)
    ensures xs[n].0 in EnsureUpTo(s, xs, n).0 <==> xs[n].0 in s.0
  {
    EnsureUpToKeys(s, xs, n);
    assert forall k :: 0 <= k < n ==> xs[k].0 != xs[n].0;
  }

  /** With distinct ids, each id missing at the start becomes a fresh constellation of its type. */
  lemma {:induction false} EnsureUpToFresh(s: CoreState, xs: seq<(ConstellationId, ConstellationType)>, n: nat)
    requires n <= |xs| && DistinctIds(xs)
    ensures forall k :: 0 <= k < n && xs[k].0 !in s.0 ==>
      xs[k].0 in EnsureUpTo(s, xs, n).0 && EnsureUpTo(s, xs, n).0[xs[k].0] == NewConstellation(xs[k].0, xs[k].1)
    decreases n
  {
    if n > 0 {
      EnsureUpToFresh(s, xs, n - 1);
      EnsureUpToBefore(s, xs, n - 1);
      var u := EnsureUpTo(s, xs, n - 1);
      forall k | 0 <= k < n - 1 && xs[k].0 !in s.0
        ensures EnsureUpTo(s, xs, n).0[xs[k].0] == u.0[xs[k].0]
      {
      }
    }
  }

  /** With distinct ids, the order gains the missing ids in turn. */
  lemma {:induction false} EnsureUpToOrder(s: CoreState, xs: seq<(ConstellationId, ConstellationType)>, n: nat)
    requires n <= |xs| && DistinctIds(xs)
    ensures EnsureUpTo(s, xs, n).1 == s.1 + MissingUpTo(s.0, xs, n)
    decreases n
  {
    if n > 0 {
      EnsureUpToOrder(s, xs, n - 1);
      EnsureUpToBefore(s, xs, n - 1);
    }
  }

  lemma CoreConstellationsDistinct()
    ensures DistinctIds(CoreConstellations)
  {
    assert ShadowRealm[0] != ParadoxVoidId[0];
  }

  /** The ids of the table of cores are the six core ids. */
  lemma CoreIdsListed()
    ensures (set k | 0 <= k < |CoreConstellations| :: CoreConstellations[k].0) == CoreIds
  {
    var xs := CoreConstellations;
    var ids := set k | 0 <= k < |xs| :: xs[k].0;
    assert xs[0].0 in ids && xs[1].0 in ids && xs[2].0 in ids;
    assert xs[3].0 in ids && xs[4].0 in ids && xs[5].0 in ids;
    assert forall k :: 0 <= k < |xs| ==> xs[k].0 in CoreIds;
  }

  /** The ids of the first n entries of xs. */
  function IdsUpTo(xs: seq<(ConstellationId, ConstellationType)>, n: nat): seq<ConstellationId>
    requires n <= |xs|
    decreases n
  {
    if n == 0 then [] else IdsUpTo(xs, n - 1) + [xs[n - 1].0]
  }

  /** The missing ids in turn are the ids filtered by absence from cs. */
  lemma {:induction false} MissingUpToFilter(cs: map<ConstellationId, Constellation>, xs: seq<(ConstellationId, ConstellationType)>, n: nat)
    requires n <= |xs|
    ensures MissingUpTo(cs, xs, n) == Filter(IdsUpTo(xs, n), Missing(cs))
    decreases n
  {
    if n > 0 {
      var x := xs[n - 1].0;
      MissingUpToFilter(cs, xs, n - 1);
      FilterConcat(IdsUpTo(xs, n - 1), [x], Missing(cs));
      FilterCons(x, [], Missing(cs));
      assert [x] + [] == [x];
    }
  }

  lemma CoreIdOrderListed()
    ensures IdsUpTo(CoreConstellations, |CoreConstellations|) == CoreIdOrder
  {
    var xs := CoreConstellations;
    assert IdsUpTo(xs, 1) == [IdentityCore];
    assert IdsUpTo(xs, 2) == [IdentityCore, EthicsCore];
    assert IdsUpTo(xs, 3) == [IdentityCore, EthicsCore, LogicCore];
    assert IdsUpTo(xs, 4) == [IdentityCore, EthicsCore, LogicCore, EmpiricalCore];
    assert IdsUpTo(xs, 5) == [IdentityCore, EthicsCore, LogicCore, EmpiricalCore, ShadowRealm];
  }

  /**
   * The six cores exist afterwards; an existing constellation is never replaced;
   * a missing core is a fresh constellation of its type; nothing else is added.
   */
  lemma CoreTableSpec(s: CoreState)
    ensures InitializedCores(s).0.Keys == s.0.Keys + CoreIds
    ensures forall c :: c in s.0 ==> InitializedCores(s).0[c] == s.0[c]
    ensures forall k :: 0 <= k < |CoreConstellations| && CoreConstellations[k].0 !in s.0 ==>
      InitializedCores(s).0[CoreConstellations[k].0] == NewConstellation(CoreConstellations[k].0, CoreConstellations[k].1)
  {
    CoreConstellationsDistinct();
    InitializedCoresFold(s);
    EnsureUpToKeys(s, CoreConstellations, |CoreConstellations|);
    EnsureUpToFresh(s, CoreConstellations, |CoreConstellations|);
    CoreIdsListed();
  }

  /** The order gains exactly the missing cores, in their fixed order. */
  lemma CoreOrderSpec(s: CoreState)
    ensures InitializedCores(s).1 == s.1 + Filter(CoreIdOrder, Missing(s.0))
  {
    CoreConstellationsDistinct();
    InitializedCoresFold(s);
    EnsureUpToOrder(s, CoreConstellations, |CoreConstellations|);
    MissingUpToFilter(s.0, CoreConstellations, |CoreConstellations|);
    CoreIdOrderListed();
  }

  lemma FilterCons<T>(x: T, s: seq<T>, f: T -> bool)
    ensures Filter([x] + s, f) == (if f(x) then [x] else []) + Filter(s, f)
  {
    assert ([x] + s)[1..] == s;
  }

  /** Initializing twice is initializing once; with all cores present it changes nothing. */
  lemma CoreTableIdempotent(s: CoreState)
    ensures CoreIds <= s.0.Keys ==> InitializedCores(s) == s
    ensures InitializedCores(InitializedCores(s)) == InitializedCores(s)
  {
    CoreTableSpec(s);
    CoreOrderSpec(s);
    NoneMissing(s);
    NoneMissing(InitializedCores(s));
  }

  /** With every core present, initialization leaves the table and the order alone. */
  lemma NoneMissing(s: CoreState)
    ensures CoreIds <= s.0.Keys ==> InitializedCores(s) == s
  {
    if CoreIds <= s.0.Keys {
      var r := Filter(CoreIdOrder, Missing(s.0));
      assert r != [] ==> r[0] in CoreIdOrder && Missing(s.0)(r[0]);
      CoreOrderSpec(s);
      CoreTableSpec(s);
      assert InitializedCores(s).1 == s.1;
      assert InitializedCores(s).0 == s.0;
    }
  }

  // ---------------------------------------------------------------- edges of a placement

  /** The adjacency of `from` after one `create_edge(from, d, w)`: d is added unless unknown or present. */
  function EdgeStep(e: map<NodeId, real>, d: NodeId, keys: set<NodeId>, w: real): map<NodeId, real>
  {
    if d in keys && d !in e then e[d := w] else e
  }

  /** The adjacency of `from` after `create_edge(from, d, w)` for the first n ids in turn. */
  function EdgesUpTo(e: map<NodeId, real>, ids: seq<NodeId>, n: nat, keys: set<NodeId>, w: real): map<NodeId, real>
    requires n <= |ids|
    decreases n
  {
    if n == 0 then e else EdgeStep(EdgesUpTo(e, ids, n - 1, keys, w), ids[n - 1], keys, w)
  }

  lemma EdgesUpToStep(e: map<NodeId, real>, ids: seq<NodeId>, i: nat, keys: set<NodeId>, w: real)
    requires i < |ids|
    ensures EdgesUpTo(e, ids, i + 1, keys, w) == EdgeStep(EdgesUpTo(e, ids, i, keys, w), ids[i], keys, w)
  {
  }

  /** The adjacency of `from` after `create_edge(from, d, w)` for each d of ids in turn. */
  function EdgesAfter(e: map<NodeId, real>, ids: seq<NodeId>, keys: set<NodeId>, w: real): map<NodeId, real>
  {
    EdgesUpTo(e, ids, |ids|, keys, w)
  }

  lemma {:induction false} EdgesUpToSpec(e: map<NodeId, real>, ids: seq<NodeId>, n: nat, keys: set<NodeId>, w: real)
    requires n <= |ids|
    ensures EdgesUpTo(e, ids, n, keys, w).Keys == e.Keys + (set k | 0 <= k < n && ids[k] in keys :: ids[k])
    ensures forall d :: d in e ==> EdgesUpTo(e, ids, n, keys, w)[d] == e[d]
    ensures forall d :: d in EdgesUpTo(e, ids, n, keys, w) && d !in e ==> EdgesUpTo(e, ids, n, keys, w)[d] == w
    decreases n
  {
    if n > 0 {
      EdgesUpToSpec(e, ids, n - 1, keys, w);
      var before := set k | 0 <= k < n - 1 && ids[k] in keys :: ids[k];
      var after := set k | 0 <= k < n && ids[k] in keys :: ids[k];
      assert after == before + (if ids[n - 1] in keys then {ids[n - 1]} else {});
    }
  }

  /**
   * Edges go exactly to the listed ids that are nodes; an existing edge keeps its
   * weight (the first weight wins) and every new edge has weight w.
   */
  lemma EdgesAfterSpec(e: map<NodeId, real>, ids: seq<NodeId>, keys: set<NodeId>, w: real)
    ensures EdgesAfter(e, ids, keys, w).Keys == e.Keys + (set d | d in ids && d in keys)
    ensures forall d :: d in e ==> EdgesAfter(e, ids, keys, w)[d] == e[d]
    ensures forall d :: d in EdgesAfter(e, ids, keys, w) && d !in e ==> EdgesAfter(e, ids, keys, w)[d] == w
  {
    EdgesUpToSpec(e, ids, |ids|, keys, w);
    assert (set k | 0 <= k < |ids| && ids[k] in keys :: ids[k]) == (set d | d in ids && d in keys);
  }

  /** `create_edge` changes nothing but adjacency, and only that of its two ends. */
  /** `m` is `n` with at most its edge map changed. */
  ghost predicate SameButEdges(n: Node, m: Node)
  {
    m == n.(edges := m.edges)
  }

  /** `u` is `t` with at most the edge maps of its nodes changed. */
  ghost predicate EdgesOnly(t: NodeTable, u: NodeTable)
  {
    t.Keys == u.Keys && forall x {:trigger SameButEdges(t[x], u[x])} :: x in t ==> SameButEdges(t[x], u[x])
  }

  lemma EdgesOnlyTrans(t: NodeTable, u: NodeTable, v: NodeTable)
    requires EdgesOnly(t, u) && EdgesOnly(u, v)
    ensures EdgesOnly(t, v)
  {
    forall x | x in t
      ensures SameButEdges(t[x], v[x])
    {
      assert SameButEdges(t[x], u[x]) && SameButEdges(u[x], v[x]);
    }
  }

  lemma WithEdgeFields(t: NodeTable, a: NodeId, b: NodeId, w: real)
    requires a in t && b in t
    ensures EdgesOnly(t, WithEdge(t, a, b, w))
    ensures forall x :: x in t && x != a && x != b ==> WithEdge(t, a, b, w)[x].edges == t[x].edges
    ensures WithEdge(t, a, b, w)[a].edges == t[a].edges[b := w]
  {
    forall x | x in t
      ensures SameButEdges(t[x], WithEdge(t, a, b, w)[x])
    {
    }
  }

  /** The node table after one `create_edge(from, d, w)`: unchanged unless d is a node not yet adjacent. */
  function LinkStep(t: NodeTable, from: NodeId, d: NodeId, w: real): (r: NodeTable)
    requires from in t
    ensures r.Keys == t.Keys
  {
    if d in t && d !in t[from].edges then WithEdge(t, from, d, w) else t
  }

  /** The node table after `create_edge(from, d, w)` for the first n ids in turn. */
  function LinkedUpTo(t: NodeTable, from: NodeId, ids: seq<NodeId>, n: nat, w: real): (r: NodeTable)
    requires from in t && n <= |ids|
    ensures r.Keys == t.Keys
    decreases n
  {
    if n == 0 then t else LinkStep(LinkedUpTo(t, from, ids, n - 1, w), from, ids[n - 1], w)
  }

  lemma LinkStepFields(t: NodeTable, from: NodeId, d: NodeId, w: real)
    requires from in t
    ensures EdgesOnly(t, LinkStep(t, from, d, w))
    ensures LinkStep(t, from, d, w)[from].edges == EdgeStep(t[from].edges, d, t.Keys, w)
    ensures forall x :: x in t && x != from && x != d ==> LinkStep(t, from, d, w)[x].edges == t[x].edges
  {
    if d in t && d !in t[from].edges {
      WithEdgeFields(t, from, d, w);
    } else {
      forall x | x in t
        ensures SameButEdges(t[x], t[x])
      {
      }
    }
  }

  /**
   * Linking changes nothing but adjacency; `from` gains exactly the edges EdgesUpTo
   * describes, and a node that is neither `from` nor among the ids keeps its edges.
   */
  lemma {:induction false} LinkedUpToSpec(t: NodeTable, from: NodeId, ids: seq<NodeId>, n: nat, w: real)
    requires from in t && n <= |ids|
    ensures EdgesOnly(t, LinkedUpTo(t, from, ids, n, w))
    ensures LinkedUpTo(t, from, ids, n, w)[from].edges == EdgesUpTo(t[from].edges, ids, n, t.Keys, w)
    ensures forall x :: x in t && x != from && x !in ids[..n] ==> LinkedUpTo(t, from, ids, n, w)[x].edges == t[x].edges
    decreases n
  {
    if n == 0 {
      forall x | x in t
        ensures SameButEdges(t[x], t[x])
      {
      }
    } else {
      LinkedUpToSpec(t, from, ids, n - 1, w);
      LinkedUpToStep(t, from, ids, n, w);
    }
  }

  /** The inductive step of LinkedUpToSpec: one more link keeps its three facts. */
  lemma LinkedUpToStep(t: NodeTable, from: NodeId, ids: seq<NodeId>, n: nat, w: real)
    requires from in t && 0 < n <= |ids|
    requires EdgesOnly(t, LinkedUpTo(t, from, ids, n - 1, w))
    requires LinkedUpTo(t, from, ids, n - 1, w)[from].edges == EdgesUpTo(t[from].edges, ids, n - 1, t.Keys, w)
    requires forall x :: x in t && x != from && x !in ids[..n - 1] ==> LinkedUpTo(t, from, ids, n - 1, w)[x].edges == t[x].edges
    ensures EdgesOnly(t, LinkedUpTo(t, from, ids, n, w))
    ensures LinkedUpTo(t, from, ids, n, w)[from].edges == EdgesUpTo(t[from].edges, ids, n, t.Keys, w)
    ensures forall x :: x in t && x != from && x !in ids[..n] ==> LinkedUpTo(t, from, ids, n, w)[x].edges == t[x].edges
  {
    var u := LinkedUpTo(t, from, ids, n - 1, w);
    var r := LinkedUpTo(t, from, ids, n, w);
    assert r == LinkStep(u, from, ids[n - 1], w);
    LinkStepFields(u, from, ids[n - 1], w);
    EdgesOnlyTrans(t, u, r);
    assert ids[..n] == ids[..n - 1] + [ids[n - 1]];
    forall x | x in t && x != from && x !in ids[..n]
      ensures r[x].edges == t[x].edges
    {
      assert x !in ids[..n - 1] && x != ids[n - 1];
    }
  }

  // ---------------------------------------------------------------- identity bridges

  /** Another node of identity_core, as `_create_identity_bridges` selects its candidates. */
  function IsIdentityPeer(t: NodeTable, id: NodeId): NodeId -> bool
  {
    x => x in t && x != id && t[x].position.constellationId == Some(IdentityCore)
  }

  /** The bridge distance cap. */
  predicate WithinCap(d: Dist)
  {
    d.Fin? && d.value <= 0.6
  }

  /** Within the cap of position p. */
  function CloseTo(t: NodeTable, p: Position, sqrt: real -> real): NodeId -> bool
  {
    x => x in t && WithinCap(Distance(p, t[x].position, sqrt))
  }

  /** The ascending sort by distance from p, as a descending sort on the negated rank. */
  function NearFirst(t: NodeTable, p: Position, sqrt: real -> real): NodeId -> real
  {
    x => if x in t then -DistRank(Distance(p, t[x].position, sqrt)) else -3.0
  }

  /** The identity peers in node order, stably sorted closest first. */
  function IdentityCandidates(t: NodeTable, order: seq<NodeId>, id: NodeId, sqrt: real -> real): (r: seq<NodeId>)
    requires id in t
    ensures forall x :: x in r ==> IsIdentityPeer(t, id)(x)
  {
    var peers := Filter(order, IsIdentityPeer(t, id));
    Sorting.SortDescCorrect(peers, NearFirst(t, t[id].position, sqrt));
    var r := Sorting.SortDesc(peers, NearFirst(t, t[id].position, sqrt));
    assert forall x :: x in r ==> x in multiset(peers);
    r
  }

  /** The nodes `_create_identity_bridges` bridges to: the first two candidates within the cap. */
  function BridgeTargets(t: NodeTable, order: seq<NodeId>, id: NodeId, sqrt: real -> real): (r: seq<NodeId>)
    requires id in t
    ensures forall x :: x in r ==> x in t && x != id
  {
    Sorting.Take(Filter(IdentityCandidates(t, order, id, sqrt), CloseTo(t, t[id].position, sqrt)), 2)
  }

  /**
   * At most two bridges; each target is another identity_core node within
   * distance 0.6; and targets come closest first.
   */
  lemma BridgeTargetsRules(t: NodeTable, order: seq<NodeId>, id: NodeId, sqrt: real -> real)
    requires id in t
    ensures var r := BridgeTargets(t, order, id, sqrt);
      |r| <= 2 &&
      (forall k :: 0 <= k < |r| ==>
        r[k] in t && r[k] != id && t[r[k]].position.constellationId == Some(IdentityCore) &&
        WithinCap(Distance(t[id].position, t[r[k]].position, sqrt))) &&
      Sorting.SortedDesc(r, NearFirst(t, t[id].position, sqrt))
  {
    var p := t[id].position;
    var key := NearFirst(t, p, sqrt);
    var sorted := IdentityCandidates(t, order, id, sqrt);
    var fs := Filter(sorted, CloseTo(t, p, sqrt));
    var r := BridgeTargets(t, order, id, sqrt);
    Sorting.SortDescCorrect(Filter(order, IsIdentityPeer(t, id)), key);
    Sorting.FilterSorted(sorted, key, CloseTo(t, p, sqrt));
    Sorting.TakeSorted(fs, key, 2);
    forall k | 0 <= k < |r|
      ensures r[k] in t && r[k] != id && t[r[k]].position.constellationId == Some(IdentityCore)
      ensures WithinCap(Distance(p, t[r[k]].position, sqrt))
    {
      assert r[k] in fs;
      assert r[k] in sorted && CloseTo(t, p, sqrt)(r[k]);
      assert IsIdentityPeer(t, id)(r[k]);
    }
  }

  /**
   * An identity peer within the cap is left out only when two targets were
   * chosen, each no farther than it.
   */
  lemma BridgeTargetsClosest(t: NodeTable, order: seq<NodeId>, id: NodeId, sqrt: real -> real, x: NodeId)
    requires id in t
    requires x in order && IsIdentityPeer(t, id)(x) && CloseTo(t, t[id].position, sqrt)(x)
    requires x !in BridgeTargets(t, order, id, sqrt)
    ensures var r := BridgeTargets(t, order, id, sqrt);
      |r| == 2 && forall k :: 0 <= k < 2 ==>
        DistRank(Distance(t[id].position, t[r[k]].position, sqrt)) <= DistRank(Distance(t[id].position, t[x].position, sqrt))
  {
    var p := t[id].position;
    var key := NearFirst(t, p, sqrt);
    var peers := Filter(order, IsIdentityPeer(t, id));
    var sorted := IdentityCandidates(t, order, id, sqrt);
    var r := BridgeTargets(t, order, id, sqrt);
    Sorting.SortDescCorrect(peers, key);
    assert x in peers;
    assert x in multiset(sorted);
    Sorting.TakeFilterSkipped(sorted, key, CloseTo(t, p, sqrt), 2, x);
    forall k | 0 <= k < 2
      ensures DistRank(Distance(p, t[r[k]].position, sqrt)) <= DistRank(Distance(p, t[x].position, sqrt))
    {
      assert key(r[k]) >= key(x);
      assert r[k] in t by { BridgeTargetsRules(t, order, id, sqrt); }
    }
  }

  /** The elements among the first n of xs that pass f, in order. */
  function ChosenUpTo<T>(xs: seq<T>, f: T -> bool, n: nat): (r: seq<T>)
    requires n <= |xs|
    ensures forall x :: x in r ==> x in xs
    decreases n
  {
    if n == 0 then [] else ChosenUpTo(xs, f, n - 1) + (if f(xs[n - 1]) then [xs[n - 1]] else [])
  }

  lemma ChosenUpToStep<T>(xs: seq<T>, f: T -> bool, i: nat)
    requires i < |xs|
    ensures ChosenUpTo(xs, f, i + 1) == if f(xs[i]) then ChosenUpTo(xs, f, i) + [xs[i]] else ChosenUpTo(xs, f, i)
  {
  }

  lemma {:induction false} ChosenUpToFilter<T>(xs: seq<T>, f: T -> bool, n: nat)
    requires n <= |xs|
    ensures ChosenUpTo(xs, f, n) == Filter(xs[..n], f)
    decreases n
  {
    if n > 0 {
      var x := xs[n - 1];
      ChosenUpToFilter(xs, f, n - 1);
      assert xs[..n] == xs[..n - 1] + [x];
      FilterConcat(xs[..n - 1], [x], f);
      FilterCons(x, [], f);
      assert [x] + [] == [x];
    }
  }

  /**
   * A scan that stops at the second chosen element, or at the end with at most
   * two, has chosen the first two elements that pass f.
   */
  lemma ChosenTake<T>(xs: seq<T>, f: T -> bool, i: nat)
    requires i <= |xs|
    requires |ChosenUpTo(xs, f, i)| == 2 || (i == |xs| && |ChosenUpTo(xs, f, i)| <= 2)
    ensures Sorting.Take(Filter(xs, f), 2) == ChosenUpTo(xs, f, i)
  {
    var c := ChosenUpTo(xs, f, i);
    ChosenUpToFilter(xs, f, i);
    assert xs == xs[..i] + xs[i..];
    FilterConcat(xs[..i], xs[i..], f);
    var rest := Filter(xs[i..], f);
    assert Filter(xs, f) == c + rest;
    if i == |xs| {
      assert xs[i..] == [];
      assert rest == [];
      assert c + rest == c;
    } else if |c + rest| > 2 {
      assert (c + rest)[..2] == c;
    } else {
      assert rest == [];
      assert c + rest == c;
    }
  }

  /** The node table after `create_scar_bridge(a, b)` for each b of bs in turn. */
  function BridgeAll(t: NodeTable, a: NodeId, bs: seq<NodeId>): (r: NodeTable)
    requires a in t && forall b :: b in bs ==> b in t
    ensures r.Keys == t.Keys
    decreases |bs|
  {
    if bs == [] then t else WithBridge(BridgeAll(t, a, bs[..|bs| - 1]), a, bs[|bs| - 1])
  }

  /** Bridging a to each of bs in turn keeps the graph facts. */
  lemma {:induction false} BridgeAllGraph(t: NodeTable, a: NodeId, bs: seq<NodeId>, e: int)
    requires a in t && forall b :: b in bs ==> b in t
    ensures GraphFacts(t, e) ==> GraphFacts(BridgeAll(t, a, bs), e)
    decreases |bs|
  {
    if bs != [] {
      var front := bs[..|bs| - 1];
      assert forall b :: b in front ==> b in bs;
      BridgeAllGraph(t, a, front, e);
      WithBridgeGraph(BridgeAll(t, a, front), a, bs[|bs| - 1], e);
    }
  }

  /** The wormhole registry after `create_scar_bridge(a, b)` for each b of bs in turn. */
  function WormholesAfter(w: map<string, (NodeId, NodeId)>, a: NodeId, bs: seq<NodeId>): map<string, (NodeId, NodeId)>
    decreases |bs|
  {
    if bs == [] then w
    else
      var w1 := WormholesAfter(w, a, bs[..|bs| - 1]);
      w1[BridgeKey(|w1|) := (a, bs[|bs| - 1])]
  }

  /**
   * Bridging a to each of bs appends bs to a's bridge list, leaves every field
   * but the bridge lists alone, and leaves every node outside a and bs alone.
   */
  lemma {:induction false} BridgeAllSpec(t: NodeTable, a: NodeId, bs: seq<NodeId>)
    requires a in t && (forall b :: b in bs ==> b in t) && a !in bs
    ensures BridgeAll(t, a, bs)[a].scarBridges == t[a].scarBridges + bs
    ensures forall x :: x in t ==> BridgeAll(t, a, bs)[x] == t[x].(scarBridges := BridgeAll(t, a, bs)[x].scarBridges)
    ensures forall x :: x in t && x != a && x !in bs ==> BridgeAll(t, a, bs)[x] == t[x]
    decreases |bs|
  {
    if bs != [] {
      var front := bs[..|bs| - 1];
      var b := bs[|bs| - 1];
      assert bs == front + [b];
      BridgeAllSpec(t, a, front);
      var u := BridgeAll(t, a, front);
      var r := BridgeAll(t, a, bs);
      assert r == WithBridge(u, a, b);
      WithBridgeCounts(u, a, b);
      forall x | x in t
        ensures r[x] == t[x].(scarBridges := r[x].scarBridges)
      {
        assert r[x] == u[x].(scarBridges := r[x].scarBridges);
        assert u[x] == t[x].(scarBridges := u[x].scarBridges);
      }
      forall x | x in t && x != a && x !in bs
        ensures r[x] == t[x]
      {
        assert x !in front && x != b;
      }
    }
  }

  // ---------------------------------------------------------------- cascade risk

  /** What a paradox node near p adds to the cascade risk. */
  function ParadoxPull(t: NodeTable, x: NodeId, p: Position, sqrt: real -> real): real
  {
    if x in t && t[x].nodeType == NodeType.Paradox then
      var d := Distance(p, t[x].position, sqrt);
      if d.Fin? && d.value < 0.5 then (0.5 - d.value) * t[x].mass * 0.01 else 0.0
    else 0.0
  }

  /** The paradox amplification summed over xs. */
  function Amplification(t: NodeTable, xs: seq<NodeId>, p: Position, sqrt: real -> real): real
    decreases |xs|
  {
    if xs == [] then 0.0
    else Amplification(t, xs[..|xs| - 1], p, sqrt) + ParadoxPull(t, xs[|xs| - 1], p, sqrt)
  }

  /** The weighted mass, edge and constellation factors. */
  function BaseRisk(n: Node, cs: map<ConstellationId, Constellation>): real
  {
    var massFactor := Min(n.mass / 10.0, 1.0);
    var edgeFactor := Min(|n.edges| as real / 5.0, 1.0);
    var cid := n.position.constellationId;
    var constellationFactor :=
      if cid.Some? && cid.value != "" && cid.value in cs then 1.0 - cs[cid.value].stability else 0.0;
    massFactor * 0.4 + edgeFactor * 0.3 + constellationFactor * 0.3
  }

  /** `calculate_cascade_risk`. */
  function CascadeRiskOf(t: NodeTable, order: seq<NodeId>, cs: map<ConstellationId, Constellation>,
                         id: NodeId, sqrt: real -> real): real
  {
    if id !in t then 0.0
    else Min(BaseRisk(t[id], cs) + Amplification(t, order, t[id].position, sqrt), 1.0)
  }

  /** Paradox pulls are never negative while masses are not. */
  lemma {:induction false} AmplificationNonNegative(t: NodeTable, xs: seq<NodeId>, p: Position, sqrt: real -> real)
    requires forall x :: x in t ==> t[x].mass >= 0.0
    ensures Amplification(t, xs, p, sqrt) >= 0.0
    decreases |xs|
  {
    if xs != [] {
      AmplificationNonNegative(t, xs[..|xs| - 1], p, sqrt);
      var x := xs[|xs| - 1];
      if x in t && t[x].nodeType == NodeType.Paradox {
        var d := Distance(p, t[x].position, sqrt);
        if d.Fin? && d.value < 0.5 {
          NonNegProduct(0.5 - d.value, t[x].mass);
        }
      }
    }
  }

  lemma NonNegProduct(a: real, b: real)
    requires a >= 0.0 && b >= 0.0
    ensures a * b * 0.01 >= 0.0
  {
  }

  /**
   * The risk is 0.0 for an unknown node and never exceeds 1.0; with no paradox
   * node within distance 0.5 it is the base risk capped at 1.0, and with
   * non-negative masses the paradoxes can only raise it.
   */
  lemma CascadeRiskRules(t: NodeTable, order: seq<NodeId>, cs: map<ConstellationId, Constellation>,
                         id: NodeId, sqrt: real -> real)
    ensures CascadeRiskOf(t, order, cs, id, sqrt) <= 1.0
    ensures id !in t ==> CascadeRiskOf(t, order, cs, id, sqrt) == 0.0
    ensures id in t && (forall x :: x in t ==> t[x].mass >= 0.0) ==>
      CascadeRiskOf(t, order, cs, id, sqrt) >= Min(BaseRisk(t[id], cs), 1.0)
  {
    if id in t && (forall x :: x in t ==> t[x].mass >= 0.0) {
      AmplificationNonNegative(t, order, t[id].position, sqrt);
    }
  }

  /** With no paradox node close enough, the amplification is zero. */
  lemma {:induction false} NoParadoxNoAmplification(t: NodeTable, xs: seq<NodeId>, p: Position, sqrt: real -> real)
    requires forall k :: 0 <= k < |xs| ==> ParadoxPull(t, xs[k], p, sqrt) == 0.0
    ensures Amplification(t, xs, p, sqrt) == 0.0
    decreases |xs|
  {
    if xs != [] {
      NoParadoxNoAmplification(t, xs[..|xs| - 1], p, sqrt);
    }
  }

  // ---------------------------------------------------------------- the adapter

  /** The placement of a node: fresh, at p, a member of cid, with the given tags. */
  function Placed(id: NodeId, nodeType: NodeType, p: Position, mass: real, cid: ConstellationId, tags: seq<string>): Node
  {
    Marked(id, nodeType, p, mass, cid).(tags := TagSet(tags))
  }

  /** A fresh node at p, marked as a member of cid, before its tags are added. */
  function Marked(id: NodeId, nodeType: NodeType, p: Position, mass: real, cid: ConstellationId): Node
  {
    NewNode(id, nodeType, p.(constellationId := Some(cid)), mass)
  }

  /** Adding the tags to the marked node gives the placed node; with no tags they are the same node. */
  lemma PlacedTags(id: NodeId, nodeType: NodeType, p: Position, mass: real, cid: ConstellationId, tags: seq<string>)
    ensures var m := Marked(id, nodeType, p, mass, cid); m.(tags := m.tags + TagSet(tags)) == Placed(id, nodeType, p, mass, cid, tags)
    ensures tags == [] ==> Marked(id, nodeType, p, mass, cid) == Placed(id, nodeType, p, mass, cid, tags)
  {
    var m := Marked(id, nodeType, p, mass, cid);
    assert m.tags + TagSet(tags) == TagSet(tags);
    if tags == [] {
      assert TagSet(tags) == {};
    }
  }

  /** Writing a key twice is writing it once with the later value. */
  lemma UpdateTwice<K, V>(m: map<K, V>, k: K, a: V, b: V)
    ensures m[k := a][k := b] == m[k := b]
  {
  }

  /** The set of a tag list. */
  function TagSet(tags: seq<string>): set<string>
  {
    set x | x in tags
  }

  // ---------------------------------------------------------------- placements

  /** The node order after `add_node(id)`: a new id is appended, a replaced one keeps its place. */
  function OrderAfterAdd(order: seq<NodeId>, t: NodeTable, id: NodeId): seq<NodeId>
  {
    if id in t then order else order + [id]
  }

  /** The node `place_scar` adds, before its edges and bridges. */
  function ScarNode(scar: Scar): Node
  {
    Placed(scar.id, NodeType.Scar, PositionOf(ScarVector(scar), ScarDepth(scar.weight)),
           ScarMass(scar.weight), ScarConstellation(scar), scar.tcaTags)
  }

  /** The node table after the node, its tags and its 0.7 edges to the linked doctrines. */
  function ScarLinked(t: NodeTable, scar: Scar): (r: NodeTable)
    ensures r.Keys == t.Keys + {scar.id}
  {
    LinkedUpTo(t[scar.id := ScarNode(scar)], scar.id, scar.linkedDoctrines, |scar.linkedDoctrines|, 0.7)
  }

  /** The identity bridges of a placed scar: BridgeTargets for a Whisper scar, none otherwise. */
  function ScarBridges(t: NodeTable, order: seq<NodeId>, scar: Scar, sqrt: real -> real): (r: seq<NodeId>)
    ensures forall x :: x in r ==> x in t + map[scar.id := ScarNode(scar)] && x != scar.id
  {
    if "Whisper" in scar.reflexes then
      BridgeTargets(ScarLinked(t, scar), OrderAfterAdd(order, t, scar.id), scar.id, sqrt)
    else []
  }

  /** The node table after `place_scar`. */
  function ScarPlacement(t: NodeTable, order: seq<NodeId>, scar: Scar, sqrt: real -> real): (r: NodeTable)
    ensures r.Keys == t.Keys + {scar.id}
  {
    BridgeAll(ScarLinked(t, scar), scar.id, ScarBridges(t, order, scar, sqrt))
  }

  /** The scar node after its edges: the fresh node with 0.7 edges to exactly the linked doctrines that are nodes. */
  lemma ScarLinkedNode(t: NodeTable, scar: Scar)
    ensures ScarLinked(t, scar)[scar.id] ==
      ScarNode(scar).(edges := EdgesAfter(map[], scar.linkedDoctrines, t.Keys + {scar.id}, 0.7))
    ensures forall x :: x in t && x != scar.id ==> SameButEdges(t[x], ScarLinked(t, scar)[x])
    ensures forall x :: x in t && x != scar.id && x !in scar.linkedDoctrines ==> ScarLinked(t, scar)[x].edges == t[x].edges
  {
    var id := scar.id;
    var t1 := t[id := ScarNode(scar)];
    var ids := scar.linkedDoctrines;
    LinkedUpToSpec(t1, id, ids, |ids|, 0.7);
    assert ids[..|ids|] == ids;
    var t2 := ScarLinked(t, scar);
    assert SameButEdges(t1[id], t2[id]);
    forall x | x in t && x != id
      ensures SameButEdges(t[x], t2[x])
    {
      assert SameButEdges(t1[x], t2[x]);
    }
  }

  /**
   * The placed scar is the fresh node in its constellation with its tags, with
   * 0.7 edges to exactly the linked doctrines that are nodes, and with its
   * identity bridges.
   */
  lemma ScarPlacementNode(t: NodeTable, order: seq<NodeId>, scar: Scar, sqrt: real -> real)
    ensures ScarPlacement(t, order, scar, sqrt)[scar.id] ==
      ScarNode(scar).(edges := EdgesAfter(map[], scar.linkedDoctrines, t.Keys + {scar.id}, 0.7),
                      scarBridges := ScarBridges(t, order, scar, sqrt))
  {
    var t2 := ScarLinked(t, scar);
    var bs := ScarBridges(t, order, scar, sqrt);
    ScarLinkedNode(t, scar);
    BridgeAllSpec(t2, scar.id, bs);
    assert t2[scar.id].scarBridges == [];
    assert [] + bs == bs;
  }

  /**
   * Placing a scar changes no other node except in its edges and bridges, and
   * a node neither linked nor bridged does not change at all.
   */
  lemma ScarPlacementOthers(t: NodeTable, order: seq<NodeId>, scar: Scar, sqrt: real -> real)
    ensures var r := ScarPlacement(t, order, scar, sqrt);
      forall x :: x in t && x != scar.id ==> r[x] == t[x].(edges := r[x].edges, scarBridges := r[x].scarBridges)
    ensures var r := ScarPlacement(t, order, scar, sqrt);
      forall x :: x in t && x != scar.id && x !in scar.linkedDoctrines && x !in ScarBridges(t, order, scar, sqrt) ==> r[x] == t[x]
  {
    var t2 := ScarLinked(t, scar);
    var bs := ScarBridges(t, order, scar, sqrt);
    var r := ScarPlacement(t, order, scar, sqrt);
    ScarLinkedNode(t, scar);
    BridgeAllSpec(t2, scar.id, bs);
    forall x | x in t && x != scar.id
      ensures r[x] == t[x].(edges := r[x].edges, scarBridges := r[x].scarBridges)
    {
      assert SameButEdges(t[x], t2[x]);
    }
    forall x | x in t && x != scar.id && x !in scar.linkedDoctrines && x !in bs
      ensures r[x] == t[x]
    {
      assert SameButEdges(t[x], t2[x]);
    }
  }

  /**
   * A placed scar has at most two bridges, each to another identity_core node
   * within distance 0.6 of it, and none unless it has the Whisper reflex.
   */
  lemma ScarBridgeRules(t: NodeTable, order: seq<NodeId>, scar: Scar, sqrt: real -> real)
    ensures var r := ScarPlacement(t, order, scar, sqrt); var bs := r[scar.id].scarBridges;
      |bs| <= 2 &&
      (forall k :: 0 <= k < |bs| ==>
        bs[k] in r && bs[k] != scar.id && r[bs[k]].position.constellationId == Some(IdentityCore) &&
        WithinCap(Distance(r[scar.id].position, r[bs[k]].position, sqrt))) &&
      ("Whisper" !in scar.reflexes ==> bs == [])
  {
    var id := scar.id;
    var t2 := ScarLinked(t, scar);
    var bs := ScarBridges(t, order, scar, sqrt);
    var r := ScarPlacement(t, order, scar, sqrt);
    ScarPlacementNode(t, order, scar, sqrt);
    BridgeAllSpec(t2, id, bs);
    if "Whisper" in scar.reflexes {
      BridgeTargetsRules(t2, OrderAfterAdd(order, t, id), id, sqrt);
      forall k | 0 <= k < |bs|
        ensures r[bs[k]].position == t2[bs[k]].position
      {
      }
    }
  }

  /** The node `place_doctrine` adds, before its edges. */
  function DoctrineNode(d: Doctrine): Node
  {
    Placed(d.id, NodeType.Doctrine, PositionOf(DoctrineVector(d), DoctrineDepth(d)),
           DoctrineMass(d), DoctrineConstellation(d), d.tcaTags)
  }

  /** The node table after the node, its tags and its 0.8 edges to the linked scars. */
  function DoctrineLinked(t: NodeTable, d: Doctrine): (r: NodeTable)
    ensures r.Keys == t.Keys + {d.id}
  {
    LinkedUpTo(t[d.id := DoctrineNode(d)], d.id, d.scarLinks, |d.scarLinks|, 0.8)
  }

  /** The node table after `place_doctrine`: a fallen doctrine's charge is then -0.5. */
  function DoctrinePlacement(t: NodeTable, d: Doctrine): (r: NodeTable)
    ensures r.Keys == t.Keys + {d.id}
  {
    var t2 := DoctrineLinked(t, d);
    if d.status == "fallen" then t2[d.id := t2[d.id].(charge := -0.5)] else t2
  }

  /**
   * The placed doctrine is the fresh node in its constellation with its tags,
   * with 0.8 edges to exactly the linked scars that are nodes, and charged -0.5
   * exactly when fallen; other nodes change only in their edges, and a node
   * not linked does not change at all.
   */
  lemma DoctrinePlacementNodes(t: NodeTable, d: Doctrine)
    ensures var r := DoctrinePlacement(t, d);
      r[d.id] == DoctrineNode(d).(edges := EdgesAfter(map[], d.scarLinks, t.Keys + {d.id}, 0.8),
                                  charge := if d.status == "fallen" then -0.5 else 0.0)
    ensures var r := DoctrinePlacement(t, d);
      forall x :: x in t && x != d.id ==> r[x] == t[x].(edges := r[x].edges)
    ensures var r := DoctrinePlacement(t, d);
      forall x :: x in t && x != d.id && x !in d.scarLinks ==> r[x] == t[x]
  {
    var id := d.id;
    var t1 := t[id := DoctrineNode(d)];
    var t2 := DoctrineLinked(t, d);
    var ids := d.scarLinks;
    LinkedUpToSpec(t1, id, ids, |ids|, 0.8);
    assert ids[..|ids|] == ids;
    assert SameButEdges(t1[id], t2[id]);
    forall x | x in t && x != id
      ensures t2[x] == t[x].(edges := t2[x].edges)
    {
      assert SameButEdges(t1[x], t2[x]);
    }
  }

  /** `TCAIntegration`: the adapter over one topological space. */
  /** The fields of a space the identity bridge loop keeps track of. */
  datatype Snapshot = Snapshot(
    nodes: NodeTable,
    wormholes: map<string, (NodeId, NodeId)>,
    nodeOrder: seq<NodeId>,
    constellations: map<ConstellationId, Constellation>,
    constellationOrder: seq<ConstellationId>,
    totalMass: real,
    totalEdges: int)

  class Integration {
    const topology: TopologicalSpace

    /** The space is well formed and the six cores exist. */
    ghost predicate Valid()
      reads this, topology
    {
      topology.Valid() && CoreIds <= topology.constellations.Keys
    }

    /** `__init__` over a given space (the caller passes a fresh space for None). */
    constructor (topology: TopologicalSpace)
      requires topology.Valid()
      modifies topology
      ensures Valid() && this.topology == topology
      ensures (topology.constellations, topology.constellationOrder) ==
        InitializedCores((old(topology.constellations), old(topology.constellationOrder)))
      ensures topology.nodes == old(topology.nodes) && topology.nodeOrder == old(topology.nodeOrder)
      ensures topology.wormholes == old(topology.wormholes)
      ensures topology.totalMass == old(topology.totalMass) && topology.totalEdges == old(topology.totalEdges)
    {
      this.topology := topology;
      new;
      InitializeCoreConstellations();
    }

    /** One guarded `create_constellation` of `_initialize_core_constellations`. */
    method EnsureConstellation(cid: ConstellationId, ct: ConstellationType)
      requires topology.Valid()
      modifies topology
      ensures topology.Valid()
      ensures (topology.constellations, topology.constellationOrder) ==
        EnsureCore((old(topology.constellations), old(topology.constellationOrder)), cid, ct)
      ensures topology.nodes == old(topology.nodes) && topology.nodeOrder == old(topology.nodeOrder)
      ensures topology.wormholes == old(topology.wormholes)
      ensures topology.totalMass == old(topology.totalMass) && topology.totalEdges == old(topology.totalEdges)
    {
      if cid !in topology.constellations {
        var _ := topology.CreateConstellation(cid, ct, []);
      }
    }

    /**
     * `_initialize_core_constellations`: each missing core is created, in order,
     * and no existing constellation is replaced (see CoreTableSpec, CoreTableIdempotent).
     */
    method InitializeCoreConstellations()
      requires topology.Valid()
      modifies topology
      ensures Valid()
      ensures (topology.constellations, topology.constellationOrder) ==
        InitializedCores((old(topology.constellations), old(topology.constellationOrder)))
      ensures topology.nodes == old(topology.nodes) && topology.nodeOrder == old(topology.nodeOrder)
      ensures topology.wormholes == old(topology.wormholes)
      ensures topology.totalMass == old(topology.totalMass) && topology.totalEdges == old(topology.totalEdges)
    {
      ghost var s0: CoreState := (topology.constellations, topology.constellationOrder);
      EnsureConstellation(IdentityCore, Identity);
      EnsureConstellation(EthicsCore, Ethical);
      EnsureConstellation(LogicCore, Logical);
      EnsureConstellation(EmpiricalCore, Empirical);
      EnsureConstellation(ShadowRealm, Shadow);
      EnsureConstellation(ParadoxVoidId, Paradoxical);
      CoreTableSpec(s0);
    }

    /** `add_node` with a given position and core constellation, then the tag update. */
    method Place(id: NodeId, nodeType: NodeType, mass: real, p: Position, cid: ConstellationId, tags: seq<string>)
      requires Valid() && cid in topology.constellations && cid != ""
      modifies topology
      ensures Valid()
      ensures topology.nodes == old(topology.nodes)[id := Placed(id, nodeType, p, mass, cid, tags)]
      ensures topology.constellations == old(topology.constellations)[cid :=
        WithMember(old(topology.constellations)[cid], id, old(topology.nodes)[id := Marked(id, nodeType, p, mass, cid)])]
      ensures topology.nodeOrder == if id in old(topology.nodes) then old(topology.nodeOrder) else old(topology.nodeOrder) + [id]
      ensures topology.totalMass == old(topology.totalMass) + mass
      ensures topology.constellationOrder == old(topology.constellationOrder)
      ensures topology.wormholes == old(topology.wormholes) && topology.totalEdges == old(topology.totalEdges)
      ensures id !in old(topology.nodes) && old(topology.GraphInvariant()) ==> topology.GraphInvariant()
    {
      ghost var t0 := topology.nodes;
      AddMarked(id, nodeType, mass, p, cid);
      PlacedTags(id, nodeType, p, mass, cid, tags);
      if tags != [] {
        AddTags(id, tags, t0, Marked(id, nodeType, p, mass, cid));
      }
    }

    /** The `add_node` call of `place_*`: the node joins the requested core constellation. */
    method AddMarked(id: NodeId, nodeType: NodeType, mass: real, p: Position, cid: ConstellationId)
      requires Valid() && cid in topology.constellations && cid != ""
      modifies topology
      ensures Valid()
      ensures topology.nodes == old(topology.nodes)[id := Marked(id, nodeType, p, mass, cid)]
      ensures topology.constellations == old(topology.constellations)[cid :=
        WithMember(old(topology.constellations)[cid], id, old(topology.nodes)[id := Marked(id, nodeType, p, mass, cid)])]
      ensures topology.nodeOrder == if id in old(topology.nodes) then old(topology.nodeOrder) else old(topology.nodeOrder) + [id]
      ensures topology.totalMass == old(topology.totalMass) + mass
      ensures topology.constellationOrder == old(topology.constellationOrder)
      ensures topology.wormholes == old(topology.wormholes) && topology.totalEdges == old(topology.totalEdges)
      ensures id !in old(topology.nodes) && old(topology.GraphInvariant()) ==> topology.GraphInvariant()
    {
      ghost var t0 := topology.nodes;
      var n, target := topology.AddNode(id, nodeType, mass, Some(p), Some(cid), 0.0, 0.0);
      assert target == Some(cid);
      UpdateTwice(t0, id, NewNode(id, nodeType, p, mass), Marked(id, nodeType, p, mass, cid));
    }

    /** `node.tags.update(tags)` after placement, for a non-empty tag list. */
    method AddTags(id: NodeId, tags: seq<string>, ghost t0: NodeTable, ghost marked: Node)
      requires Valid() && topology.nodes == t0[id := marked]
      modifies topology
      ensures Valid()
      ensures topology.nodes == t0[id := marked.(tags := marked.tags + TagSet(tags))]
      ensures topology.nodeOrder == old(topology.nodeOrder) && topology.constellations == old(topology.constellations)
      ensures topology.constellationOrder == old(topology.constellationOrder) && topology.wormholes == old(topology.wormholes)
      ensures topology.totalMass == old(topology.totalMass) && topology.totalEdges == old(topology.totalEdges)
      ensures old(topology.GraphInvariant()) ==> topology.GraphInvariant()
    {
      topology.Annotate(id, topology.nodes[id].tags + TagSet(tags), topology.nodes[id].charge);
      UpdateTwice(t0, id, marked, marked.(tags := marked.tags + TagSet(tags)));
    }

    /** The `for d in ids: if d in nodes: create_edge(from, d, w)` loop of `place_*`. */
    method LinkAll(from: NodeId, ids: seq<NodeId>, w: real)
      requires Valid() && from in topology.nodes
      modifies topology
      ensures Valid()
      ensures topology.nodes == LinkedUpTo(old(topology.nodes), from, ids, |ids|, w)
      ensures topology.nodes.Keys == old(topology.nodes).Keys && EdgesOnly(old(topology.nodes), topology.nodes)
      ensures topology.nodes[from].edges == EdgesAfter(old(topology.nodes)[from].edges, ids, old(topology.nodes).Keys, w)
      ensures forall x :: x in topology.nodes && x != from && x !in ids ==> topology.nodes[x].edges == old(topology.nodes)[x].edges
      ensures topology.totalEdges - |topology.nodes[from].edges| == old(topology.totalEdges) - |old(topology.nodes)[from].edges|
      ensures topology.nodeOrder == old(topology.nodeOrder) && topology.constellations == old(topology.constellations)
      ensures topology.constellationOrder == old(topology.constellationOrder) && topology.wormholes == old(topology.wormholes)
      ensures topology.totalMass == old(topology.totalMass)
      ensures old(topology.GraphInvariant()) ==> topology.GraphInvariant()
    {
      ghost var t0 := topology.nodes;
      LinkEach(from, ids, w);
      LinkedUpToSpec(t0, from, ids, |ids|, w);
      assert ids[..|ids|] == ids;
    }

    /** The loop of LinkAll: `create_edge(from, d, w)` for each listed d that is a node. */
    method LinkEach(from: NodeId, ids: seq<NodeId>, w: real)
      requires topology.Valid() && from in topology.nodes
      modifies topology
      ensures topology.Valid()
      ensures topology.nodes == LinkedUpTo(old(topology.nodes), from, ids, |ids|, w)
      ensures topology.totalEdges - |topology.nodes[from].edges| == old(topology.totalEdges) - |old(topology.nodes)[from].edges|
      ensures topology.nodeOrder == old(topology.nodeOrder) && topology.constellations == old(topology.constellations)
      ensures topology.constellationOrder == old(topology.constellationOrder) && topology.wormholes == old(topology.wormholes)
      ensures topology.totalMass == old(topology.totalMass)
      ensures old(topology.GraphInvariant()) ==> topology.GraphInvariant()
    {
      ghost var t0 := topology.nodes;
      ghost var e0 := topology.totalEdges;
      ghost var g0 := topology.GraphInvariant();
      ghost var cs0, co0, w0, m0, o0 := topology.constellations, topology.constellationOrder, topology.wormholes, topology.totalMass, topology.nodeOrder;
      var i := 0;
      while i < |ids|
        invariant 0 <= i <= |ids|
        invariant topology.Valid()
        invariant topology.nodes == LinkedUpTo(t0, from, ids, i, w)
        invariant topology.totalEdges - |topology.nodes[from].edges| == e0 - |t0[from].edges|
        invariant topology.nodeOrder == o0 && topology.constellations == cs0
        invariant topology.constellationOrder == co0 && topology.wormholes == w0 && topology.totalMass == m0
        invariant g0 ==> topology.GraphInvariant()
      {
        LinkOne(from, ids, i, w, t0);
        i := i + 1;
      }
    }

    /** The i-th `if d in nodes: create_edge(from, d, w)` step of LinkEach, from the table t0. */
    method LinkOne(from: NodeId, ids: seq<NodeId>, i: nat, w: real, ghost t0: NodeTable)
      requires topology.Valid() && from in t0 && i < |ids|
      requires topology.nodes == LinkedUpTo(t0, from, ids, i, w)
      modifies topology
      ensures topology.Valid()
      ensures topology.nodes == LinkedUpTo(t0, from, ids, i + 1, w)
      ensures topology.totalEdges - |topology.nodes[from].edges| == old(topology.totalEdges) - |old(topology.nodes)[from].edges|
      ensures topology.nodeOrder == old(topology.nodeOrder) && topology.constellations == old(topology.constellations)
      ensures topology.constellationOrder == old(topology.constellationOrder) && topology.wormholes == old(topology.wormholes)
      ensures topology.totalMass == old(topology.totalMass)
      ensures old(topology.GraphInvariant()) ==> topology.GraphInvariant()
    {
      var d := ids[i];
      if d in topology.nodes {
        WithEdgeFields(topology.nodes, from, d, w);
        topology.CreateEdge(from, d, w);
      }
    }

    /** `place_scar`: the node, its tags, edges of weight 0.7 to linked doctrines, Whisper bridges. */
    method PlaceScar(scar: Scar) returns (n: Node)
      requires Valid()
      modifies topology
      ensures Valid()
      ensures topology.nodes == ScarPlacement(old(topology.nodes), old(topology.nodeOrder), scar, topology.sqrt)
      ensures n == topology.nodes[scar.id]
      ensures topology.wormholes ==
        WormholesAfter(old(topology.wormholes), scar.id, ScarBridges(old(topology.nodes), old(topology.nodeOrder), scar, topology.sqrt))
      ensures topology.nodeOrder == OrderAfterAdd(old(topology.nodeOrder), old(topology.nodes), scar.id)
      ensures var cid := ScarConstellation(scar);
        topology.constellations == old(topology.constellations)[cid := WithMember(old(topology.constellations)[cid], scar.id,
          old(topology.nodes)[scar.id := Marked(scar.id, NodeType.Scar, PositionOf(ScarVector(scar), ScarDepth(scar.weight)), ScarMass(scar.weight), cid)])]
      ensures topology.constellationOrder == old(topology.constellationOrder)
      ensures topology.totalMass == old(topology.totalMass) + ScarMass(scar.weight)
      ensures topology.totalEdges == old(topology.totalEdges) + |ScarLinked(old(topology.nodes), scar)[scar.id].edges|
      ensures scar.id !in old(topology.nodes) && old(topology.GraphInvariant()) ==> topology.GraphInvariant()
    {
      var id := scar.id;
      var position := PositionOf(ScarVector(scar), ScarDepth(scar.weight));
      var cid := ScarConstellation(scar);
      ScarRouting(scar);
      Place(id, NodeType.Scar, ScarMass(scar.weight), position, cid, scar.tcaTags);
      LinkAll(id, scar.linkedDoctrines, 0.7);
      if "Whisper" in scar.reflexes {
        CreateIdentityBridges(id);
      }
      n := topology.nodes[id];
    }

    /** `place_doctrine`: the node, its tags, edges of weight 0.8 to linked scars, charge -0.5 when fallen. */
    method PlaceDoctrine(d: Doctrine) returns (n: Node)
      requires Valid()
      modifies topology
      ensures Valid()
      ensures topology.nodes == DoctrinePlacement(old(topology.nodes), d)
      ensures n == topology.nodes[d.id]
      ensures topology.nodeOrder == OrderAfterAdd(old(topology.nodeOrder), old(topology.nodes), d.id)
      ensures var cid := DoctrineConstellation(d);
        topology.constellations == old(topology.constellations)[cid := WithMember(old(topology.constellations)[cid], d.id,
          old(topology.nodes)[d.id := Marked(d.id, NodeType.Doctrine, PositionOf(DoctrineVector(d), DoctrineDepth(d)), DoctrineMass(d), cid)])]
      ensures topology.constellationOrder == old(topology.constellationOrder) && topology.wormholes == old(topology.wormholes)
      ensures topology.totalMass == old(topology.totalMass) + DoctrineMass(d)
      ensures topology.totalEdges == old(topology.totalEdges) + |DoctrineLinked(old(topology.nodes), d)[d.id].edges|
      ensures d.id !in old(topology.nodes) && old(topology.GraphInvariant()) ==> topology.GraphInvariant()
    {
      var id := d.id;
      var position := PositionOf(DoctrineVector(d), DoctrineDepth(d));
      var cid := DoctrineConstellation(d);
      DoctrineRouting(d);
      Place(id, NodeType.Doctrine, DoctrineMass(d), position, cid, d.tcaTags);
      LinkAll(id, d.scarLinks, 0.8);
      if d.status == "fallen" {
        ghost var t2 := topology.nodes;
        topology.Annotate(id, topology.nodes[id].tags, -0.5);
        assert t2[id].(tags := t2[id].tags, charge := -0.5) == t2[id].(charge := -0.5);
      }
      n := topology.nodes[id];
    }

    /**
     * `_create_identity_bridges`: bridges from id to BridgeTargets, closest
     * first, stopping after two; an unknown id changes nothing.
     */
    method CreateIdentityBridges(id: NodeId)
      requires Valid()
      modifies topology
      ensures Valid()
      ensures id !in old(topology.nodes) ==> topology.nodes == old(topology.nodes) && topology.wormholes == old(topology.wormholes)
      ensures id in old(topology.nodes) ==>
        var r := BridgeTargets(old(topology.nodes), old(topology.nodeOrder), id, topology.sqrt);
        topology.nodes == BridgeAll(old(topology.nodes), id, r) &&
        topology.wormholes == WormholesAfter(old(topology.wormholes), id, r)
      ensures topology.nodeOrder == old(topology.nodeOrder) && topology.constellations == old(topology.constellations)
      ensures topology.constellationOrder == old(topology.constellationOrder)
      ensures topology.totalMass == old(topology.totalMass) && topology.totalEdges == old(topology.totalEdges)
      ensures old(topology.GraphInvariant()) ==> topology.GraphInvariant()
    {
      if id !in topology.nodes {
        return;
      }
      var t0 := topology.nodes;
      var sorted := IdentityCandidates(t0, topology.nodeOrder, id, topology.sqrt);
      assert forall x :: x in sorted ==> x in t0 by {
        forall x | x in sorted ensures x in t0 {
          assert IsIdentityPeer(t0, id)(x);
        }
      }
      BridgeFirstTwo(id, sorted, CloseTo(t0, t0[id].position, topology.sqrt));
    }

    /**
     * The loop of `_create_identity_bridges` over the sorted candidates: bridges
     * each one that passes close, and stops after the second bridge.
     */
    method BridgeFirstTwo(id: NodeId, sorted: seq<NodeId>, ghost close: NodeId -> bool)
      requires Valid() && id in topology.nodes && forall x :: x in sorted ==> x in topology.nodes
      requires close == CloseTo(topology.nodes, topology.nodes[id].position, topology.sqrt)
      modifies topology
      ensures Valid()
      ensures var r := Sorting.Take(Filter(sorted, close), 2);
        Now() == old(Now()).(nodes := BridgeAll(old(topology.nodes), id, r),
                             wormholes := WormholesAfter(old(topology.wormholes), id, r))
      ensures old(topology.GraphInvariant()) ==> topology.GraphInvariant()
    {
      var t0 := topology.nodes;
      ghost var start := Now();
      var i, added := BridgeLoop(id, sorted, close, t0, start);
      ghost var chosen := ChosenUpTo(sorted, close, i);
      ChosenTake(sorted, close, i);
      BridgeAllGraph(t0, id, chosen, start.totalEdges);
    }

    /** The loop of `_create_identity_bridges`, up to the candidate it stops at. */
    method BridgeLoop(id: NodeId, sorted: seq<NodeId>, ghost close: NodeId -> bool, t0: NodeTable, ghost start: Snapshot)
      returns (i: nat, added: nat)
      requires BridgeSetup(id, sorted, close, start) && BridgedUpTo(id, sorted, close, 0, 0, start) && t0 == start.nodes
      modifies topology
      ensures BridgedUpTo(id, sorted, close, i, added, start)
      ensures i == |sorted| || added == 2
    {
      added := 0;
      i := 0;
      while i < |sorted| && added < 2
        invariant BridgedUpTo(id, sorted, close, i, added, start)
      {
        added := BridgeNext(id, sorted, close, i, added, t0, start);
        i := i + 1;
      }
    }

    /** The fields of the space the identity bridge loop reads or changes. */
    ghost function Now(): Snapshot
      reads this, topology
    {
      Snapshot(topology.nodes, topology.wormholes, topology.nodeOrder, topology.constellations,
               topology.constellationOrder, topology.totalMass, topology.totalEdges)
    }

    /** What the identity bridge loop starts from: the node, its candidates, and the distance test. */
    ghost predicate BridgeSetup(id: NodeId, sorted: seq<NodeId>, close: NodeId -> bool, start: Snapshot)
    {
      && id in start.nodes && (forall x :: x in sorted ==> x in start.nodes)
      && close == CloseTo(start.nodes, start.nodes[id].position, topology.sqrt)
    }

    /**
     * The identity bridge loop after i candidates, `added` of them bridged: the
     * space is the start with those bridges made, and nothing else changed.
     */
    ghost predicate BridgedUpTo(id: NodeId, sorted: seq<NodeId>, close: NodeId -> bool, i: nat, added: nat, start: Snapshot)
      requires BridgeSetup(id, sorted, close, start)
      reads this, topology
    {
      && i <= |sorted| && topology.Valid()
      && added == |ChosenUpTo(sorted, close, i)| <= 2
      && Now() == start.(nodes := BridgeAll(start.nodes, id, ChosenUpTo(sorted, close, i)),
                         wormholes := WormholesAfter(start.wormholes, id, ChosenUpTo(sorted, close, i)))
    }

    /** One turn of the identity bridge loop. */
    method BridgeNext(id: NodeId, sorted: seq<NodeId>, ghost close: NodeId -> bool, i: nat, added: nat,
                      t0: NodeTable, ghost start: Snapshot)
      returns (added': nat)
      requires BridgeSetup(id, sorted, close, start) && t0 == start.nodes
      requires i < |sorted| && added < 2 && BridgedUpTo(id, sorted, close, i, added, start)
      modifies topology
      ensures BridgedUpTo(id, sorted, close, i + 1, added', start)
    {
      ghost var c := ChosenUpTo(sorted, close, i);
      assert sorted[i] in sorted;
      var bridged := BridgeOne(id, sorted[i], t0, c, start.wormholes);
      ChosenUpToStep(sorted, close, i);
      added' := if bridged then added + 1 else added;
    }

    /** One candidate of `_create_identity_bridges`: bridged when within the distance cap. */
    method BridgeOne(id: NodeId, x: NodeId, t0: NodeTable, ghost c: seq<NodeId>, ghost w0: map<string, (NodeId, NodeId)>)
      returns (bridged: bool)
      requires topology.Valid() && id in t0 && x in t0 && (forall b :: b in c ==> b in t0)
      requires topology.nodes == BridgeAll(t0, id, c) && topology.wormholes == WormholesAfter(w0, id, c)
      modifies topology
      ensures topology.Valid()
      ensures bridged == WithinCap(Distance(t0[id].position, t0[x].position, topology.sqrt))
      ensures var c' := if bridged then c + [x] else c;
        topology.nodes == BridgeAll(t0, id, c') && topology.wormholes == WormholesAfter(w0, id, c')
      ensures topology.nodeOrder == old(topology.nodeOrder) && topology.constellations == old(topology.constellations)
      ensures topology.constellationOrder == old(topology.constellationOrder)
      ensures topology.totalMass == old(topology.totalMass) && topology.totalEdges == old(topology.totalEdges)
    {
      bridged := WithinCap(Distance(t0[id].position, t0[x].position, topology.sqrt));
      if bridged {
        assert (c + [x])[..|c|] == c;
        topology.CreateScarBridge(id, x);
      }
    }

    /** `calculate_cascade_risk`: a read-only scan over the nodes for paradoxes. */
    method CascadeRisk(id: NodeId) returns (risk: real)
      requires Valid()
      ensures risk == CascadeRiskOf(topology.nodes, topology.nodeOrder, topology.constellations, id, topology.sqrt)
      ensures risk <= 1.0
      ensures id !in topology.nodes ==> risk == 0.0
    {
      CascadeRiskRules(topology.nodes, topology.nodeOrder, topology.constellations, id, topology.sqrt);
      if id !in topology.nodes {
        return 0.0;
      }
      var t := topology.nodes;
      var order := topology.nodeOrder;
      var start := t[id];
      var amplification := 0.0;
      var i := 0;
      while i < |order|
        invariant 0 <= i <= |order|
        invariant amplification == Amplification(t, order[..i], start.position, topology.sqrt)
      {
        amplification := amplification + ParadoxPull(t, order[i], start.position, topology.sqrt);
        assert order[..i + 1][..i] == order[..i];
        i := i + 1;
      }
      assert order[..i] == order;
      risk := Min(BaseRisk(start, topology.constellations) + amplification, 1.0);
    }

    /** `navigate_thought`: a path that may use scar bridges. */
    method NavigateThought(from: NodeId, to: NodeId) returns (r: Option<seq<Token>>)
      requires Valid()
      ensures from !in topology.nodes || to !in topology.nodes ==> r == None
      ensures r.Some? ==> IsPathBetween(topology.nodes, r.value, from, to, true)
      ensures (exists p :: IsPathBetween(topology.nodes, p, from, to, true)) ==> r.Some?
    {
      r := topology.FindPath(from, to, true);
    }
  }
}
