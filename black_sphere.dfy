/**
 * The Black Sphere (src/suspension/black_sphere.py): perpetual orbit for
 * irreducible paradoxes.  A full sphere refuses new paradoxes instead of
 * evicting old ones; entries are grouped into paradox families and exert a
 * gravitational influence that falls off with symbolic distance.
 *
 * `math.log` is the parameter `ln`; only the cap on the family resonance is
 * stated, which holds for any logarithm.
 */
module BlackSpheres {
  import opened Wrappers
  import opened SuspensionBase
  import Strings

  /** How far a paradox's influence extends. */
  const GravitationalRange: real := 0.3

  /** The entry `suspend` creates: a perfect orbit, its family, and influence 0.3 of its pressure. */
  function ParadoxEntry(id: EntryId, content: string, source: string, pressure: real, reason: string,
                        paradoxType: string, now: int): (e: Entry)
    ensures e.id == id && e.suspensionType == Sphere && e.timestamp == now
    ensures e.orbitStability == 1.0 && e.paradoxFamily == Some(paradoxType)
    ensures e.gravitationalInfluence == pressure * 0.3
  {
    NewEntry(id, content, source, Sphere, pressure, now, reason)
      .(paradoxFamily := Some(paradoxType), gravitationalInfluence := pressure * 0.3)
  }

  /** What `retrieve` does to an orbit: counts the observation, which costs 1% stability. */
  function Observed(e: Entry, now: int): (o: Entry)
    ensures o.id == e.id && o.accessCount == e.accessCount + 1 && o.lastAccessed == Some(now)
    ensures o.orbitStability == e.orbitStability * 0.99
    ensures e.orbitStability > 0.0 ==> o.orbitStability < e.orbitStability
  {
    e.(accessCount := e.accessCount + 1, lastAccessed := Some(now), orbitStability := e.orbitStability * 0.99)
  }

  // ---------------------------------------------------------------- orbits

  predicate Wobbly(e: Entry)
  {
    e.orbitStability < 0.8
  }

  /** `stabilize_orbits` on one entry: a wobbly orbit gains 10%, up to 1.0. */
  function Stabilized(e: Entry): (s: Entry)
    ensures s.id == e.id
    ensures !Wobbly(e) ==> s == e
    ensures Wobbly(e) ==> s.orbitStability == Min(e.orbitStability * 1.1, 1.0)
  {
    if Wobbly(e) then e.(orbitStability := Min(e.orbitStability * 1.1, 1.0)) else e
  }

  /** A raised orbit ends no lower than it was and no higher than 1.0. */
  lemma StabilizedBounds(e: Entry)
    requires 0.0 <= e.orbitStability
    ensures e.orbitStability <= Stabilized(e).orbitStability <= Max(e.orbitStability, 1.0)
  {
  }

  function StabilizeAll(es: seq<Entry>): (r: seq<Entry>)
    ensures |r| == |es| && forall k :: 0 <= k < |es| ==> r[k] == Stabilized(es[k])
  {
    seq(|es|, k requires 0 <= k < |es| => Stabilized(es[k]))
  }

  // ---------------------------------------------------------------- stability

  function GravitySum(es: seq<Entry>): real
  {
    if es == [] then 0.0 else GravitySum(es[..|es| - 1]) + es[|es| - 1].gravitationalInfluence
  }

  /** The ids of the orbits below 0.5, in table order. */
  function UnstableOrbits(es: seq<Entry>): (r: seq<EntryId>)
    ensures |r| <= |es|
    ensures forall id :: id in r <==> exists k :: 0 <= k < |es| && es[k].id == id && es[k].orbitStability < 0.5
  {
    if es == [] then []
    else
      var init := es[..|es| - 1];
      assert forall k :: 0 <= k < |init| ==> init[k] == es[k];
      UnstableOrbits(init) + (if es[|es| - 1].orbitStability < 0.5 then [es[|es| - 1].id] else [])
  }

  /** How many entries each named family holds; entries with no or an empty family name are not counted. */
  function FamilyCounts(es: seq<Entry>): map<string, nat>
  {
    if es == [] then map[]
    else
      var counts := FamilyCounts(es[..|es| - 1]);
      match es[|es| - 1].paradoxFamily
      case Some(f) =>
        if f != "" then counts[f := (if f in counts then counts[f] else 0) + 1] else counts
      case None => counts
  }

  datatype Warning = NearCapacity | StrongField | UnstableOrbitsWarning

  /** A stability report: the family counts, the summed field, the unstable orbits and the warning. */
  datatype Report = Report(stable: bool, load: real, families: map<string, nat>, gravitationalField: real,
                           unstableOrbits: seq<EntryId>, warning: Option<Warning>)

  /** The warning for a non-empty sphere: the first limit it breaks, and one whenever it is unstable. */
  function WarningFor(load: real, gravity: real, unstable: nat): (w: Option<Warning>)
    ensures w.None? <==> load < 80.0 && gravity < 10.0 && unstable < 3
    ensures w == Some(NearCapacity) <==> load >= 80.0
    ensures w == Some(StrongField) <==> load < 80.0 && gravity >= 10.0
  {
    if load < 80.0 && gravity < 10.0 && unstable < 3 then None
    else if load >= 80.0 then Some(NearCapacity)
    else if gravity >= 10.0 then Some(StrongField)
    else Some(UnstableOrbitsWarning)
  }

  // ---------------------------------------------------------------- influence and resonance

  /** Summed influence at a distance: each paradox's influence over 1 + d^2, inside the range only. */
  function InfluenceSum(es: seq<Entry>, distance: real): real
  {
    if es == [] then 0.0
    else
      InfluenceSum(es[..|es| - 1], distance) +
        (if distance < GravitationalRange then es[|es| - 1].gravitationalInfluence / (1.0 + distance * distance) else 0.0)
  }

  lemma {:induction false} InfluenceOutOfRange(es: seq<Entry>, distance: real)
    requires distance >= GravitationalRange
    ensures InfluenceSum(es, distance) == 0.0
  {
    if es != [] {
      InfluenceOutOfRange(es[..|es| - 1], distance);
    }
  }

  /** The summed influence of the stored members of a family. */
  function MemberInfluence(es: seq<Entry>, members: set<EntryId>): real
  {
    if es == [] then 0.0
    else MemberInfluence(es[1..], members) + (if es[0].id in members then es[0].gravitationalInfluence else 0.0)
  }

  /** The words of a text, after lowercasing: `set(text.lower().split())`. */
  function WordSet(text: string): set<string>
  {
    Strings.Words(Strings.Lower(text), 0)
  }

  /** The share of the query's words a paradox's content also holds. */
  function Overlap(query: set<string>, content: string): (r: real)
    ensures 0.0 <= r <= 1.0
  {
    var shared := query * WordSet(content);
    assert shared <= query;
    SubsetCard(shared, query);
    ShareBounds(|shared| as real, Max(|query| as real, 1.0));
    (|shared| as real) / Max(|query| as real, 1.0)
  }

  lemma ShareBounds(part: real, whole: real)
    requires 0.0 <= part <= whole && whole > 0.0
    ensures 0.0 <= part / whole <= 1.0
  {
    assert part / whole * whole == part;
  }

  lemma SubsetCard<T>(a: set<T>, b: set<T>)
    requires a <= b
    ensures |a| <= |b|
  {
    assert b == a + (b - a);
  }

  class BlackSphere {
    const system: SuspensionSystem
    /** Each family's member ids. */
    var paradoxFamilies: map<string, set<EntryId>>

    /** The sphere never holds more paradoxes than its capacity. */
    ghost predicate Valid()
      reads this, system
    {
      system.Valid() && system.suspensionType == Sphere && |system.entries| <= system.capacity
    }

    /** A new sphere; nothing is loaded from disk. */
    constructor (capacity: nat)
      // A capacity of 0 would make `get_load_percentage` divide by zero; every caller passes a positive one.
      requires capacity > 0
      ensures Valid() && fresh(system)
      ensures system.entries == [] && system.capacity == capacity && paradoxFamilies == map[]
      ensures system.totalSuspended == 0 && system.lastPurge == None
    {
      system := new SuspensionSystem(capacity, Sphere);
      paradoxFamilies := map[];
    }

    /**
     * `suspend`: a full sphere refuses (the source raises) and nothing changes;
     * otherwise the paradox, named "BS-" and the clock reading, joins its family
     * and the table.
     */
    method Suspend(content: string, source: string, pressure: real, reason: string, paradoxType: string,
                   now: int, stamp: string) returns (r: Option<Entry>)
      requires Valid()
      modifies this, system
      ensures Valid()
      ensures old(system.IsAtCapacity()) <==> r.None?
      ensures system.lastPurge == old(system.lastPurge)
      ensures r.None? ==>
        system.entries == old(system.entries) && paradoxFamilies == old(paradoxFamilies)
        && system.totalSuspended == old(system.totalSuspended)
      ensures r.Some? ==>
        && r.value == ParadoxEntry("BS-" + stamp, content, source, pressure, reason, paradoxType, now)
        && system.entries == Put(old(system.entries), r.value)
        && paradoxFamilies == old(paradoxFamilies)[paradoxType :=
             (if paradoxType in old(paradoxFamilies) then old(paradoxFamilies)[paradoxType] else {}) + {r.value.id}]
        && system.totalSuspended == old(system.totalSuspended) + 1
    {
      if system.IsAtCapacity() {
        return None;
      }
      var e := ParadoxEntry("BS-" + stamp, content, source, pressure, reason, paradoxType, now);
      var members := if paradoxType in paradoxFamilies then paradoxFamilies[paradoxType] else {};
      paradoxFamilies := paradoxFamilies[paradoxType := members + {e.id}];
      PutFacts(system.entries, e);
      system.Store(e);
      r := Some(e);
    }

    /** `retrieve`: an unknown id gives nothing; a known orbit is observed in place and returned. */
    method Retrieve(id: EntryId, now: int) returns (r: Option<Entry>)
      requires Valid()
      modifies system
      ensures Valid()
      ensures Find(old(system.entries), id).None? ==> r.None? && system.entries == old(system.entries)
      ensures Find(old(system.entries), id).Some? ==>
        var k := Find(old(system.entries), id).value;
        r == Some(Observed(old(system.entries)[k], now)) && system.entries == old(system.entries)[k := r.value]
      ensures |system.entries| == |old(system.entries)|
    {
      match Find(system.entries, id)
      case None =>
        return None;
      case Some(k) =>
        var o := Observed(system.entries[k], now);
        system.Update(k, o);
        return Some(o);
    }

    /**
     * `check_stability`: an empty sphere is stable; otherwise it is stable when
     * its load is under 80%, its summed influence under 10 and fewer than three
     * orbits are below 0.5, and it carries a warning exactly when it is not.
     */
    method CheckStability() returns (r: Report)
      requires Valid()
      ensures system.entries == [] ==>
        r.stable && r.load == 0.0 && r.families == map[] && r.gravitationalField == 0.0 && r.unstableOrbits == []
      ensures system.entries != [] ==>
        && r.gravitationalField == GravitySum(system.entries)
        && r.unstableOrbits == UnstableOrbits(system.entries)
        && r.families == FamilyCounts(system.entries)
        && r.load == system.LoadPercentage()
        && (r.stable <==> r.load < 80.0 && r.gravitationalField < 10.0 && |r.unstableOrbits| < 3)
        && r.warning == WarningFor(r.load, r.gravitationalField, |r.unstableOrbits|)
      ensures r.stable <==> r.warning.None?
    {
      var es := system.entries;
      if es == [] {
        return Report(true, 0.0, map[], 0.0, [], None);
      }
      var gravity := 0.0;
      var unstable := [];
      var families := map[];
      var i := 0;
      while i < |es|
        invariant 0 <= i <= |es|
        invariant gravity == GravitySum(es[..i]) && unstable == UnstableOrbits(es[..i])
        invariant families == FamilyCounts(es[..i])
      {
        var e := es[i];
        assert es[..i + 1][..i] == es[..i] && es[..i + 1][i] == e;
        gravity := gravity + e.gravitationalInfluence;
        if e.orbitStability < 0.5 {
          unstable := unstable + [e.id];
        }
        match e.paradoxFamily {
          case Some(f) =>
            if f != "" {
              families := families[f := (if f in families then families[f] else 0) + 1];
            }
          case None =>
        }
        i := i + 1;
      }
      assert es[..i] == es;
      var load := system.LoadPercentage();
      var stable := load < 80.0 && gravity < 10.0 && |unstable| < 3;
      r := Report(stable, load, families, gravity, unstable, WarningFor(load, gravity, |unstable|));
    }

    /**
     * `calculate_gravitational_influence(distance)`: nothing for an empty
     * sphere or beyond the range, and never more than 1.0.
     */
    method GravitationalInfluence(distance: real) returns (r: real)
      requires Valid()
      ensures r <= 1.0
      ensures system.entries == [] || distance >= GravitationalRange ==> r == 0.0
      ensures system.entries != [] ==> r == Min(InfluenceSum(system.entries, distance), 1.0)
    {
      var es := system.entries;
      if es == [] {
        return 0.0;
      }
      var total := 0.0;
      var i := 0;
      while i < |es|
        invariant 0 <= i <= |es| && total == InfluenceSum(es[..i], distance)
      {
        assert es[..i + 1][..i] == es[..i] && es[..i + 1][i] == es[i];
        if distance < GravitationalRange {
          total := total + es[i].gravitationalInfluence / (1.0 + distance * distance);
        }
        i := i + 1;
      }
      assert es[..i] == es;
      if distance >= GravitationalRange {
        InfluenceOutOfRange(es, distance);
      }
      r := Min(total, 1.0);
    }

    /**
     * `get_nearby_paradoxes(content, threshold)`: the ids, in table order, of
     * the paradoxes sharing more than `threshold` of the query's words.  As the
     * share is at most 1, a threshold of 1 or more finds nothing.
     */
    function NearbyParadoxes(content: string, threshold: real): (r: seq<EntryId>)
      reads this, system
      ensures forall id :: id in r <==>
        exists k :: 0 <= k < |system.entries| && system.entries[k].id == id
                    && Overlap(WordSet(content), system.entries[k].content) > threshold
      ensures threshold >= 1.0 ==> r == []
    {
      var query := WordSet(content);
      var near := Filter(system.entries, (e: Entry) => Overlap(query, e.content) > threshold);
      assert forall id :: id in Ids(near) <==> exists k :: 0 <= k < |near| && near[k].id == id;
      Ids(near)
    }

    /** `stabilize_orbits`: raises every wobbly orbit in place and returns how many. */
    method StabilizeOrbits() returns (count: nat)
      requires Valid()
      modifies system
      ensures Valid()
      ensures system.entries == StabilizeAll(old(system.entries))
      ensures count == |Filter(old(system.entries), Wobbly)|
    {
      var es := system.entries;
      count := 0;
      var i := 0;
      while i < |es|
        invariant 0 <= i <= |es| && count == |Filter(es[..i], Wobbly)|
        invariant system.entries == es
      {
        FilterAppend(es[..i], es[i], Wobbly);
        assert es[..i + 1] == es[..i] + [es[i]];
        if Wobbly(es[i]) {
          count := count + 1;
        }
        i := i + 1;
      }
      assert es[..i] == es;
      assert Ids(StabilizeAll(es)) == Ids(es);
      system.entries := StabilizeAll(es);
    }

    /**
     * `calculate_family_resonance(family)`: nothing for an unknown or empty
     * family; otherwise the members' summed influence with a logarithmic
     * family bonus, capped at 1.0.
     */
    function FamilyResonance(family: string, ln: real -> real): (r: real)
      reads this, system
      ensures family !in paradoxFamilies || paradoxFamilies[family] == {} ==> r == 0.0
      ensures r <= 1.0
    {
      if family !in paradoxFamilies || paradoxFamilies[family] == {} then 0.0
      else
        var members := paradoxFamilies[family];
        var bonus := ln(|members| as real + 1.0) * 0.2;
        Min(MemberInfluence(system.entries, members) * (1.0 + bonus), 1.0)
    }
  }
}
