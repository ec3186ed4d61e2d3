/**
 * The Cold Suspension Archive (src/suspension/csa.py): quarantine for content
 * whose pressure is dangerous.  Entries get a quarantine level from their
 * pressure, a decay score, and a dormancy count that ages them out.
 */
module ColdSuspension {
  import opened Wrappers
  import opened SuspensionBase

  const VolatileThreshold: real := 0.75
  const ToxicThreshold: real := 0.85
  const CascadeThreshold: real := 0.95
  /** Dormancy cycles after which an entry expires. */
  const MaxDormancy: int := 100
  /** How many entries a full archive keeps when it purges before a new one. */
  const KeepOnOverflow: int := 30

  /** `_determine_quarantine_level`: the highest threshold the pressure reaches. */
  function LevelFor(pressure: real): (q: QuarantineLevel)
    ensures q == Cascade <==> pressure >= CascadeThreshold
    ensures Rank(q) >= Rank(Toxic) <==> pressure >= ToxicThreshold
    ensures Rank(q) >= Rank(Volatile) <==> pressure >= VolatileThreshold
  {
    if pressure >= CascadeThreshold then Cascade
    else if pressure >= ToxicThreshold then Toxic
    else if pressure >= VolatileThreshold then Volatile
    else Low
  }

  /** More pressure never gives a lower quarantine level. */
  lemma LevelMonotone(p: real, q: real)
    requires p <= q
    ensures Rank(LevelFor(p)) <= Rank(LevelFor(q))
  {
  }

  /** The entry `suspend` creates: its level from the pressure, a decay score of pressure * 100. */
  function QuarantineEntry(id: EntryId, content: string, source: string, pressure: real,
                           reason: string, now: int): (e: Entry)
    ensures e.id == id && e.suspensionType == ColdSuspension && e.timestamp == now
    ensures e.quarantineLevel == Some(LevelFor(pressure))
    ensures e.decayScore == pressure * 100.0 && e.dormancyCycles == 0
  {
    NewEntry(id, content, source, ColdSuspension, pressure, now, reason)
      .(quarantineLevel := Some(LevelFor(pressure)), decayScore := pressure * 100.0)
  }

  /** What `retrieve` does to an entry: counts the access, wakes it, flags it while volatile. */
  function Touched(e: Entry, now: int): (t: Entry)
    ensures t.id == e.id && t.accessCount == e.accessCount + 1 && t.lastAccessed == Some(now)
    ensures t.dormancyCycles == 0 && t.decayScore == e.decayScore
    ensures t.warning <==> e.warning || e.decayScore > 50.0
  {
    e.(accessCount := e.accessCount + 1, lastAccessed := Some(now), dormancyCycles := 0,
       warning := e.warning || e.decayScore > 50.0)
  }

  // ---------------------------------------------------------------- dormancy

  /** One dormancy cycle: one more cycle, and 5% less decay once past ten. */
  function Aged(e: Entry): (a: Entry)
    ensures a.id == e.id && a.dormancyCycles == e.dormancyCycles + 1
    ensures a.decayScore == if e.dormancyCycles + 1 > 10 then e.decayScore * 0.95 else e.decayScore
  {
    var d := e.dormancyCycles + 1;
    e.(dormancyCycles := d, decayScore := if d > 10 then e.decayScore * 0.95 else e.decayScore)
  }

  function AgeAll(es: seq<Entry>): (r: seq<Entry>)
    ensures |r| == |es| && forall k :: 0 <= k < |es| ==> r[k] == Aged(es[k])
  {
    seq(|es|, k requires 0 <= k < |es| => Aged(es[k]))
  }

  predicate Expired(e: Entry)
  {
    e.dormancyCycles > MaxDormancy
  }

  lemma AgeAllUnique(es: seq<Entry>)
    requires UniqueIds(es)
    ensures UniqueIds(AgeAll(es))
  {
    assert Ids(AgeAll(es)) == Ids(es);
  }

  /**
   * One `update_dormancy` cycle keeps exactly the aged entries that have not
   * passed MaxDormancy, and reports the rest.
   */
  lemma DormancySpec(es: seq<Entry>)
    requires UniqueIds(es)
    ensures UniqueIds(Drop(AgeAll(es), IdSet(Filter(AgeAll(es), Expired))))
    ensures forall x :: x in Drop(AgeAll(es), IdSet(Filter(AgeAll(es), Expired))) <==>
      x in AgeAll(es) && x.dormancyCycles <= MaxDormancy
    ensures forall x :: x in Filter(AgeAll(es), Expired) ==> x in AgeAll(es) && x.dormancyCycles > MaxDormancy
  {
    AgeAllUnique(es);
    DropMatching(AgeAll(es), Expired);
  }

  // ---------------------------------------------------------------- stability

  /** How many entries hold level q; entries without a level are not counted. */
  function CountLevel(es: seq<Entry>, q: QuarantineLevel): (n: nat)
    ensures n <= |es|
  {
    if es == [] then 0
    else CountLevel(es[..|es| - 1], q) + (if es[|es| - 1].quarantineLevel == Some(q) then 1 else 0)
  }

  function DecaySum(es: seq<Entry>): real
  {
    if es == [] then 0.0 else DecaySum(es[..|es| - 1]) + es[|es| - 1].decayScore
  }

  datatype Threat = CascadeRisk(id: EntryId) | ToxicContent(id: EntryId)

  /** The threats `check_stability` lists, in table order. */
  function Threats(es: seq<Entry>): (r: seq<Threat>)
    ensures |r| == CountLevel(es, Cascade) + CountLevel(es, Toxic)
  {
    if es == [] then []
    else
      var e := es[|es| - 1];
      Threats(es[..|es| - 1]) +
        (if e.quarantineLevel == Some(Cascade) then [CascadeRisk(e.id)]
         else if e.quarantineLevel == Some(Toxic) then [ToxicContent(e.id)]
         else [])
  }

  datatype Advice = SystemClear | SystemStable | PurgeRecommended | CascadeWarning | HighToxicity

  /**
   * The recommendation for a non-empty archive.  It stays "System stable" for
   * an unstable archive that is unstable only through toxic entries, or whose
   * load or average decay sits exactly on its bound.
   */
  function AdviceFor(stable: bool, load: real, cascades: nat, averageDecay: real): (a: Advice)
    ensures a == SystemStable <==> stable || (load <= 80.0 && cascades < 3 && averageDecay <= 70.0)
    ensures a == PurgeRecommended <==> !stable && load > 80.0
    ensures a == CascadeWarning <==> !stable && load <= 80.0 && cascades >= 3
    ensures a == HighToxicity <==> !stable && load <= 80.0 && cascades < 3 && averageDecay > 70.0
  {
    if stable then SystemStable
    else if load > 80.0 then PurgeRecommended
    else if cascades >= 3 then CascadeWarning
    else if averageDecay > 70.0 then HighToxicity
    else SystemStable
  }

  /** A stability report: the level counts, the average decay, the threats and the advice. */
  datatype Report = Report(
    stable: bool, load: real,
    low: nat, volatile: nat, toxic: nat, cascade: nat,
    averageDecay: real, threats: seq<Threat>, advice: Advice)

  /** The counting loop of `check_stability`: per-level counts, the decay total and the threats. */
  method Tally(es: seq<Entry>) returns (low: nat, volatile: nat, toxic: nat, cascade: nat, total: real, threats: seq<Threat>)
    ensures low == CountLevel(es, Low) && volatile == CountLevel(es, Volatile)
    ensures toxic == CountLevel(es, Toxic) && cascade == CountLevel(es, Cascade)
    ensures total == DecaySum(es) && threats == Threats(es)
  {
    low, volatile, toxic, cascade := 0, 0, 0, 0;
    total := 0.0;
    threats := [];
    var i := 0;
    while i < |es|
      invariant 0 <= i <= |es|
      invariant low == CountLevel(es[..i], Low) && volatile == CountLevel(es[..i], Volatile)
      invariant toxic == CountLevel(es[..i], Toxic) && cascade == CountLevel(es[..i], Cascade)
      invariant total == DecaySum(es[..i]) && threats == Threats(es[..i])
    {
      var e := es[i];
      assert es[..i + 1][..i] == es[..i] && es[..i + 1][i] == e;
      match e.quarantineLevel {
        case None =>
        case Some(q) =>
          match q {
            case Low => low := low + 1;
            case Volatile => volatile := volatile + 1;
            case Toxic => toxic := toxic + 1;
            case Cascade => cascade := cascade + 1;
          }
      }
      total := total + e.decayScore;
      if e.quarantineLevel == Some(Cascade) {
        threats := threats + [CascadeRisk(e.id)];
      } else if e.quarantineLevel == Some(Toxic) {
        threats := threats + [ToxicContent(e.id)];
      }
      i := i + 1;
    }
    assert es[..i] == es;
  }

  // ---------------------------------------------------------------- the archive

  class CSA {
    const system: SuspensionSystem

    ghost predicate Valid()
      reads this, system
    {
      system.Valid() && system.suspensionType == ColdSuspension
    }

    /** A new archive; nothing is loaded from disk. */
    constructor (capacity: nat)
      // A capacity of 0 would make `get_load_percentage` divide by zero; every caller passes a positive one.
      requires capacity > 0
      ensures Valid() && fresh(system)
      ensures system.entries == [] && system.capacity == capacity
      ensures system.totalSuspended == 0 && system.lastPurge == None
    {
      system := new SuspensionSystem(capacity, ColdSuspension);
    }

    /**
     * `suspend`: a full archive first purges down to its 30 newest entries; the
     * new entry, named "CSA-" and the clock reading, is then stored.  So a full
     * archive holds at most 31 entries afterwards, and one with room grows by at
     * most one without passing its capacity.
     */
    method Suspend(content: string, source: string, pressure: real, reason: string, now: int, stamp: string)
      returns (e: Entry)
      requires Valid()
      modifies system
      ensures Valid()
      ensures e == QuarantineEntry("CSA-" + stamp, content, source, pressure, reason, now)
      ensures system.entries ==
        Put(if old(system.IsAtCapacity()) then AfterPurge(old(system.entries), KeepOnOverflow) else old(system.entries), e)
      ensures old(system.IsAtCapacity()) ==> |system.entries| <= KeepOnOverflow + 1
      ensures !old(system.IsAtCapacity()) ==> |system.entries| <= system.capacity
      ensures system.totalSuspended == old(system.totalSuspended) + 1
      ensures system.lastPurge ==
        if old(system.IsAtCapacity()) && |old(system.entries)| > KeepOnOverflow then Some(now) else old(system.lastPurge)
    {
      if system.IsAtCapacity() {
        if |system.entries| > KeepOnOverflow {
          PurgeCount(system.entries, KeepOnOverflow);
        }
        var _ := system.PurgeOldEntries(KeepOnOverflow, now);
      }
      e := QuarantineEntry("CSA-" + stamp, content, source, pressure, reason, now);
      PutFacts(system.entries, e);
      system.Store(e);
    }

    /** `retrieve`: an unknown id gives nothing; a known entry is touched in place and returned. */
    method Retrieve(id: EntryId, now: int) returns (r: Option<Entry>)
      requires Valid()
      modifies system
      ensures Valid()
      ensures Find(old(system.entries), id).None? ==> r.None? && system.entries == old(system.entries)
      ensures Find(old(system.entries), id).Some? ==>
        var k := Find(old(system.entries), id).value;
        r == Some(Touched(old(system.entries)[k], now)) && system.entries == old(system.entries)[k := r.value]
      ensures system.totalSuspended == old(system.totalSuspended)
    {
      match Find(system.entries, id)
      case None =>
        return None;
      case Some(k) =>
        var t := Touched(system.entries[k], now);
        system.Update(k, t);
        return Some(t);
    }

    /**
     * `check_stability`: an empty archive is stable and clear; otherwise it is
     * stable when it holds fewer than 3 cascade and 5 toxic entries, its average
     * decay is under 70 and its load under 80%.
     */
    method CheckStability() returns (r: Report)
      requires Valid()
      ensures system.entries == [] ==>
        r.stable && r.advice == SystemClear && r.threats == [] && r.load == 0.0
      ensures system.entries != [] ==>
        && r.low == CountLevel(system.entries, Low) && r.volatile == CountLevel(system.entries, Volatile)
        && r.toxic == CountLevel(system.entries, Toxic) && r.cascade == CountLevel(system.entries, Cascade)
        && r.averageDecay == DecaySum(system.entries) / |system.entries| as real
        && r.load == system.LoadPercentage()
        && (r.stable <==> r.cascade < 3 && r.toxic < 5 && r.averageDecay < 70.0 && r.load < 80.0)
        && r.threats == Threats(system.entries)
        && r.advice == AdviceFor(r.stable, r.load, r.cascade, r.averageDecay)
    {
      var es := system.entries;
      if es == [] {
        return Report(true, 0.0, 0, 0, 0, 0, 0.0, [], SystemClear);
      }
      var low, volatile, toxic, cascade, total, threats := Tally(es);
      var average := total / |es| as real;
      var load := system.LoadPercentage();
      var stable := cascade < 3 && toxic < 5 && average < 70.0 && load < 80.0;
      var advice := SystemStable;
      if !stable {
        if load > 80.0 {
          advice := PurgeRecommended;
        } else if cascade >= 3 {
          advice := CascadeWarning;
        } else if average > 70.0 {
          advice := HighToxicity;
        }
      }
      r := Report(stable, load, low, volatile, toxic, cascade, average, threats, advice);
    }

    /**
     * `update_dormancy`: ages every entry by one cycle in place, then deletes and
     * returns the entries past MaxDormancy (see DormancySpec).
     */
    method UpdateDormancy() returns (expired: seq<EntryId>)
      requires Valid()
      modifies system
      ensures Valid()
      ensures expired == Ids(Filter(AgeAll(old(system.entries)), Expired))
      ensures system.entries == Drop(AgeAll(old(system.entries)), IdSet(Filter(AgeAll(old(system.entries)), Expired)))
      ensures system.totalSuspended == old(system.totalSuspended)
    {
      var gone := AgeEntries();
      system.DeleteEach(gone);
      expired := Ids(gone);
    }

    /** The first loop of `update_dormancy`: every entry aged, and the expired ones collected. */
    method AgeEntries() returns (gone: seq<Entry>)
      requires Valid()
      modifies system
      ensures Valid()
      ensures system.entries == AgeAll(old(system.entries))
      ensures gone == Filter(AgeAll(old(system.entries)), Expired)
      ensures system.totalSuspended == old(system.totalSuspended) && system.lastPurge == old(system.lastPurge)
    {
      var es := system.entries;
      var aged := AgeAll(es);
      gone := [];
      var i := 0;
      while i < |es|
        invariant 0 <= i <= |es|
        invariant gone == Filter(aged[..i], Expired)
        invariant system.entries == es
        invariant system.totalSuspended == old(system.totalSuspended) && system.lastPurge == old(system.lastPurge)
      {
        var a := aged[i];
        assert aged[..i + 1] == aged[..i] + [a];
        FilterAppend(aged[..i], a, Expired);
        if Expired(a) {
          gone := gone + [a];
        }
        i := i + 1;
      }
      assert aged[..i] == aged;
      AgeAllUnique(es);
      system.entries := aged;
    }

    /**
     * `emergency_purge`: without confirmation nothing happens; with it every
     * cascade-level entry is deleted and the count returned.
     */
    method EmergencyPurge(confirm: bool) returns (purged: nat)
      requires Valid()
      modifies system
      ensures Valid()
      ensures !confirm ==> purged == 0 && system.entries == old(system.entries)
      ensures confirm ==> forall x :: x in system.entries <==> x in old(system.entries) && !IsCascade(x)
      ensures confirm ==> system.entries == Filter(old(system.entries), Survives)
      ensures confirm ==> purged == |old(system.entries)| - |system.entries|
      ensures system.totalSuspended == old(system.totalSuspended)
    {
      if !confirm {
        return 0;
      }
      var doomed := Filter(system.entries, IsCascade);
      DropMatching(system.entries, IsCascade);
      DropMatchingOrder(system.entries, IsCascade, Survives);
      system.DeleteEach(doomed);
      purged := |doomed|;
    }
  }

  predicate IsCascade(e: Entry)
  {
    e.quarantineLevel == Some(Cascade)
  }

  /** An entry an emergency purge keeps. */
  predicate Survives(e: Entry)
  {
    !IsCascade(e)
  }
}
