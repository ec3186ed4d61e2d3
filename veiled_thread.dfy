/**
 * The Veiled Thread (src/suspension/veiled_thread.py): a fermentation chamber
 * for promising but unresolved content.  Each cycle ferments every entry; an
 * entry whose emergence potential passes 0.8 becomes a doctrine candidate, and
 * one that has fermented long enough with enough potential is ready to emerge.
 */
module VeiledThreads {
  import opened Wrappers
  import opened SuspensionBase

  /** Cycles before an entry may emerge. */
  const FermentationThreshold: int := 10
  /** Potential an entry needs to emerge. */
  const ResonanceThreshold: real := 0.7
  /** Potential above which an entry becomes a doctrine candidate. */
  const DoctrinePotentialThreshold: real := 0.8
  /** The threshold `suspend` purges with when the thread is full. */
  const DefaultPurgeThreshold: real := 0.2

  /** The entry `suspend` creates: no cycles yet, potential half the pressure, not a candidate. */
  function VeiledEntry(id: EntryId, content: string, source: string, pressure: real,
                       reason: string, now: int): (e: Entry)
    ensures e.id == id && e.suspensionType == Veiled && e.timestamp == now
    ensures e.fermentationCycles == 0 && e.emergencePotential == pressure * 0.5 && !e.doctrineCandidate
  {
    NewEntry(id, content, source, Veiled, pressure, now, reason).(emergencePotential := pressure * 0.5)
  }

  /** `check_emergence` on a stored entry. */
  predicate Ready(e: Entry)
  {
    e.fermentationCycles >= FermentationThreshold && e.emergencePotential >= ResonanceThreshold
  }

  /**
   * One fermentation cycle of one entry: one more cycle, 5% more potential
   * (capped at 1.0) once past five cycles, and the candidate flag raised when
   * the potential passes 0.8.
   */
  function Fermented(e: Entry): (f: Entry)
    ensures f.id == e.id && f.content == e.content
    ensures f.fermentationCycles == e.fermentationCycles + 1
    ensures f.fermentationCycles <= 5 ==> f.emergencePotential == e.emergencePotential
    ensures f.doctrineCandidate <==> e.doctrineCandidate || f.emergencePotential > DoctrinePotentialThreshold
  {
    var c := e.fermentationCycles + 1;
    var p := if c > 5 then Min(e.emergencePotential * 1.05, 1.0) else e.emergencePotential;
    e.(fermentationCycles := c, emergencePotential := p,
       doctrineCandidate := e.doctrineCandidate || p > DoctrinePotentialThreshold)
  }

  /** An entry the cycle flags for the first time. */
  predicate NewCandidate(e: Entry)
  {
    !e.doctrineCandidate && Fermented(e).doctrineCandidate
  }

  /** Fermentation keeps a potential in [0, 1], never lowers it, and never clears candidacy. */
  lemma FermentedBounds(e: Entry)
    requires 0.0 <= e.emergencePotential <= 1.0
    ensures e.emergencePotential <= Fermented(e).emergencePotential <= 1.0
    ensures e.doctrineCandidate ==> Fermented(e).doctrineCandidate
  {
  }

  /** A fresh entry cannot be ready before its tenth cycle, whatever its potential. */
  lemma {:induction false} NotReadyEarly(e: Entry, n: nat)
    requires e.fermentationCycles == 0 && n < FermentationThreshold
    ensures !Ready(FermentN(e, n))
    ensures FermentN(e, n).fermentationCycles == n
  {
    if n > 0 {
      NotReadyEarly(e, n - 1);
    }
  }

  /** n fermentation cycles of one entry. */
  function FermentN(e: Entry, n: nat): Entry
  {
    if n == 0 then e else Fermented(FermentN(e, n - 1))
  }

  function FermentAll(es: seq<Entry>): (r: seq<Entry>)
    ensures |r| == |es| && forall k :: 0 <= k < |es| ==> r[k] == Fermented(es[k])
  {
    seq(|es|, k requires 0 <= k < |es| => Fermented(es[k]))
  }

  /** What `update_resonance` does to an entry. */
  function Resonated(e: Entry, scarId: string, resonance: real): (r: Entry)
    ensures r.id == e.id && r.resonanceScores == e.resonanceScores[scarId := resonance]
    ensures resonance <= 0.7 ==> r.emergencePotential == e.emergencePotential && r.linkedScars == e.linkedScars
    ensures resonance > 0.7 ==> r.linkedScars == e.linkedScars + [scarId]
    ensures resonance > 0.7 ==> r.emergencePotential <= 1.0
  {
    var e1 := e.(resonanceScores := e.resonanceScores[scarId := resonance]);
    if resonance > 0.7 then
      e1.(emergencePotential := Min(e.emergencePotential * (1.0 + resonance * 0.1), 1.0),
          linkedScars := e.linkedScars + [scarId])
    else e1
  }

  /** Strong resonance never lowers a potential in [0, 1] and keeps it there. */
  lemma ResonatedBounds(e: Entry, scarId: string, resonance: real)
    requires 0.0 <= e.emergencePotential <= 1.0 && resonance > 0.7
    ensures e.emergencePotential <= Resonated(e, scarId, resonance).emergencePotential <= 1.0
  {
    var p, x := e.emergencePotential, resonance * 0.1;
    assert p * x >= 0.0;
    assert p * (1.0 + x) == p + p * x;
    assert Resonated(e, scarId, resonance).emergencePotential == Min(p * (1.0 + x), 1.0);
  }

  /** An old entry with too little potential: the ones the low-potential purge removes. */
  predicate Stale(e: Entry, threshold: real)
  {
    e.fermentationCycles > 50 && e.emergencePotential < threshold
  }

  predicate IsCandidate(e: Entry)
  {
    e.doctrineCandidate
  }

  /** The result of one `ferment_cycle`. */
  datatype FermentReport = FermentReport(cyclesRun: nat, emerged: seq<EntryId>, newCandidates: seq<EntryId>,
                                         totalFermenting: nat)

  class VeiledThread {
    const system: SuspensionSystem

    ghost predicate Valid()
      reads this, system
    {
      system.Valid() && system.suspensionType == Veiled
    }

    /** A new thread; nothing is loaded from disk. */
    constructor (capacity: nat)
      // A capacity of 0 would make `get_load_percentage` divide by zero; every caller passes a positive one.
      requires capacity > 0
      ensures Valid() && fresh(system)
      ensures system.entries == [] && system.capacity == capacity
      ensures system.totalSuspended == 0 && system.lastPurge == None
    {
      system := new SuspensionSystem(capacity, Veiled);
    }

    /** `check_emergence`: false for an unknown id, else whether that entry is Ready. */
    function CheckEmergence(id: EntryId): (r: bool)
      reads this, system
      ensures Find(system.entries, id).None? ==> !r
      ensures r ==> exists k :: 0 <= k < |system.entries| && system.entries[k].id == id && Ready(system.entries[k])
      ensures Find(system.entries, id).Some? ==> (r <==> Ready(system.entries[Find(system.entries, id).value]))
      ensures UniqueIds(system.entries) ==>
        (r <==> exists k :: 0 <= k < |system.entries| && system.entries[k].id == id && Ready(system.entries[k]))
    {
      ReadyFound(system.entries, id);
      match Find(system.entries, id)
      case None => false
      case Some(k) => Ready(system.entries[k])
    }

    /** `get_doctrine_candidates`: exactly the flagged entries, in table order. */
    function DoctrineCandidates(): (r: seq<Entry>)
      reads this, system
      ensures forall x :: x in r <==> x in system.entries && x.doctrineCandidate
      ensures |r| <= |system.entries|
    {
      Filter(system.entries, IsCandidate)
    }

    /**
     * `_purge_low_potential_entries(threshold)`: deletes exactly the stale
     * entries and returns how many.
     */
    method PurgeLowPotential(threshold: real) returns (purged: nat)
      requires Valid()
      modifies system
      ensures Valid()
      ensures forall x :: x in system.entries <==> x in old(system.entries) && !Stale(x, threshold)
      ensures system.entries == Drop(old(system.entries), IdSet(Filter(old(system.entries), e => Stale(e, threshold))))
      ensures purged == |old(system.entries)| - |system.entries|
      ensures system.totalSuspended == old(system.totalSuspended) && system.lastPurge == old(system.lastPurge)
    {
      var stale := e => Stale(e, threshold);
      var doomed := Filter(system.entries, stale);
      DropMatching(system.entries, stale);
      system.DeleteEach(doomed);
      purged := |doomed|;
    }

    /**
     * `suspend`: a full thread first purges its stale entries (at threshold
     * 0.2), then stores the new entry, named "VT-" and the clock reading.  The
     * purge may free nothing, so the thread can grow past its capacity.
     */
    method Suspend(content: string, source: string, pressure: real, reason: string, now: int, stamp: string)
      returns (e: Entry)
      requires Valid()
      modifies system
      ensures Valid()
      ensures e == VeiledEntry("VT-" + stamp, content, source, pressure, reason, now)
      ensures !old(system.IsAtCapacity()) ==> system.entries == Put(old(system.entries), e)
      ensures old(system.IsAtCapacity()) ==>
        system.entries == Put(Drop(old(system.entries), IdSet(Filter(old(system.entries), x => Stale(x, DefaultPurgeThreshold)))), e)
      ensures |system.entries| <= |old(system.entries)| + 1
      ensures system.totalSuspended == old(system.totalSuspended) + 1
      ensures system.lastPurge == old(system.lastPurge)
    {
      if system.IsAtCapacity() {
        var _ := PurgeLowPotential(DefaultPurgeThreshold);
      }
      e := VeiledEntry("VT-" + stamp, content, source, pressure, reason, now);
      PutFacts(system.entries, e);
      system.Store(e);
    }

    /**
     * `ferment_cycle`: ferments every entry in place, lists the ids flagged as
     * candidates for the first time and the ids ready to emerge afterwards.
     */
    method FermentCycle() returns (r: FermentReport)
      requires Valid()
      modifies system
      ensures Valid()
      ensures system.entries == FermentAll(old(system.entries))
      ensures r.cyclesRun == 1 && r.totalFermenting == |system.entries|
      ensures r.newCandidates == Ids(Filter(old(system.entries), NewCandidate))
      ensures r.emerged == Ids(Filter(system.entries, Ready))
      ensures forall id :: id in r.emerged <==> id in Ids(system.entries) && CheckEmergence(id)
      ensures system.totalSuspended == old(system.totalSuspended)
    {
      var es := system.entries;
      var fermented := FermentAll(es);
      var emerged, flagged := FermentScan(es);
      assert Ids(fermented) == Ids(es);
      system.entries := fermented;
      r := FermentReport(1, Ids(emerged), Ids(flagged), |fermented|);
      EmergedAreReady(fermented);
    }

    /** `extract_emerged`: an unknown id gives nothing; a known one is deleted and its content returned. */
    method ExtractEmerged(id: EntryId) returns (content: Option<string>)
      requires Valid()
      modifies system
      ensures Valid()
      ensures Find(old(system.entries), id).None? ==> content.None? && system.entries == old(system.entries)
      ensures Find(old(system.entries), id).Some? ==>
        && content == Some(old(system.entries)[Find(old(system.entries), id).value].content)
        && system.entries == Drop(old(system.entries), {id})
        && Find(system.entries, id).None?
        && |system.entries| == |old(system.entries)| - 1
      ensures system.totalSuspended == old(system.totalSuspended)
    {
      match Find(system.entries, id)
      case None =>
        return None;
      case Some(k) =>
        content := Some(system.entries[k].content);
        var victim := system.entries[k];
        DropCount(system.entries, {id});
        IdSetMembers(system.entries);
        assert {id} * IdSet(system.entries) == {id};
        DropFacts(system.entries, {id});
        assert IdSet([victim]) == {id};
        system.DeleteEach([victim]);
    }

    /**
     * `update_resonance`: an unknown id changes nothing; otherwise the score is
     * recorded, and strong resonance raises the potential and links the scar.
     */
    method UpdateResonance(id: EntryId, scarId: string, resonance: real)
      requires Valid()
      modifies system
      ensures Valid()
      ensures Find(old(system.entries), id).None? ==> system.entries == old(system.entries)
      ensures Find(old(system.entries), id).Some? ==>
        var k := Find(old(system.entries), id).value;
        system.entries == old(system.entries)[k := Resonated(old(system.entries)[k], scarId, resonance)]
      ensures system.totalSuspended == old(system.totalSuspended)
    {
      match Find(system.entries, id)
      case None =>
      case Some(k) =>
        system.Update(k, Resonated(system.entries[k], scarId, resonance));
    }
  }

  /**
   * The loop of `ferment_cycle`, entry by entry: the entries it flags for the
   * first time, and the fermented entries ready to emerge.
   */
  method FermentScan(es: seq<Entry>) returns (emerged: seq<Entry>, flagged: seq<Entry>)
    ensures emerged == Filter(FermentAll(es), Ready)
    ensures flagged == Filter(es, NewCandidate)
  {
    var fermented := FermentAll(es);
    emerged, flagged := [], [];
    var i := 0;
    while i < |es|
      invariant 0 <= i <= |es|
      invariant emerged == Filter(fermented[..i], Ready)
      invariant flagged == Filter(es[..i], NewCandidate)
    {
      var f := fermented[i];
      FilterPrefixStep(fermented, i, Ready);
      FilterPrefixStep(es, i, NewCandidate);
      if NewCandidate(es[i]) {
        flagged := flagged + [es[i]];
      }
      if Ready(f) {
        emerged := emerged + [f];
      }
      i := i + 1;
    }
    assert fermented[..i] == fermented && es[..i] == es;
  }

  /** The ready entries are exactly the stored ones `check_emergence` accepts. */
  lemma EmergedAreReady(es: seq<Entry>)
    requires UniqueIds(es)
    ensures forall id :: id in Ids(Filter(es, Ready)) <==>
      id in Ids(es) && Find(es, id).Some? && Ready(es[Find(es, id).value])
  {
    forall id ensures id in Ids(Filter(es, Ready)) <==> id in Ids(es) && Find(es, id).Some? && Ready(es[Find(es, id).value]) {
      if id in Ids(Filter(es, Ready)) {
        ReadyIsStored(es, id);
      }
      if id in Ids(es) && Find(es, id).Some? && Ready(es[Find(es, id).value]) {
        StoredIsReady(es, id);
      }
    }
  }

  /** With unique ids, a ready entry stored under id is the one id finds. */
  lemma ReadyFound(es: seq<Entry>, id: EntryId)
    ensures UniqueIds(es) && (exists k :: 0 <= k < |es| && es[k].id == id && Ready(es[k])) ==>
      Find(es, id).Some? && Ready(es[Find(es, id).value])
  {
    if UniqueIds(es) && exists k :: 0 <= k < |es| && es[k].id == id && Ready(es[k]) {
      var k :| 0 <= k < |es| && es[k].id == id && Ready(es[k]);
      FindUnique(es, id, k);
    }
  }

  /** An id among the ready entries finds a ready entry. */
  lemma ReadyIsStored(es: seq<Entry>, id: string)
    requires UniqueIds(es) && id in Ids(Filter(es, Ready))
    ensures id in Ids(es) && Find(es, id).Some? && Ready(es[Find(es, id).value])
  {
    var f := Filter(es, Ready);
    var k :| 0 <= k < |f| && Ids(f)[k] == id;
    var m :| 0 <= m < |es| && es[m] == f[k];
    FindUnique(es, id, m);
  }

  /** An id that finds a ready entry is among the ready entries. */
  lemma StoredIsReady(es: seq<Entry>, id: string)
    requires Find(es, id).Some? && Ready(es[Find(es, id).value])
    ensures id in Ids(Filter(es, Ready))
  {
    var f := Filter(es, Ready);
    var m := Find(es, id).value;
    assert es[m] in f;
    var k :| 0 <= k < |f| && f[k] == es[m];
    assert Ids(f)[k] == id;
  }
}
