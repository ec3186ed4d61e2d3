/**
 * The shared part of the three suspension systems (src/suspension/suspension_base.py):
 * the entry record, the entry table, and the capacity, load, listing and purge
 * operations every system inherits.
 *
 * The entry table is Python's `Dict[str, SuspensionEntry]`, which keeps insertion
 * order; it is kept as a sequence of entries with no id twice.  Looking an id up
 * finds its one position, storing under an existing id replaces the entry in
 * place, and `del` drops it.  Clock readings (`datetime.now()`) are integers the
 * caller passes in; a larger value is a later time.
 */
module SuspensionBase {
  import opened Wrappers
  import Sorting

  type EntryId = string

  datatype SuspensionType = ColdSuspension | Veiled | Sphere

  /** QuarantineLevel; Rank gives the enum's value. */
  datatype QuarantineLevel = Low | Volatile | Toxic | Cascade

  function Rank(q: QuarantineLevel): int
  {
    match q
    case Low => 1
    case Volatile => 2
    case Toxic => 3
    case Cascade => 4
  }

  /**
   * The stored reason: the caller's text, or, for an empty text, the system's
   * stock sentence naming the pressure (`reason or f"... {pressure:.2f}"`).
   */
  datatype Reason = Given(text: string) | Stock

  function ReasonOf(reason: string): (r: Reason)
    ensures r.Stock? <==> reason == ""
    ensures r.Given? ==> r.text == reason
  {
    if reason == "" then Stock else Given(reason)
  }

  /**
   * SuspensionEntry.  `metadata` is only ever written by CSA.retrieve, which
   * records a warning; `warning` says whether it has.
   */
  datatype Entry = Entry(
    id: EntryId,
    content: string,
    source: string,
    suspensionType: SuspensionType,
    pressureLevel: real,
    timestamp: int,
    reason: Reason,
    quarantineLevel: Option<QuarantineLevel>,
    decayScore: real,
    dormancyCycles: int,
    fermentationCycles: int,
    resonanceScores: map<string, real>,
    emergencePotential: real,
    doctrineCandidate: bool,
    orbitStability: real,
    paradoxFamily: Option<string>,
    gravitationalInfluence: real,
    accessCount: int,
    lastAccessed: Option<int>,
    linkedScars: seq<string>,
    warning: bool)

  /** `SuspensionEntry(id=, content=, source=, suspension_type=, pressure_level=, reason=)` at time `now`. */
  function NewEntry(id: EntryId, content: string, source: string, t: SuspensionType,
                    pressure: real, now: int, reason: string): (e: Entry)
    ensures e.id == id && e.content == content && e.source == source && e.suspensionType == t
    ensures e.pressureLevel == pressure && e.timestamp == now && e.reason == ReasonOf(reason)
    ensures e.quarantineLevel == None && e.decayScore == 0.0 && e.dormancyCycles == 0
    ensures e.fermentationCycles == 0 && e.resonanceScores == map[] && e.emergencePotential == 0.0
    ensures !e.doctrineCandidate && e.orbitStability == 1.0 && e.paradoxFamily == None
    ensures e.gravitationalInfluence == 0.0 && e.accessCount == 0 && e.lastAccessed == None
    ensures e.linkedScars == [] && !e.warning
  {
    Entry(id, content, source, t, pressure, now, ReasonOf(reason), None, 0.0, 0, 0, map[], 0.0, false,
          1.0, None, 0.0, 0, None, [], false)
  }

  // ---------------------------------------------------------------- the entry table

  function Ids(es: seq<Entry>): (r: seq<EntryId>)
    ensures |r| == |es| && forall k :: 0 <= k < |es| ==> r[k] == es[k].id
  {
    if es == [] then [] else [es[0].id] + Ids(es[1..])
  }

  /** The ids of a sequence of entries, as a set. */
  function IdSet(es: seq<Entry>): set<EntryId>
  {
    if es == [] then {} else {es[0].id} + IdSet(es[1..])
  }

  lemma {:induction false} IdSetMembers(es: seq<Entry>)
    ensures forall k :: 0 <= k < |es| ==> es[k].id in IdSet(es)
    ensures forall x :: x in IdSet(es) ==> exists k :: 0 <= k < |es| && es[k].id == x
  {
    if es != [] {
      IdSetMembers(es[1..]);
      forall x | x in IdSet(es) ensures exists k :: 0 <= k < |es| && es[k].id == x {
        if x != es[0].id {
          var k :| 0 <= k < |es[1..]| && es[1..][k].id == x;
          assert es[k + 1].id == x;
        }
      }
    }
  }

  lemma {:induction false} IdSetAppend(a: seq<Entry>, b: seq<Entry>)
    ensures IdSet(a + b) == IdSet(a) + IdSet(b)
  {
    if a != [] {
      IdSetAppend(a[1..], b);
      assert (a + b)[0] == a[0] && (a + b)[1..] == a[1..] + b;
      assert IdSet(a + b) == {a[0].id} + IdSet(a[1..] + b);
    } else {
      assert a + b == b;
    }
  }

  /** The dictionary's keys are unique. */
  predicate UniqueIds(es: seq<Entry>)
  {
    Distinct(Ids(es))
  }

  /** Where id is stored, if anywhere: `id in entries` and `entries[id]`. */
  function Find(es: seq<Entry>, id: EntryId): (r: Option<nat>)
    ensures r.Some? ==> r.value < |es| && es[r.value].id == id
    ensures r.None? <==> forall k :: 0 <= k < |es| ==> es[k].id != id
  {
    if es == [] then None
    else if es[0].id == id then Some(0)
    else match Find(es[1..], id)
      case None => None
      case Some(k) => Some(k + 1)
  }

  /** With unique ids, the position of an id is the only one holding it. */
  lemma FindUnique(es: seq<Entry>, id: EntryId, k: nat)
    requires UniqueIds(es) && k < |es| && es[k].id == id
    ensures Find(es, id) == Some(k)
  {
    var i := Find(es, id).value;
    assert Ids(es)[i] == Ids(es)[k];
  }

  /** Two stored entries with the same id are the same entry. */
  lemma SameIdSameEntry(es: seq<Entry>, a: Entry, b: Entry)
    requires UniqueIds(es) && a in es && b in es && a.id == b.id
    ensures a == b
  {
    var i :| 0 <= i < |es| && es[i] == a;
    var j :| 0 <= j < |es| && es[j] == b;
    assert Ids(es)[i] == Ids(es)[j];
  }

  /** `entries[e.id] = e`: replaces in place under an existing id, appends otherwise. */
  function Put(es: seq<Entry>, e: Entry): (r: seq<Entry>)
    ensures Find(es, e.id).Some? ==> r == es[Find(es, e.id).value := e]
    ensures Find(es, e.id).None? ==> r == es + [e]
  {
    match Find(es, e.id)
    case Some(k) => es[k := e]
    case None => es + [e]
  }

  /** Storing keeps ids unique, stores e under its id, and adds at most one entry. */
  lemma PutFacts(es: seq<Entry>, e: Entry)
    requires UniqueIds(es)
    ensures UniqueIds(Put(es, e))
    ensures Find(Put(es, e), e.id).Some? && Put(es, e)[Find(Put(es, e), e.id).value] == e
    ensures |Put(es, e)| == if Find(es, e.id).Some? then |es| else |es| + 1
  {
    var r := Put(es, e);
    forall i, j | 0 <= i < j < |r| ensures Ids(r)[i] != Ids(r)[j] {
      if Find(es, e.id).Some? {
        var k := Find(es, e.id).value;
        if i != k && j != k { assert Ids(es)[i] != Ids(es)[j]; }
        else if i == k { assert Ids(es)[k] != Ids(es)[j]; }
        else { assert Ids(es)[i] != Ids(es)[k]; }
      } else if j < |es| {
        assert Ids(es)[i] != Ids(es)[j];
      }
    }
    FindUnique(r, e.id, if Find(es, e.id).Some? then Find(es, e.id).value else |es|);
  }

  /** The table after `del entries[x]` for every x in ids. */
  function Drop(es: seq<Entry>, ids: set<EntryId>): seq<Entry>
  {
    if es == [] then [] else (if es[0].id in ids then [] else [es[0]]) + Drop(es[1..], ids)
  }

  /** Deleting keeps exactly the entries whose id is not named, and no others. */
  lemma {:induction false} DropFacts(es: seq<Entry>, ids: set<EntryId>)
    ensures |Drop(es, ids)| <= |es|
    ensures forall x :: x in Drop(es, ids) <==> x in es && x.id !in ids
  {
    if es != [] {
      DropFacts(es[1..], ids);
      assert es == [es[0]] + es[1..];
    }
  }

  lemma {:induction false} DropUnique(es: seq<Entry>, ids: set<EntryId>)
    requires UniqueIds(es)
    ensures UniqueIds(Drop(es, ids))
  {
    if es != [] {
      var t := es[1..];
      UniqueTail(es);
      DropUnique(t, ids);
      DropFacts(t, ids);
      if es[0].id !in ids {
        var d := Drop(t, ids);
        var r := [es[0]] + d;
        IdSetMembers(t);
        forall i, j | 0 <= i < j < |r| ensures r[i].id != r[j].id {
          if i == 0 {
            assert r[j] == d[j - 1] && d[j - 1] in t;
            var m :| 0 <= m < |t| && t[m] == d[j - 1];
            assert t[m].id in IdSet(t);
          } else {
            assert Ids(d)[i - 1] != Ids(d)[j - 1];
          }
        }
        assert forall i, j :: 0 <= i < j < |r| ==> Ids(r)[i] != Ids(r)[j];
      }
    }
  }

  /** Deleting one set of ids and then another is deleting both. */
  lemma {:induction false} DropDrop(es: seq<Entry>, a: set<EntryId>, b: set<EntryId>)
    ensures Drop(Drop(es, a), b) == Drop(es, a + b)
  {
    if es != [] {
      var x, t := es[0], es[1..];
      DropDrop(t, a, b);
      var d := Drop(t, a);
      if x.id !in a {
        assert Drop(es, a) == [x] + d;
        assert ([x] + d)[0] == x && ([x] + d)[1..] == d;
        if x.id in b {
          assert Drop([x] + d, b) == Drop(d, b);
        } else {
          assert Drop([x] + d, b) == [x] + Drop(d, b);
        }
      } else {
        assert Drop(es, a) == d;
      }
    }
  }

  /** Deleting ids the table does not hold changes nothing. */
  lemma {:induction false} DropNone(es: seq<Entry>, ids: set<EntryId>)
    requires forall k :: 0 <= k < |es| ==> es[k].id !in ids
    ensures Drop(es, ids) == es
  {
    if es != [] {
      DropNone(es[1..], ids);
    }
  }

  lemma UniqueTail(es: seq<Entry>)
    requires UniqueIds(es) && es != []
    ensures UniqueIds(es[1..]) && es[0].id !in IdSet(es[1..])
  {
    var t := es[1..];
    forall i, j | 0 <= i < j < |t| ensures Ids(t)[i] != Ids(t)[j] { assert Ids(es)[i + 1] != Ids(es)[j + 1]; }
    IdSetMembers(t);
    forall k | 0 <= k < |t| ensures t[k].id != es[0].id { assert Ids(es)[k + 1] != Ids(es)[0]; }
  }

  /** With unique ids, deleting a set of ids removes as many entries as it holds ids of the table. */
  lemma {:induction false} DropCount(es: seq<Entry>, ids: set<EntryId>)
    requires UniqueIds(es)
    ensures |Drop(es, ids)| == |es| - |ids * IdSet(es)|
  {
    if es != [] {
      var t := es[1..];
      UniqueTail(es);
      DropCount(t, ids);
      if es[0].id in ids {
        assert ids * IdSet(es) == (ids * IdSet(t)) + {es[0].id};
      } else {
        assert ids * IdSet(es) == ids * IdSet(t);
      }
    }
  }

  /** An entry whose id the rest does not hold can go in front. */
  lemma ConsUnique(x: Entry, t: seq<Entry>)
    requires UniqueIds(t) && x.id !in IdSet(t)
    ensures UniqueIds([x] + t)
  {
    var r := [x] + t;
    IdSetMembers(t);
    forall i, j | 0 <= i < j < |r| ensures Ids(r)[i] != Ids(r)[j] {
      if i > 0 { assert Ids(t)[i - 1] != Ids(t)[j - 1]; } else { assert r[j] == t[j - 1]; }
    }
  }

  /** The entries passing a test keep ids unique and come from the table. */
  lemma {:induction false} FilterUnique(es: seq<Entry>, p: Entry -> bool)
    requires UniqueIds(es)
    ensures UniqueIds(Filter(es, p)) && IdSet(Filter(es, p)) <= IdSet(es)
  {
    if es != [] {
      var x, t := es[0], es[1..];
      UniqueTail(es);
      FilterUnique(t, p);
      var ft := Filter(t, p);
      assert IdSet(es) == {x.id} + IdSet(t);
      if p(x) {
        assert Filter(es, p) == [x] + ft;
        ConsUnique(x, ft);
        IdSetAppend([x], ft);
        assert IdSet([x]) == {x.id};
      } else {
        assert Filter(es, p) == ft;
      }
    }
  }

  /**
   * Deleting, one by one, the ids of the entries that pass a test keeps exactly
   * the entries that fail it, and deletes as many entries as passed.
   */
  lemma DropMatching(es: seq<Entry>, p: Entry -> bool)
    requires UniqueIds(es)
    ensures UniqueIds(Drop(es, IdSet(Filter(es, p))))
    ensures forall x :: x in Drop(es, IdSet(Filter(es, p))) <==> x in es && !p(x)
    ensures |Drop(es, IdSet(Filter(es, p)))| == |es| - |Filter(es, p)|
  {
    var f := Filter(es, p);
    var ids := IdSet(f);
    FilterUnique(es, p);
    IdSetCard(f);
    DropUnique(es, ids);
    DropCount(es, ids);
    assert ids * IdSet(es) == ids;
    DropFacts(es, ids);
    IdSetMembers(f);
    forall x | x in es && x.id in ids ensures p(x) {
      var k :| 0 <= k < |f| && f[k].id == x.id;
      SameIdSameEntry(es, f[k], x);
    }
    forall x | x in es && p(x) ensures x.id in ids {
      var k :| 0 <= k < |es| && es[k] == x;
      assert x in f;
      var m :| 0 <= m < |f| && f[m] == x;
    }
  }

  /**
   * Deleting the ids of the entries that pass a test keeps the others in
   * their order: it is the filter by the opposite test `q`.
   */
  lemma DropMatchingOrder(es: seq<Entry>, p: Entry -> bool, q: Entry -> bool)
    requires UniqueIds(es) && forall x :: q(x) == !p(x)
    ensures Drop(es, IdSet(Filter(es, p))) == Filter(es, q)
  {
    DropMatching(es, p);
    DropFacts(es, IdSet(Filter(es, p)));
    DropIsFilter(es, IdSet(Filter(es, p)), q);
  }

  /** Deleting a set of ids that names exactly the entries failing `q` is filtering by `q`. */
  lemma {:induction false} DropIsFilter(es: seq<Entry>, ids: set<EntryId>, q: Entry -> bool)
    requires forall x :: x in es ==> (x.id in ids <==> !q(x))
    ensures Drop(es, ids) == Filter(es, q)
  {
    if es != [] {
      assert es[0] in es;
      assert forall x :: x in es[1..] ==> x in es;
      DropIsFilter(es[1..], ids, q);
    }
  }

  /** Overwriting an entry under its own id keeps ids unique. */
  lemma ReplaceUnique(es: seq<Entry>, k: nat, e: Entry)
    requires UniqueIds(es) && k < |es| && es[k].id == e.id
    ensures UniqueIds(es[k := e]) && Ids(es[k := e]) == Ids(es)
  {
  }

  // ---------------------------------------------------------------- ordering by time

  /** Sort key of `sorted(..., key=timestamp, reverse=True)`: newest first. */
  function Recency(e: Entry): real
  {
    e.timestamp as real
  }

  /** Sort key of `sorted(..., key=timestamp)`: oldest first, as a descending sort. */
  function Age(e: Entry): real
  {
    -(e.timestamp as real)
  }

  /** The length Python's `s[:limit]` keeps of a sequence of n elements. */
  function SliceLength(n: nat, limit: int): (k: nat)
    ensures k <= n || (limit >= 0 && k == limit)
    ensures limit >= 0 ==> k == limit
  {
    if limit >= 0 then limit else if n + limit >= 0 then n + limit else 0
  }

  /** The entries that `purge_old_entries(keep_recent)` deletes: the oldest `len - keep_recent`. */
  function Victims(es: seq<Entry>, keepRecent: int): seq<Entry>
  {
    Sorting.Take(Sorting.SortDesc(es, Age), if |es| > keepRecent then |es| - keepRecent else 0)
  }

  /** The table after `purge_old_entries(keep_recent)`. */
  function AfterPurge(es: seq<Entry>, keepRecent: int): seq<Entry>
  {
    if |es| <= keepRecent then es else Drop(es, IdSet(Victims(es, keepRecent)))
  }

  lemma DistinctMultiplicity<T>(s: seq<T>, x: T)
    requires Distinct(s)
    ensures multiset(s)[x] <= 1
  {
    if s != [] {
      assert Distinct(s[1..]) by {
        forall i, j | 0 <= i < j < |s[1..]| ensures s[1..][i] != s[1..][j] { assert s[i + 1] != s[j + 1]; }
      }
      DistinctMultiplicity(s[1..], x);
      assert s == [s[0]] + s[1..];
      if x == s[0] {
        assert x !in s[1..] by {
          forall k | 0 <= k < |s[1..]| ensures s[1..][k] != x { assert s[k + 1] != s[0]; }
        }
      }
    }
  }

  lemma TwoPositions<T>(s: seq<T>, i: nat, j: nat)
    requires i < j < |s| && s[i] == s[j]
    ensures multiset(s)[s[i]] >= 2
  {
    assert s == s[..j] + s[j..];
    assert s[i] in s[..j];
    assert s[j] in s[j..];
  }

  /** Unique ids make the entries themselves distinct. */
  lemma UniqueDistinct(es: seq<Entry>)
    requires UniqueIds(es)
    ensures Distinct(es)
  {
    forall i, j | 0 <= i < j < |es| ensures es[i] != es[j] { assert Ids(es)[i] != Ids(es)[j]; }
  }

  /** A rearrangement of entries with unique ids has unique ids. */
  lemma PermutedUnique(es: seq<Entry>, s: seq<Entry>)
    requires UniqueIds(es) && multiset(s) == multiset(es)
    ensures UniqueIds(s)
  {
    UniqueDistinct(es);
    forall i, j | 0 <= i < j < |s| ensures Ids(s)[i] != Ids(s)[j] {
      if s[i].id == s[j].id {
        assert s[i] in multiset(es) && s[j] in multiset(es);
        SameIdSameEntry(es, s[i], s[j]);
        TwoPositions(s, i, j);
        DistinctMultiplicity(es, s[i]);
      }
    }
  }

  lemma PrefixUnique(s: seq<Entry>, n: nat)
    requires UniqueIds(s) && n <= |s|
    ensures UniqueIds(s[..n])
  {
    forall i, j | 0 <= i < j < n ensures Ids(s[..n])[i] != Ids(s[..n])[j] { assert Ids(s)[i] != Ids(s)[j]; }
  }

  /** Distinct ids: a sequence with unique ids has as many ids as entries. */
  lemma {:induction false} IdSetCard(s: seq<Entry>)
    requires UniqueIds(s)
    ensures |IdSet(s)| == |s|
  {
    if s != [] {
      UniqueTail(s);
      IdSetCard(s[1..]);
    }
  }

  /** The purge's victims are entries of the table with distinct ids, as many as it deletes. */
  lemma VictimsFacts(es: seq<Entry>, keepRecent: int)
    requires UniqueIds(es) && |es| > keepRecent
    ensures multiset(Victims(es, keepRecent)) <= multiset(es)
    ensures |Victims(es, keepRecent)| == if keepRecent < 0 then |es| else |es| - keepRecent
    ensures |IdSet(Victims(es, keepRecent))| == |Victims(es, keepRecent)|
    ensures IdSet(Victims(es, keepRecent)) <= IdSet(es)
  {
    var sorted := Sorting.SortDesc(es, Age);
    var v := Victims(es, keepRecent);
    Sorting.SortDescCorrect(es, Age);
    Sorting.SplitMultiset(sorted, |v|);
    PermutedUnique(es, sorted);
    PrefixUnique(sorted, |v|);
    IdSetCard(v);
    SubIdSet(v, es);
  }

  /** Entries drawn from a table carry ids of that table. */
  lemma SubIdSet(v: seq<Entry>, es: seq<Entry>)
    requires multiset(v) <= multiset(es)
    ensures IdSet(v) <= IdSet(es)
  {
    IdSetMembers(v);
    IdSetMembers(es);
    forall x | x in IdSet(v) ensures x in IdSet(es) {
      var k :| 0 <= k < |v| && v[k].id == x;
      assert v[k] in multiset(v);
      assert v[k] in es;
      var m :| 0 <= m < |es| && es[m] == v[k];
    }
  }

  /**
   * The purge keeps exactly `keep_recent` entries (none for a negative count)
   * and keeps ids unique; it deletes as many entries as it has victims.
   */
  lemma PurgeCount(es: seq<Entry>, keepRecent: int)
    requires UniqueIds(es) && |es| > keepRecent
    ensures UniqueIds(AfterPurge(es, keepRecent))
    ensures |AfterPurge(es, keepRecent)| == if keepRecent < 0 then 0 else keepRecent
    ensures |es| - |AfterPurge(es, keepRecent)| == |Victims(es, keepRecent)|
  {
    var ids := IdSet(Victims(es, keepRecent));
    VictimsFacts(es, keepRecent);
    DropUnique(es, ids);
    DropCount(es, ids);
    assert ids * IdSet(es) == ids;
  }

  /** Every entry the purge deletes is no newer than every entry it keeps. */
  lemma PurgeOldest(es: seq<Entry>, keepRecent: int)
    requires UniqueIds(es) && |es| > keepRecent
    ensures forall r, k :: r in es && r !in AfterPurge(es, keepRecent) && k in AfterPurge(es, keepRecent) ==>
      r.timestamp <= k.timestamp
  {
    var sorted := Sorting.SortDesc(es, Age);
    var v := Victims(es, keepRecent);
    var ids := IdSet(v);
    var after := AfterPurge(es, keepRecent);
    Sorting.SortDescCorrect(es, Age);
    Sorting.TakeSorted(sorted, Age, |es| - keepRecent);
    DropFacts(es, ids);
    IdSetMembers(v);
    forall r, k | r in es && r !in after && k in after ensures r.timestamp <= k.timestamp {
      var m :| 0 <= m < |v| && v[m].id == r.id;
      assert v[m] in multiset(es);
      SameIdSameEntry(es, v[m], r);
      assert k !in v;
      assert k in multiset(sorted) - multiset(v) by {
        assert multiset(v)[k] == 0;
        assert k in multiset(es);
      }
      assert Age(r) >= Age(k);
    }
  }

  // ---------------------------------------------------------------- the system

  /** A ratio n / c with positive c, times 100, against a fraction f of 100. */
  lemma Scaled(n: real, c: real, f: real)
    requires c > 0.0
    ensures n / c * 100.0 >= f * 100.0 <==> n >= f * c
    ensures n / c * 100.0 < f * 100.0 <==> n < f * c
  {
    var q := n / c;
    assert q * c == n;
    if q >= f { assert q * c >= f * c; } else { assert q * c < f * c; }
  }

  /**
   * SuspensionSystem: the entry table with its capacity, the lifetime count of
   * suspensions and the time of the last purge.  The three systems each hold
   * one and add their own rules.
   */
  class SuspensionSystem {
    var entries: seq<Entry>
    const capacity: nat
    const suspensionType: SuspensionType
    var totalSuspended: nat
    var lastPurge: Option<int>

    /** The keys are unique and the capacity is positive (the load divides by it). */
    ghost predicate Valid()
      reads this
    {
      capacity > 0 && UniqueIds(entries)
    }

    constructor (capacity: nat, t: SuspensionType)
      // A capacity of 0 would make `get_load_percentage` divide by zero; every caller passes a positive one.
      requires capacity > 0
      ensures Valid() && entries == [] && this.capacity == capacity && suspensionType == t
      ensures totalSuspended == 0 && lastPurge == None
    {
      entries := [];
      this.capacity := capacity;
      suspensionType := t;
      totalSuspended := 0;
      lastPurge := None;
    }

    /** `is_at_capacity`. */
    predicate IsAtCapacity()
      reads this
    {
      |entries| >= capacity
    }

    /** `get_load_percentage`: reaches 100 exactly when the system is at capacity. */
    function LoadPercentage(): (r: real)
      reads this
      requires Valid()
      ensures r >= 0.0
      ensures r >= 100.0 <==> IsAtCapacity()
      ensures r < 80.0 <==> 5 * |entries| < 4 * capacity
      ensures entries == [] ==> r == 0.0
    {
      var n, c := |entries| as real, capacity as real;
      Scaled(n, c, 1.0);
      Scaled(n, c, 0.8);
      n / c * 100.0
    }

    /** `list_entries(limit)`: the newest entries, newest first, at most limit of them. */
    function ListEntries(limit: int): (r: seq<Entry>)
      reads this
      ensures |r| <= |entries| && (limit >= 0 ==> |r| <= limit)
      ensures |r| == if limit >= 0 then (if limit < |entries| then limit else |entries|)
                     else (if |entries| + limit >= 0 then |entries| + limit else 0)
      ensures Sorting.SortedDesc(r, Recency)
      ensures multiset(r) <= multiset(entries)
      ensures forall w, v :: w in multiset(entries) - multiset(r) && v in r ==> w.timestamp <= v.timestamp
    {
      var sorted := Sorting.SortDesc(entries, Recency);
      Sorting.SortDescCorrect(entries, Recency);
      Sorting.TakeSorted(sorted, Recency, SliceLength(|sorted|, limit));
      Sorting.Take(sorted, SliceLength(|sorted|, limit))
    }

    /** `entries[e.id] = e; total_suspended += 1`, the common end of every suspend. */
    method Store(e: Entry)
      requires Valid()
      modifies this
      ensures Valid() && entries == Put(old(entries), e)
      ensures totalSuspended == old(totalSuspended) + 1 && lastPurge == old(lastPurge)
    {
      PutFacts(entries, e);
      entries := Put(entries, e);
      totalSuspended := totalSuspended + 1;
    }

    /** An entry changed in place (the source mutates the stored object). */
    method Update(k: nat, e: Entry)
      requires Valid() && k < |entries| && entries[k].id == e.id
      modifies this
      ensures Valid() && entries == old(entries)[k := e]
      ensures totalSuspended == old(totalSuspended) && lastPurge == old(lastPurge)
    {
      ReplaceUnique(entries, k, e);
      entries := entries[k := e];
    }

    /** `for x in victims: del entries[x.id]`. */
    method DeleteEach(victims: seq<Entry>)
      requires Valid()
      modifies this
      ensures Valid() && entries == Drop(old(entries), IdSet(victims))
      ensures totalSuspended == old(totalSuspended) && lastPurge == old(lastPurge)
    {
      var i := 0;
      DropNone(entries, {});
      DropUnique(entries, IdSet(victims));
      while i < |victims|
        invariant 0 <= i <= |victims|
        invariant entries == Drop(old(entries), IdSet(victims[..i]))
        invariant totalSuspended == old(totalSuspended) && lastPurge == old(lastPurge)
      {
        DropDrop(old(entries), IdSet(victims[..i]), {victims[i].id});
        assert IdSet(victims[..i + 1]) == IdSet(victims[..i]) + {victims[i].id} by {
          assert victims[..i + 1] == victims[..i] + [victims[i]];
          IdSetAppend(victims[..i], [victims[i]]);
        }
        entries := Drop(entries, {victims[i].id});
        i := i + 1;
      }
      assert victims[..i] == victims;
    }

    /**
     * `purge_old_entries(keep_recent)`: nothing when at most keep_recent entries
     * are stored; otherwise deletes the oldest ones (see PurgeCount and PurgeOldest), one `del` at
     * a time, records the purge time and returns how many it deleted.
     */
    method PurgeOldEntries(keepRecent: int, now: int) returns (purged: nat)
      requires Valid()
      modifies this
      ensures Valid()
      ensures entries == AfterPurge(old(entries), keepRecent)
      ensures purged == |old(entries)| - |entries|
      ensures lastPurge == if |old(entries)| <= keepRecent then old(lastPurge) else Some(now)
      ensures totalSuspended == old(totalSuspended)
    {
      if |entries| <= keepRecent {
        return 0;
      }
      PurgeCount(entries, keepRecent);
      var victims := Victims(entries, keepRecent);
      DeleteEach(victims);
      purged := |victims|;
      lastPurge := Some(now);
    }
  }
}
