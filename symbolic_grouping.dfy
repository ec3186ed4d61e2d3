/**
 * Symbolic grouping (src/utils/symbolic_grouping.py): read-only views over the
 * scar list of a Scar Logic Core and the doctrine list of a Doctrine Spine,
 * and the depth-bounded traversals that follow doctrine lineage and
 * scar-doctrine-scar links.
 */
module Grouping {
  import opened Wrappers
  import opened Records
  import opened Strings
  import opened ScarLedger
  import opened DoctrineLedger

  /** No two scars share an id. */
  predicate DistinctScarIds(ss: seq<Scar>)
  {
    forall i, j :: 0 <= i < j < |ss| ==> ss[i].id != ss[j].id
  }

  /** No two doctrines share an id. */
  predicate DistinctDoctrineIds(ds: seq<Doctrine>)
  {
    forall i, j :: 0 <= i < j < |ds| ==> ds[i].id != ds[j].id
  }

  /** `[get_scar(i) for i in ids if get_scar(i)]`: the scars the ids resolve to, unknown ids skipped. */
  function ResolveScars(ss: seq<Scar>, ids: seq<string>): (r: seq<Scar>)
    ensures |r| <= |ids|
    ensures forall x :: x in r ==> x in ss && x.id in ids
    ensures forall i :: 0 <= i < |ids| && ScarById(ss, ids[i]).Some? ==> ScarById(ss, ids[i]).value in r
  {
    if ids == [] then []
    else
      var rest := ResolveScars(ss, ids[1..]);
      match ScarById(ss, ids[0])
      case None => rest
      case Some(s) => [s] + rest
  }

  /** `[get_doctrine(i) for i in ids if get_doctrine(i)]`: the doctrines the ids resolve to. */
  function ResolveDoctrines(ds: seq<Doctrine>, ids: seq<string>): (r: seq<Doctrine>)
    ensures |r| <= |ids|
    ensures forall x :: x in r ==> x in ds && x.id in ids
    ensures forall i :: 0 <= i < |ids| && Lookup(ds, ids[i]).Some? ==> Lookup(ds, ids[i]).value in r
  {
    if ids == [] then []
    else
      var rest := ResolveDoctrines(ds, ids[1..]);
      match Lookup(ds, ids[0])
      case None => rest
      case Some(d) => [d] + rest
  }

  /**
   * `tags = set(); for x in items: tags.update(f(x)); sorted(tags)`, with the
   * set kept as a sorted list: sorted, duplicate-free, and exactly the strings
   * some item lists.
   */
  method SortedUnion<T>(items: seq<T>, f: T -> seq<string>) returns (r: seq<string>)
    ensures StrictlySorted(r) && Distinct(r)
    ensures forall y :: y in r <==> exists k :: 0 <= k < |items| && y in f(items[k])
  {
    r := [];
    for i := 0 to |items|
      invariant StrictlySorted(r)
      invariant forall y :: y in r <==> exists k :: 0 <= k < i && y in f(items[k])
    {
      SortedUniqueSorted(f(items[i]), r);
      r := SortedUnique(f(items[i]), r);
    }
    StrictlySortedDistinct(r);
  }

  /** The non-empty scar types, in scar order. */
  function TypesOf(ss: seq<Scar>): (r: seq<string>)
    ensures forall t :: t in r <==> t != "" && exists s :: s in ss && s.scarType == t
  {
    if ss == [] then []
    else (if ss[0].scarType != "" then [ss[0].scarType] else []) + TypesOf(ss[1..])
  }

  class SymbolicGrouping {
    const scarLogic: ScarLogicCore
    const doctrineSpine: DoctrineSpine

    constructor (scarLogic: ScarLogicCore, doctrineSpine: DoctrineSpine)
      ensures this.scarLogic == scarLogic && this.doctrineSpine == doctrineSpine
    {
      this.scarLogic := scarLogic;
      this.doctrineSpine := doctrineSpine;
    }

    /** `group_scars_by_tag`: every scar carrying the tag, as often as it occurs, and nothing else. */
    function GroupScarsByTag(tag: string): (r: seq<Scar>)
      reads scarLogic
      ensures forall x :: multiset(r)[x] == if tag in x.tcaTags then multiset(scarLogic.scars)[x] else 0
    {
      FilterMultiset(scarLogic.scars, (s: Scar) => tag in s.tcaTags);
      Filter(scarLogic.scars, (s: Scar) => tag in s.tcaTags)
    }

    /** `group_scars_by_type`: every scar of the type, and nothing else. */
    function GroupScarsByType(scarType: string): (r: seq<Scar>)
      reads scarLogic
      ensures forall x :: multiset(r)[x] == if x.scarType == scarType then multiset(scarLogic.scars)[x] else 0
    {
      FilterMultiset(scarLogic.scars, (s: Scar) => s.scarType == scarType);
      Filter(scarLogic.scars, (s: Scar) => s.scarType == scarType)
    }

    /** `group_scars_by_reflex`: every scar linked to the reflex, and nothing else. */
    function GroupScarsByReflex(reflex: string): (r: seq<Scar>)
      reads scarLogic
      ensures forall x :: multiset(r)[x] == if reflex in x.reflexes then multiset(scarLogic.scars)[x] else 0
    {
      FilterMultiset(scarLogic.scars, (s: Scar) => reflex in s.reflexes);
      Filter(scarLogic.scars, (s: Scar) => reflex in s.reflexes)
    }

    /** `group_scars_by_status`: every scar in the decay state, and nothing else. */
    function GroupScarsByStatus(status: string): (r: seq<Scar>)
      reads scarLogic
      ensures forall x :: multiset(r)[x] == if x.decayState == status then multiset(scarLogic.scars)[x] else 0
    {
      FilterMultiset(scarLogic.scars, (s: Scar) => s.decayState == status);
      Filter(scarLogic.scars, (s: Scar) => s.decayState == status)
    }

    /** `group_doctrines_by_tag`: every doctrine carrying the tag, and nothing else. */
    function GroupDoctrinesByTag(tag: string): (r: seq<Doctrine>)
      reads doctrineSpine
      ensures forall x :: multiset(r)[x] == if tag in x.tcaTags then multiset(doctrineSpine.doctrines)[x] else 0
    {
      FilterMultiset(doctrineSpine.doctrines, (d: Doctrine) => tag in d.tcaTags);
      Filter(doctrineSpine.doctrines, (d: Doctrine) => tag in d.tcaTags)
    }

    /** `group_doctrines_by_status`: every doctrine with the status, and nothing else. */
    function GroupDoctrinesByStatus(status: string): (r: seq<Doctrine>)
      reads doctrineSpine
      ensures forall x :: multiset(r)[x] == if x.status == status then multiset(doctrineSpine.doctrines)[x] else 0
    {
      FilterMultiset(doctrineSpine.doctrines, (d: Doctrine) => d.status == status);
      Filter(doctrineSpine.doctrines, (d: Doctrine) => d.status == status)
    }

    /** `constellation_by_tag`: the scars and the doctrines that carry the tag. */
    function ConstellationByTag(tag: string): (r: (seq<Scar>, seq<Doctrine>))
      reads scarLogic, doctrineSpine
      ensures forall x :: x in r.0 <==> x in scarLogic.scars && tag in x.tcaTags
      ensures forall x :: x in r.1 <==> x in doctrineSpine.doctrines && tag in x.tcaTags
    {
      var scars := GroupScarsByTag(tag);
      var doctrines := GroupDoctrinesByTag(tag);
      assert forall x :: x in scars <==> multiset(scars)[x] > 0;
      assert forall x :: x in doctrines <==> multiset(doctrines)[x] > 0;
      (scars, doctrines)
    }

    /**
     * `constellation_by_reflex`: the scars linked to the reflex, and the
     * doctrines whose mutation lineage holds the reflex name.
     */
    function ConstellationByReflex(reflex: string): (r: (seq<Scar>, seq<Doctrine>))
      reads scarLogic, doctrineSpine
      ensures forall x :: x in r.0 <==> x in scarLogic.scars && reflex in x.reflexes
      ensures forall x :: x in r.1 <==> x in doctrineSpine.doctrines && reflex in x.mutationLineage
    {
      var scars := GroupScarsByReflex(reflex);
      assert forall x :: x in scars <==> multiset(scars)[x] > 0;
      (scars, Filter(doctrineSpine.doctrines, (d: Doctrine) => reflex in d.mutationLineage))
    }

    /** `find_scar_tags_for_id`: the tags of the first scar with the id, none for an unknown id. */
    function FindScarTags(scarId: string): (r: seq<string>)
      reads scarLogic
      ensures ScarById(scarLogic.scars, scarId).None? ==> r == []
      ensures ScarById(scarLogic.scars, scarId).Some? ==>
        exists s :: s in scarLogic.scars && s.id == scarId && r == s.tcaTags
    {
      match ScarById(scarLogic.scars, scarId)
      case None => []
      case Some(s) => s.tcaTags
    }

    /** `find_doctrine_tags_for_id`: the tags of the first doctrine with the id, none for an unknown id. */
    function FindDoctrineTags(doctrineId: string): (r: seq<string>)
      reads doctrineSpine
      ensures Lookup(doctrineSpine.doctrines, doctrineId).None? ==> r == []
      ensures Lookup(doctrineSpine.doctrines, doctrineId).Some? ==>
        exists d :: d in doctrineSpine.doctrines && d.id == doctrineId && r == d.tcaTags
    {
      match Lookup(doctrineSpine.doctrines, doctrineId)
      case None => []
      case Some(d) => d.tcaTags
    }

    /** `all_scar_tags`: sorted, duplicate-free, and exactly the tags some scar carries. */
    method AllScarTags() returns (r: seq<string>)
      ensures StrictlySorted(r) && Distinct(r)
      ensures forall y :: y in r <==> exists s :: s in scarLogic.scars && y in s.tcaTags
    {
      r := SortedUnion(scarLogic.scars, (s: Scar) => s.tcaTags);
    }

    /** `all_doctrine_tags`: sorted, duplicate-free, and exactly the tags some doctrine carries. */
    method AllDoctrineTags() returns (r: seq<string>)
      ensures StrictlySorted(r) && Distinct(r)
      ensures forall y :: y in r <==> exists d :: d in doctrineSpine.doctrines && y in d.tcaTags
    {
      r := SortedUnion(doctrineSpine.doctrines, (d: Doctrine) => d.tcaTags);
    }

    /** `all_scar_reflexes`: sorted, duplicate-free, and exactly the reflexes some scar names. */
    method AllScarReflexes() returns (r: seq<string>)
      ensures StrictlySorted(r) && Distinct(r)
      ensures forall y :: y in r <==> exists s :: s in scarLogic.scars && y in s.reflexes
    {
      r := SortedUnion(scarLogic.scars, (s: Scar) => s.reflexes);
    }

    /** `all_scar_types`: the distinct non-empty scar types, sorted. */
    function AllScarTypes(): (r: seq<string>)
      reads scarLogic
      ensures StrictlySorted(r) && Distinct(r)
      ensures forall t :: t in r <==> t != "" && exists s :: s in scarLogic.scars && s.scarType == t
    {
      SortedUniqueSorted(TypesOf(scarLogic.scars), []);
      StrictlySortedDistinct(SortedUnique(TypesOf(scarLogic.scars), []));
      SortedUnique(TypesOf(scarLogic.scars), [])
    }

    /** `list_linked_scars_for_doctrine`: existing scars only, none for an unknown doctrine. */
    function LinkedScarsForDoctrine(doctrineId: string): (r: seq<Scar>)
      reads scarLogic, doctrineSpine
      ensures forall x :: x in r ==> x in scarLogic.scars
      ensures Lookup(doctrineSpine.doctrines, doctrineId).None? ==> r == []
      ensures Lookup(doctrineSpine.doctrines, doctrineId).Some? ==>
        forall x :: x in r ==> x.id in Lookup(doctrineSpine.doctrines, doctrineId).value.scarLinks
    {
      match Lookup(doctrineSpine.doctrines, doctrineId)
      case None => []
      case Some(d) => ResolveScars(scarLogic.scars, d.scarLinks)
    }

    /** `list_linked_doctrines_for_scar`: existing doctrines only, none for an unknown scar. */
    function LinkedDoctrinesForScar(scarId: string): (r: seq<Doctrine>)
      reads scarLogic, doctrineSpine
      ensures forall x :: x in r ==> x in doctrineSpine.doctrines
      ensures ScarById(scarLogic.scars, scarId).None? ==> r == []
      ensures ScarById(scarLogic.scars, scarId).Some? ==>
        forall x :: x in r ==> x.id in ScarById(scarLogic.scars, scarId).value.linkedDoctrines
    {
      match ScarById(scarLogic.scars, scarId)
      case None => []
      case Some(s) => ResolveDoctrines(doctrineSpine.doctrines, s.linkedDoctrines)
    }

    /** What the lineage traversal keeps true of its shared `visited` set and `result` list. */
    ghost predicate LineageOk(visited: set<string>, result: seq<Doctrine>)
      reads doctrineSpine
    {
      && DistinctDoctrineIds(result)
      && (forall k :: 0 <= k < |result| ==> result[k].id in visited)
      && (forall x :: x in result ==> x in doctrineSpine.doctrines)
    }

    /**
     * The nested `_recurse` of `traverse_doctrine_lineage`: visits the id unless
     * it was seen or the result is full, appends the doctrine it names and
     * follows that doctrine's lineage entries in order.
     */
    method LineageFrom(did: string, depth: int, visited: set<string>, result: seq<Doctrine>)
      returns (visited': set<string>, result': seq<Doctrine>)
      requires LineageOk(visited, result)
      ensures LineageOk(visited', result')
      ensures visited <= visited' && |result| <= |result'| && result'[..|result|] == result
      ensures |result| <= depth ==> |result'| <= depth
      ensures did in visited || |result| >= depth || Lookup(doctrineSpine.doctrines, did).None? ==> result' == result
      ensures did !in visited && |result| < depth && Lookup(doctrineSpine.doctrines, did).Some? ==>
        |result'| > |result| && result'[|result|] == Lookup(doctrineSpine.doctrines, did).value
      decreases if |result| < depth then depth - |result| else 0
    {
      if did in visited || |result| >= depth {
        return visited, result;
      }
      visited' := visited + {did};
      result' := result;
      var found := doctrineSpine.GetDoctrine(did);
      if found.Some? {
        var d := found.value;
        result' := result + [d];
        var lineage := d.mutationLineage;
        for i := 0 to |lineage|
          invariant LineageOk(visited', result')
          invariant visited + {did} <= visited' && |result| < |result'| <= depth
          invariant result'[..|result| + 1] == result + [d]
        {
          ghost var before := result';
          visited', result' := LineageFrom(lineage[i], depth, visited', result');
          assert result'[..|result| + 1] == before[..|result| + 1];
        }
      }
    }

    /**
     * `traverse_doctrine_lineage`: at most `depth` doctrines, no id twice, all
     * from the spine, starting with the named doctrine when it exists.
     */
    method TraverseDoctrineLineage(doctrineId: string, depth: int) returns (result: seq<Doctrine>)
      ensures |result| <= if depth < 0 then 0 else depth
      ensures DistinctDoctrineIds(result)
      ensures forall x :: x in result ==> x in doctrineSpine.doctrines
      ensures Lookup(doctrineSpine.doctrines, doctrineId).None? || depth <= 0 ==> result == []
      ensures Lookup(doctrineSpine.doctrines, doctrineId).Some? && depth > 0 ==>
        |result| >= 1 && result[0] == Lookup(doctrineSpine.doctrines, doctrineId).value
    {
      var visited;
      visited, result := LineageFrom(doctrineId, depth, {}, []);
    }

    /** What the link traversal keeps true of its shared `visited` set and `chain` list. */
    ghost predicate ChainOk(visited: set<string>, chain: seq<Scar>)
      reads scarLogic
    {
      && DistinctScarIds(chain)
      && (forall k :: 0 <= k < |chain| ==> chain[k].id in visited)
      && (forall x :: x in chain ==> x in scarLogic.scars)
    }

    /**
     * The nested `_recurse` of `traverse_scar_links`: visits the scar id unless
     * it was seen or the chain is full, appends the scar and follows every
     * scar link of every doctrine the scar links to.
     */
    method ChainFrom(sid: string, depth: int, visited: set<string>, chain: seq<Scar>)
      returns (visited': set<string>, chain': seq<Scar>)
      requires ChainOk(visited, chain)
      ensures ChainOk(visited', chain')
      ensures visited <= visited' && |chain| <= |chain'| && chain'[..|chain|] == chain
      ensures |chain| <= depth ==> |chain'| <= depth
      ensures sid in visited || |chain| >= depth || ScarById(scarLogic.scars, sid).None? ==> chain' == chain
      ensures sid !in visited && |chain| < depth && ScarById(scarLogic.scars, sid).Some? ==>
        |chain'| > |chain| && chain'[|chain|] == ScarById(scarLogic.scars, sid).value
      decreases if |chain| < depth then depth - |chain| else 0
    {
      if sid in visited || |chain| >= depth {
        return visited, chain;
      }
      visited' := visited + {sid};
      chain' := chain;
      var found := scarLogic.GetScar(sid);
      if found.Some? {
        var s := found.value;
        chain' := chain + [s];
        var doctrineIds := s.linkedDoctrines;
        for i := 0 to |doctrineIds|
          invariant ChainOk(visited', chain')
          invariant visited + {sid} <= visited' && |chain| < |chain'| <= depth
          invariant chain'[..|chain| + 1] == chain + [s]
        {
          var doctrine := doctrineSpine.GetDoctrine(doctrineIds[i]);
          if doctrine.Some? {
            var links := doctrine.value.scarLinks;
            for j := 0 to |links|
              invariant ChainOk(visited', chain')
              invariant visited + {sid} <= visited' && |chain| < |chain'| <= depth
              invariant chain'[..|chain| + 1] == chain + [s]
            {
              ghost var before := chain';
              visited', chain' := ChainFrom(links[j], depth, visited', chain');
              assert chain'[..|chain| + 1] == before[..|chain| + 1];
            }
          }
        }
      }
    }

    /**
     * `traverse_scar_links`: at most `depth` scars, no id twice, all from the
     * scar list, starting with the named scar when it exists.
     */
    method TraverseScarLinks(scarId: string, depth: int) returns (chain: seq<Scar>)
      ensures |chain| <= if depth < 0 then 0 else depth
      ensures DistinctScarIds(chain)
      ensures forall x :: x in chain ==> x in scarLogic.scars
      ensures ScarById(scarLogic.scars, scarId).None? || depth <= 0 ==> chain == []
      ensures ScarById(scarLogic.scars, scarId).Some? && depth > 0 ==>
        |chain| >= 1 && chain[0] == ScarById(scarLogic.scars, scarId).value
    {
      var visited;
      visited, chain := ChainFrom(scarId, depth, {}, []);
    }
  }
}
