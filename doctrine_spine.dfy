/**
 * The Doctrine Spine (src/doctrine/doctrine_spine.py): the list of doctrines,
 * searched front to back by id.  Linking a scar and renaming a doctrine change
 * the first doctrine with the id in place.
 */
module DoctrineLedger {
  import opened Wrappers
  import opened Records

  /** The position of the first doctrine with the id, as the front-to-back search finds it. */
  function FirstDoctrine(ds: seq<Doctrine>, id: string): (r: Option<nat>)
    ensures r.Some? ==> r.value < |ds| && ds[r.value].id == id && forall k :: 0 <= k < r.value ==> ds[k].id != id
    ensures r.None? ==> forall k :: 0 <= k < |ds| ==> ds[k].id != id
  {
    if ds == [] then None
    else if ds[0].id == id then Some(0)
    else match FirstDoctrine(ds[1..], id)
      case None => None
      case Some(k) => Some(k + 1)
  }

  /** `get_doctrine` as a value: the first doctrine with the id, if any. */
  function Lookup(ds: seq<Doctrine>, id: string): (r: Option<Doctrine>)
    ensures r.None? <==> forall k :: 0 <= k < |ds| ==> ds[k].id != id
    ensures r.Some? ==> r.value in ds && r.value.id == id
  {
    match FirstDoctrine(ds, id)
    case None => None
    case Some(k) => Some(ds[k])
  }

  /** A doctrine with one more linked scar. */
  function Linked(d: Doctrine, scarId: string): Doctrine
  {
    d.(scarLinks := d.scarLinks + [scarId])
  }

  /** A renamed doctrine whose lineage remembers the old name. */
  function Mutated(d: Doctrine, newName: string): Doctrine
  {
    d.(mutationLineage := d.mutationLineage + [d.name], name := newName)
  }

  /** Changing a doctrine in place without changing its id leaves it the first with that id. */
  lemma UpdateKeepsFirst(ds: seq<Doctrine>, id: string, d: Doctrine)
    requires FirstDoctrine(ds, id).Some? && d.id == id
    ensures FirstDoctrine(ds[FirstDoctrine(ds, id).value := d], id) == FirstDoctrine(ds, id)
    ensures Lookup(ds[FirstDoctrine(ds, id).value := d], id) == Some(d)
  {
    var k := FirstDoctrine(ds, id).value;
    var t := ds[k := d];
    assert t[k].id == id;
    assert forall j :: 0 <= j < k ==> t[j] == ds[j];
  }

  class DoctrineSpine {
    var doctrines: seq<Doctrine>

    constructor ()
      ensures doctrines == []
    {
      doctrines := [];
    }

    /** `add_doctrine`: appended at the end. */
    method AddDoctrine(d: Doctrine)
      modifies this
      ensures doctrines == old(doctrines) + [d]
    {
      doctrines := doctrines + [d];
    }

    /** `get_doctrine`: a front-to-back search returning the first match. */
    method GetDoctrine(id: string) returns (r: Option<Doctrine>)
      ensures r == Lookup(doctrines, id)
      ensures r.Some? ==> exists k :: 0 <= k < |doctrines| && doctrines[k] == r.value && r.value.id == id &&
                                  forall j :: 0 <= j < k ==> doctrines[j].id != id
    {
      var i := 0;
      while i < |doctrines|
        invariant 0 <= i <= |doctrines|
        invariant forall k :: 0 <= k < i ==> doctrines[k].id != id
      {
        if doctrines[i].id == id {
          return Some(doctrines[i]);
        }
        i := i + 1;
      }
      return None;
    }

    /**
     * `link_scar`: links the scar to the first doctrine with the id, unless it
     * is unknown or already linked; so it never adds a duplicate link.
     */
    method LinkScar(doctrineId: string, scarId: string) returns (linked: bool)
      modifies this
      ensures linked <==> Lookup(old(doctrines), doctrineId).Some? && scarId !in Lookup(old(doctrines), doctrineId).value.scarLinks
      ensures linked ==>
        var k := FirstDoctrine(old(doctrines), doctrineId).value;
        doctrines == old(doctrines)[k := Linked(old(doctrines)[k], scarId)]
      ensures !linked ==> doctrines == old(doctrines)
      ensures Lookup(doctrines, doctrineId).Some? <==> Lookup(old(doctrines), doctrineId).Some?
      ensures Lookup(doctrines, doctrineId).Some? ==> scarId in Lookup(doctrines, doctrineId).value.scarLinks
      ensures forall k :: 0 <= k < |doctrines| && Distinct(old(doctrines)[k].scarLinks) ==> Distinct(doctrines[k].scarLinks)
    {
      var d := GetDoctrine(doctrineId);
      if d.Some? && scarId !in d.value.scarLinks {
        var k := FirstDoctrine(doctrines, doctrineId).value;
        UpdateKeepsFirst(doctrines, doctrineId, Linked(doctrines[k], scarId));
        doctrines := doctrines[k := Linked(doctrines[k], scarId)];
        return true;
      }
      return false;
    }

    /**
     * `mutate_doctrine`: renames the first doctrine with the id, appending its
     * old name to its lineage; an unknown id changes nothing.
     */
    method MutateDoctrine(doctrineId: string, newName: string) returns (mutated: bool)
      modifies this
      ensures mutated <==> Lookup(old(doctrines), doctrineId).Some?
      ensures mutated ==>
        var old_ := Lookup(old(doctrines), doctrineId).value;
        && Lookup(doctrines, doctrineId) == Some(Mutated(old_, newName))
        && Lookup(doctrines, doctrineId).value.mutationLineage == old_.mutationLineage + [old_.name]
        && doctrines == old(doctrines)[FirstDoctrine(old(doctrines), doctrineId).value := Mutated(old_, newName)]
      ensures !mutated ==> doctrines == old(doctrines)
      ensures |doctrines| == |old(doctrines)|
    {
      var d := GetDoctrine(doctrineId);
      if d.Some? {
        var k := FirstDoctrine(doctrines, doctrineId).value;
        UpdateKeepsFirst(doctrines, doctrineId, Mutated(doctrines[k], newName));
        doctrines := doctrines[k := Mutated(doctrines[k], newName)];
        return true;
      }
      return false;
    }
  }
}
