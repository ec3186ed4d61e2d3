/**
 * The Scar Logic Core (src/filtration/scar_logic_core.py): the list of scars,
 * searched front to back by id.  Decaying a scar retires the first scar with
 * the id in place.
 */
module ScarLedger {
  import opened Wrappers
  import opened Records

  const ActiveState: string := "active"
  const RetiredState: string := "retired"

  /** The position of the first scar with the id, as the front-to-back search finds it. */
  function FirstScar(ss: seq<Scar>, id: string): (r: Option<nat>)
    ensures r.Some? ==> r.value < |ss| && ss[r.value].id == id && forall k :: 0 <= k < r.value ==> ss[k].id != id
    ensures r.None? ==> forall k :: 0 <= k < |ss| ==> ss[k].id != id
  {
    if ss == [] then None
    else if ss[0].id == id then Some(0)
    else match FirstScar(ss[1..], id)
      case None => None
      case Some(k) => Some(k + 1)
  }

  /** `get_scar` as a value: the first scar with the id, if any. */
  function ScarById(ss: seq<Scar>, id: string): (r: Option<Scar>)
    ensures r.None? <==> forall k :: 0 <= k < |ss| ==> ss[k].id != id
    ensures r.Some? ==> r.value in ss && r.value.id == id
  {
    match FirstScar(ss, id)
    case None => None
    case Some(k) => Some(ss[k])
  }

  /** Changing a scar in place without changing its id leaves it the first with that id. */
  lemma UpdateKeepsFirst(ss: seq<Scar>, id: string, s: Scar)
    requires FirstScar(ss, id).Some? && s.id == id
    ensures FirstScar(ss[FirstScar(ss, id).value := s], id) == FirstScar(ss, id)
    ensures ScarById(ss[FirstScar(ss, id).value := s], id) == Some(s)
  {
    var k := FirstScar(ss, id).value;
    var t := ss[k := s];
    assert t[k].id == id;
    assert forall j :: 0 <= j < k ==> t[j] == ss[j];
  }

  predicate IsActive(s: Scar)
  {
    s.decayState == ActiveState
  }

  function Retired(s: Scar): Scar
  {
    s.(decayState := RetiredState)
  }

  /** How many of the scars are active. */
  function ActiveCount(ss: seq<Scar>): nat
  {
    |Filter(ss, IsActive)|
  }

  /** Retiring the scar at position k removes one active scar if it was active, and none otherwise. */
  lemma {:induction false} RetireCount(ss: seq<Scar>, k: nat)
    requires k < |ss|
    ensures ActiveCount(ss[k := Retired(ss[k])]) == ActiveCount(ss) - (if IsActive(ss[k]) then 1 else 0)
  {
    var t := ss[k := Retired(ss[k])];
    assert t[1..] == if k == 0 then ss[1..] else ss[1..][k - 1 := Retired(ss[k])];
    if k > 0 {
      RetireCount(ss[1..], k - 1);
    }
    assert Filter(t, IsActive) == (if IsActive(t[0]) then [t[0]] else []) + Filter(t[1..], IsActive);
    assert Filter(ss, IsActive) == (if IsActive(ss[0]) then [ss[0]] else []) + Filter(ss[1..], IsActive);
  }

  class ScarLogicCore {
    var scars: seq<Scar>

    constructor ()
      ensures scars == []
    {
      scars := [];
    }

    /** `add_scar`: appended at the end. */
    method AddScar(s: Scar)
      modifies this
      ensures scars == old(scars) + [s]
      ensures ActiveCount(scars) == ActiveCount(old(scars)) + (if IsActive(s) then 1 else 0)
    {
      FilterAppend(scars, s, IsActive);
      scars := scars + [s];
    }

    /** `get_active_scars`: exactly the active scars, in list order. */
    function ActiveScars(): (r: seq<Scar>)
      reads this
      ensures forall x :: x in r <==> x in scars && x.decayState == "active"
      ensures |r| == ActiveCount(scars)
    {
      Filter(scars, IsActive)
    }

    /** `get_scar`: a front-to-back search returning the first match. */
    method GetScar(id: string) returns (r: Option<Scar>)
      ensures r == ScarById(scars, id)
    {
      var i := 0;
      while i < |scars|
        invariant 0 <= i <= |scars|
        invariant forall k :: 0 <= k < i ==> scars[k].id != id
      {
        if scars[i].id == id {
          return Some(scars[i]);
        }
        i := i + 1;
      }
      return None;
    }

    /**
     * `decay_scar`: retires the first scar with the id, which afterwards is the
     * one `get_scar` finds and is no longer active; an unknown id changes nothing.
     */
    method DecayScar(id: string) returns (decayed: bool)
      modifies this
      ensures decayed <==> ScarById(old(scars), id).Some?
      ensures decayed ==>
        var k := FirstScar(old(scars), id).value;
        && scars == old(scars)[k := Retired(old(scars)[k])]
        && ScarById(scars, id) == Some(Retired(old(scars)[k]))
        && !IsActive(ScarById(scars, id).value)
        && ActiveCount(scars) == ActiveCount(old(scars)) - (if IsActive(old(scars)[k]) then 1 else 0)
      ensures !decayed ==> scars == old(scars)
    {
      var s := GetScar(id);
      if s.Some? {
        var k := FirstScar(scars, id).value;
        RetireCount(scars, k);
        UpdateKeepsFirst(scars, id, Retired(scars[k]));
        scars := scars[k := Retired(scars[k])];
        return true;
      }
      return false;
    }
  }
}
