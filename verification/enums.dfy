/** The enumerations the controller interface takes from its base package:
    temperature units and ramp scales. Their members and tokens are not part
    of this model, so an enumeration is described by its table: member `m`
    (an index) has value `values[m]`, which is what the device sends and
    accepts, and renders as `labels[m]` when formatted into a command. */
module Enums {
  import opened Wrappers

  datatype EnumClass = EnumClass(values: seq<string>, labels: seq<string>) {

    /** One label per member and no two members sharing a value (no aliases). */
    predicate Valid() {
      && |labels| == |values|
      && forall i, j :: 0 <= i < j < |values| ==> values[i] != values[j]
    }

    predicate IsMember(m: nat) {
      m < |values|
    }

    /** Calling the enumeration with a value, as in `TempUnits(rsp)`: the member
        with that value, or nothing when no member has it (Python raises
        `ValueError`). */
    function Lookup(v: string): (r: Option<nat>)
      ensures r.Some? ==> IsMember(r.value) && values[r.value] == v
      ensures r.None? <==> v !in values
    {
      IndexOf(values, v)
    }
  }

  /** Position of the first occurrence of `v` in `s`. */
  function IndexOf(s: seq<string>, v: string): (r: Option<nat>)
    ensures r.Some? ==>
      && r.value < |s| && s[r.value] == v
      && forall j :: 0 <= j < r.value ==> s[j] != v
    ensures r.None? <==> v !in s
  {
    if s == [] then None
    else if s[0] == v then Some(0)
    else match IndexOf(s[1..], v)
      case None => None
      case Some(k) => Some(k + 1)
  }

  /** Every member is found again from its own value. */
  lemma LookupValue(e: EnumClass, m: nat)
    requires e.Valid() && e.IsMember(m)
    ensures e.Lookup(e.values[m]) == Some(m)
  {
  }
}
