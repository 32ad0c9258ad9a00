/**
 * Picking the first smallest value. Both Python's `min(items, key=...)` and a
 * loop that replaces its candidate only on a strictly smaller value keep the
 * FIRST minimal element; absent values (`None` here) are never candidates.
 */
module Selection {
  import opened Common

  /** k is the position of the first smallest present value of vals. */
  predicate IsFirstMin(vals: seq<Option<real>>, k: int)
  {
    && 0 <= k < |vals|
    && vals[k].Some?
    && (forall j :: 0 <= j < |vals| && vals[j].Some? ==> vals[k].value <= vals[j].value)
    && (forall j :: 0 <= j < k && vals[j].Some? ==> vals[k].value < vals[j].value)
  }

  /** The strict-< scan over vals, as a function of the values scanned. */
  function FirstMin(vals: seq<Option<real>>): (r: Option<nat>)
    ensures r.None? <==> forall j :: 0 <= j < |vals| ==> vals[j].None?
    ensures r.Some? ==> IsFirstMin(vals, r.value)
  {
    if vals == [] then None
    else
      var prev := FirstMin(vals[..|vals| - 1]);
      var x := vals[|vals| - 1];
      if x.None? then prev
      else if prev.None? then Some(|vals| - 1)
      else if x.value < vals[prev.value].value then Some(|vals| - 1)
      else prev
  }

  /** The first minimum is unique: the scan is deterministic in the order of vals. */
  lemma FirstMinUnique(vals: seq<Option<real>>, k1: int, k2: int)
    requires IsFirstMin(vals, k1) && IsFirstMin(vals, k2)
    ensures k1 == k2
  {
  }
}
