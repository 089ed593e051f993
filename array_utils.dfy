/**
 * The two sequence helpers the dispatch handler relies on. Their implementation
 * lives in `backEnd/src/util/arrayUtils`, which is not part of this model; the
 * functions below state the semantics the handler assumes of them.
 */
module ArrayUtils {
  import opened Wrappers

  /**
   * `first`: scan the elements in order and stop at the first one the callback
   * accepts. The result is that element's index, or None when no element is
   * accepted.
   *
   * The handler passes an async callback. The model assumes that `first`
   * awaits each callback before it calls the next one, and that a callback
   * whose promise rejects ends the scan and makes `first` reject. Here the
   * callback is a pure `T -> bool`; the rejecting case is modelled by the
   * handler itself (outcome `Rejected` in MockServer).
   */
  function First<T>(s: seq<T>, p: T -> bool): (r: Option<nat>)
    ensures r.Some? ==> r.value < |s| && p(s[r.value])
    ensures r.Some? ==> forall j :: 0 <= j < r.value ==> !p(s[j])
    ensures r.None? <==> forall j :: 0 <= j < |s| ==> !p(s[j])
    decreases |s|
  {
    if |s| == 0 then None
    else if p(s[0]) then Some(0)
    else
      match First(s[1..], p)
      case None => None
      case Some(k) => Some(k + 1)
  }

  /** `validAll`: true exactly when the callback accepts every element (so true on []). */
  function ValidAll<T>(s: seq<T>, p: T -> bool): (r: bool)
    ensures r <==> forall i :: 0 <= i < |s| ==> p(s[i])
    decreases |s|
  {
    if |s| == 0 then true else p(s[0]) && ValidAll(s[1..], p)
  }
}
