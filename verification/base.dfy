/**
 * Failure-carrying wrappers shared by every module, and the fail-fast scan
 * that all of the SDK's presence checks are built on.
 */
module Base {

  datatype Option<+T> = None | Some(value: T)

  datatype Result<+T, +E> = Ok(value: T) | Err(error: E)

  /**
   * Scans `xs` left to right and returns the index of the first element that
   * fails `ok`, or None when every element passes. This is the shape of each
   * chain of `if (!...) throw` checks in the SDK: the first failing check is
   * the one reported and nothing after it is looked at.
   */
  function FirstFailing<T>(xs: seq<T>, ok: T -> bool): (r: Option<nat>)
    ensures r.None? <==> forall i | 0 <= i < |xs| :: ok(xs[i])
    ensures r.Some? ==> r.value < |xs| && !ok(xs[r.value])
    ensures r.Some? ==> forall i | 0 <= i < r.value :: ok(xs[i])
    decreases |xs|
  {
    if |xs| == 0 then None
    else if !ok(xs[0]) then Some(0)
    else
      match FirstFailing(xs[1..], ok)
      case None => None
      case Some(j) => Some(j + 1)
  }
}
