/** Small shared building blocks: an optional value and first-match search. */
module Base {

  /** A value that may be absent: Python's `None` versus a present value. */
  datatype Option<+T> = None | Some(value: T) {

    /** The present value, or `default` when absent (Python's `dict.get(key, default)`). */
    function GetOr(default: T): T {
      match this
      case Some(v) => v
      case None => default
    }
  }

  /** The index of the first element of `xs` satisfying `p`: a `for` loop over a
      table that stops at the first hit with `break`. */
  function FirstWhere<T>(xs: seq<T>, p: T -> bool): (r: Option<nat>)
    ensures r.Some? ==> r.value < |xs| && p(xs[r.value])
    ensures r.Some? ==> forall j :: 0 <= j < r.value ==> !p(xs[j])
    ensures r.None? <==> forall j :: 0 <= j < |xs| ==> !p(xs[j])
  {
    if |xs| == 0 then None
    else if p(xs[0]) then Some(0)
    else
      match FirstWhere(xs[1..], p)
      case None => None
      case Some(k) => Some(k + 1)
  }

  /** Two tables that agree everywhere except at one entry, which neither satisfies, both
      have a satisfying entry or both have none. */
  lemma FirstWhereAgree<T>(xs: seq<T>, ys: seq<T>, p: T -> bool, skip: nat)
    requires |xs| == |ys| && skip < |xs|
    requires forall i :: 0 <= i < |xs| && i != skip ==> xs[i] == ys[i]
    requires !p(xs[skip]) && !p(ys[skip])
    ensures FirstWhere(xs, p).Some? <==> FirstWhere(ys, p).Some?
  {
    if FirstWhere(xs, p).Some? {
      var i := FirstWhere(xs, p).value;
      assert p(ys[i]);
    }
    if FirstWhere(ys, p).Some? {
      var i := FirstWhere(ys, p).value;
      assert p(xs[i]);
    }
  }
}
