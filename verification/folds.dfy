/**
 * Option lists as the tools' getopt loops see them: the last occurrence of
 * an option wins, and a flag is set when it occurs anywhere.
 */
module Folds {

  datatype Option<T> = None | Some(value: T)

  /** The last element satisfying `p`, if there is one. */
  function LastWhere<T>(xs: seq<T>, p: T -> bool): (r: Option<T>)
    ensures r.None? <==> forall i :: 0 <= i < |xs| ==> !p(xs[i])
    ensures r.Some? ==> exists i :: 0 <= i < |xs| && xs[i] == r.value && p(xs[i]) &&
                                    forall j :: i < j < |xs| ==> !p(xs[j])
  {
    if |xs| == 0 then None
    else match LastWhere(xs[1..], p)
      case Some(v) => Some(v)
      case None =>
        if p(xs[0]) then Some(xs[0]) else None
  }

  /** Whether some element satisfies `p`. */
  predicate AnyWhere<T>(xs: seq<T>, p: T -> bool) {
    exists i :: 0 <= i < |xs| && p(xs[i])
  }

  /** The first element satisfying `p`, if there is one. */
  function FirstWhere<T>(xs: seq<T>, p: T -> bool): (r: Option<T>)
    ensures r.None? <==> forall i :: 0 <= i < |xs| ==> !p(xs[i])
    ensures r.Some? ==> exists i :: 0 <= i < |xs| && xs[i] == r.value && p(xs[i]) &&
                                    forall j :: 0 <= j < i ==> !p(xs[j])
  {
    if |xs| == 0 then None
    else if p(xs[0]) then Some(xs[0])
    else FirstWhere(xs[1..], p)
  }

  /** Prepending an element changes the last match only when the rest has none. */
  lemma LastWhereCons<T>(x: T, xs: seq<T>, p: T -> bool)
    ensures LastWhere([x] + xs, p) ==
            match LastWhere(xs, p)
            case Some(v) => Some(v)
            case None => if p(x) then Some(x) else None
  {
    assert ([x] + xs)[1..] == xs;
  }

  lemma AnyWhereCons<T>(x: T, xs: seq<T>, p: T -> bool)
    ensures AnyWhere([x] + xs, p) == (p(x) || AnyWhere(xs, p))
  {
    if p(x) {
      assert ([x] + xs)[0] == x;
    }
    if AnyWhere(xs, p) {
      var i :| 0 <= i < |xs| && p(xs[i]);
      assert ([x] + xs)[i + 1] == xs[i];
    }
    if AnyWhere([x] + xs, p) && !p(x) {
      var i :| 0 <= i < |[x] + xs| && p(([x] + xs)[i]);
      assert i > 0 && xs[i - 1] == ([x] + xs)[i];
    }
  }
}
