/** Failure-compatible wrappers used throughout the model: an optional value
    and a success-or-error result, both usable with `:-`. */
module Wrappers {

  datatype Option<+T> = None | Some(value: T) {

    predicate IsFailure() {
      None?
    }

    function PropagateFailure<U>(): Option<U>
      requires None?
    {
      None
    }

    function Extract(): T
      requires Some?
    {
      value
    }
  }

  /** The outcome of a translation step: a value, or the error the Python
      code would have raised. */
  datatype Result<+R, +E> = Success(value: R) | Failure(error: E) {

    predicate IsFailure() {
      Failure?
    }

    function PropagateFailure<U>(): Result<U, E>
      requires Failure?
    {
      Failure(error)
    }

    function Extract(): R
      requires Success?
    {
      value
    }
  }

  /** `f` fails on `xs[i]` with `e`, and succeeds on every item before it. */
  ghost predicate FirstFailureAt<T, U, E>(xs: seq<T>, f: T -> Result<U, E>, i: int, e: E) {
    && 0 <= i < |xs|
    && f(xs[i]) == Failure(e)
    && forall j :: 0 <= j < i ==> f(xs[j]).Success?
  }

  /** Applies `f` to every item in order, stopping at the first failure (a
      loop that appends each result and lets an exception escape). */
  function MapResults<T, U, E>(xs: seq<T>, f: T -> Result<U, E>): (r: Result<seq<U>, E>)
    ensures r.Success? <==> forall i :: 0 <= i < |xs| ==> f(xs[i]).Success?
    ensures r.Success? ==>
      && |r.value| == |xs|
      && forall i :: 0 <= i < |xs| ==> f(xs[i]) == Success(r.value[i])
    ensures r.Failure? ==> exists i :: FirstFailureAt(xs, f, i, r.error)
  {
    if |xs| == 0 then Success([])
    else
      assert forall i :: 1 <= i < |xs| ==> xs[i] == xs[1..][i - 1];
      match f(xs[0])
      case Failure(e) =>
        assert FirstFailureAt(xs, f, 0, e);
        Failure(e)
      case Success(u) =>
        match MapResults(xs[1..], f)
        case Failure(e) =>
          assert exists i :: FirstFailureAt(xs, f, i, e) by {
            var i :| FirstFailureAt(xs[1..], f, i, e);
            assert FirstFailureAt(xs, f, i + 1, e);
          }
          Failure(e)
        case Success(rest) =>
          Success([u] + rest)
  }
}
