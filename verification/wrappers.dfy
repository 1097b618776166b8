/** Failure-compatible result types used to model the thrown errors of the
    builder as values. */
module Wrappers {

  /** A value that may be absent (the source's `undefined` / `null`). */
  datatype Option<+T> = None | Some(value: T) {
    function GetOr(default: T): T {
      match this
      case Some(v) => v
      case None => default
    }
  }

  /** Either a computed value or the error the source would throw. */
  datatype Result<+R, +E> = Success(value: R) | Failure(error: E) {
    predicate IsFailure() {
      Failure?
    }

    function PropagateFailure<U>(): Result<U, E>
      requires Failure?
    {
      Failure(error)
    }

    function Extract(): R
      requires Success?
    {
      value
    }
  }

  /** The values of a run of results evaluated in order, or the error of
      the first failure, as a JavaScript `map` whose callback throws. */
  function Collect<R, E>(rs: seq<Result<R, E>>): (r: Result<seq<R>, E>)
    ensures r.Success? <==> forall i :: 0 <= i < |rs| ==> rs[i].Success?
    ensures r.Success? ==> |r.value| == |rs| && forall i :: 0 <= i < |rs| ==> r.value[i] == rs[i].value
    ensures r.Failure? ==>
              exists k :: 0 <= k < |rs| && rs[k] == Failure(r.error)
                && forall j :: 0 <= j < k ==> rs[j].Success?
  {
    if |rs| == 0 then Success([])
    else
      match rs[0]
      case Failure(e) => Failure(e)
      case Success(v) =>
        match Collect(rs[1..])
        case Failure(e) =>
          ghost var k :| 0 <= k < |rs[1..]| && rs[1..][k] == Failure(e)
              && forall j :: 0 <= j < k ==> rs[1..][j].Success?;
          assert rs[k + 1] == Failure(e);
          Failure(e)
        case Success(vs) => Success([v] + vs)
  }
}
