/** The two ways a step of the monitor can come out short. `Option` is a
    Python value that may be `None`; `Result` is a normal return or the
    exception that stops the run, and its three members let `:-` hand an
    exception on to the caller. */
module Outcomes {

  datatype Option<+T> = None | Some(value: T) {

    /** The wrapped value, or `default` when there is none. */
    function GetOr(default: T): T {
      match this
      case Some(v) => v
      case None => default
    }
  }

  datatype Result<+T, +E> = Success(value: T) | Failure(error: E) {

    predicate IsFailure() {
      Failure?
    }

    function PropagateFailure<U>(): Result<U, E>
      requires Failure?
    {
      Failure(error)
    }

    function Extract(): T
      requires Success?
    {
      value
    }
  }

  /** Each element's result in order, or the error of the first element
      whose result is an error: a loop that stops at the first exception. */
  function Collect<T, R, E(==)>(xs: seq<T>, f: T --> Result<R, E>): (r: Result<seq<R>, E>)
    requires forall i :: 0 <= i < |xs| ==> f.requires(xs[i])
    ensures r.Success? <==> forall i :: 0 <= i < |xs| ==> f(xs[i]).Success?
    ensures r.Success? ==> |r.value| == |xs| && forall i :: 0 <= i < |xs| ==> r.value[i] == f(xs[i]).value
    ensures r.Failure? ==>
      exists i :: 0 <= i < |xs| && f(xs[i]).Failure? && f(xs[i]).error == r.error && forall j :: 0 <= j < i ==> f(xs[j]).Success?
    decreases |xs|
  {
    if |xs| == 0 then Success([])
    else
      var head := f(xs[0]);
      if head.Failure? then
        Failure(head.error)
      else
        var rest := Collect(xs[1..], f);
        assert forall i :: 0 < i < |xs| ==> xs[i] == xs[1..][i - 1];
        if rest.Failure? then
          var i :| 0 <= i < |xs[1..]| && f(xs[1..][i]).Failure? && f(xs[1..][i]).error == rest.error
                   && forall j :: 0 <= j < i ==> f(xs[1..][j]).Success?;
          assert f(xs[i + 1]).Failure? && f(xs[i + 1]).error == rest.error;
          Failure(rest.error)
        else
          Success([head.value] + rest.value)
  }
}
