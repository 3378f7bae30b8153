/** Failure-compatible wrappers used throughout the model: `Option` for values
    that JavaScript leaves `undefined`, and `Result` for operations that throw. */
module Wrappers {

  datatype Option<+T> = None | Some(value: T) {
    predicate IsFailure() { None? }

    function PropagateFailure<U>(): Option<U>
      requires None?
    {
      None
    }

    function Extract(): T
      requires Some?
    {
      value
    }
  }

  /** `Failure` carries the message of the JavaScript exception that the source throws. */
  datatype Result<+R> = Success(value: R) | Failure(error: string) {
    predicate IsFailure() { Failure? }

    function PropagateFailure<U>(): Result<U>
      requires Failure?
    {
      Failure(error)
    }

    function Extract(): R
      requires Success?
    {
      value
    }
  }

  /** `xs.forEach(x => out.push(f(x)))` when `f` may throw: every result in
      order, or the first exception, which ends the loop. */
  function MapAll<A, B>(xs: seq<A>, f: A -> Result<B>): (r: Result<seq<B>>)
    ensures r.Success? <==> forall i :: 0 <= i < |xs| ==> f(xs[i]).Success?
    ensures r.Success? ==> |r.value| == |xs| && forall i :: 0 <= i < |xs| ==> r.value[i] == f(xs[i]).value
    decreases |xs|
  {
    if |xs| == 0 then Success([])
    else
      var y :- f(xs[0]);
      var rest :- MapAll(xs[1..], f);
      assert forall i :: 1 <= i < |xs| ==> xs[i] == xs[1..][i - 1];
      Success([y] + rest)
  }

  /** A failed `MapAll` reports the exception of the first element that throws. */
  lemma {:induction false} MapAllFirstFailure<A, B>(xs: seq<A>, f: A -> Result<B>)
    requires MapAll(xs, f).Failure?
    ensures exists i :: 0 <= i < |xs| && f(xs[i]).Failure? && MapAll(xs, f).error == f(xs[i]).error
                        && forall j :: 0 <= j < i ==> f(xs[j]).Success?
    decreases |xs|
  {
    if f(xs[0]).Failure? {
      assert 0 < |xs| && f(xs[0]).Failure? && MapAll(xs, f).error == f(xs[0]).error;
    } else {
      MapAllFirstFailure(xs[1..], f);
      var i :| 0 <= i < |xs| - 1 && f(xs[1..][i]).Failure? && MapAll(xs[1..], f).error == f(xs[1..][i]).error
               && forall j :: 0 <= j < i ==> f(xs[1..][j]).Success?;
      assert forall j :: 0 <= j < i + 1 ==> f(xs[j]).Success? by {
        forall j | 0 <= j < i + 1
          ensures f(xs[j]).Success?
        {
          if j > 0 {
            assert xs[j] == xs[1..][j - 1];
          }
        }
      }
      assert xs[i + 1] == xs[1..][i];
    }
  }
}
