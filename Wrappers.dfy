/** Failure-compatible result types and the Python exceptions the modelled code can raise. */
module Wrappers {

  datatype Option<+T> = None | Some(value: T)

  datatype Result<+T, +E> = Success(value: T) | Failure(error: E) {
    predicate IsFailure() { Failure? }
    function PropagateFailure<U>(): Result<U, E>
      requires Failure?
    {
      Failure(error)
    }
    function Extract(): T
      requires Success?
    {
      value
    }
  }

  datatype Outcome<+E> = Pass | Fail(error: E)

  /** The values of a sequence of results in order, or the first failure among them: what a
      loop or generator that raises at the first failing item produces. */
  function Gather<T, E>(rs: seq<Result<T, E>>): (r: Result<seq<T>, E>)
    ensures r.Success? <==> forall k :: 0 <= k < |rs| ==> rs[k].Success?
    ensures r.Success? ==> |r.value| == |rs| && forall k :: 0 <= k < |rs| ==> r.value[k] == rs[k].value
    ensures r.Failure? ==>
      exists k :: 0 <= k < |rs| && rs[k] == Failure(r.error) && forall j :: 0 <= j < k ==> rs[j].Success?
  {
    if rs == [] then Success([])
    else
      assert forall k :: 1 <= k < |rs| ==> rs[k] == rs[1..][k - 1];
      var head :- rs[0];
      var tail :- Gather(rs[1..]);
      Success([head] + tail)
  }

  /** The exceptions the modelled code can raise. */
  datatype Error =
    | KeyError(key: string)  // a column name or mapping key that is not present
    | TypeError              // an operation applied to a value of the wrong kind
    | AttributeError         // a method called on a value that does not have it
    | ValueError             // int() of a malformed string, np.stack of nothing, a bad quantile
    | IndexError             // a list or array index out of range
    | ZeroDivisionError      // `x % 0`
}
