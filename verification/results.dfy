/** Outcomes of the generator's operations.
    The Java code signals failure by throwing; the model returns a `Result`
    whose failure names the Java exception that would have been thrown. */
module Results {

  /** The runtime exceptions the modelled code can raise. */
  datatype Failure =
    | StringIndexOutOfBounds  // `substring(0, 1)` applied to an empty string
    | NullPointer             // `toString()` on a missing constant value

  /** Either a value or the exception that aborted the computation.
      Usable with `:-`. */
  datatype Result<+T> = Ok(value: T) | Err(failure: Failure) {

    predicate IsFailure() {
      Err?
    }

    function PropagateFailure<U>(): Result<U>
      requires Err?
    {
      Err(failure)
    }

    function Extract(): T
      requires Ok?
    {
      value
    }
  }

  /** A possibly absent value (an XML attribute that was not set, say). */
  datatype Option<+T> = None | Some(value: T)

  /** Collects a sequence of results: the values when every element succeeded,
      the first failure otherwise (the order a Java stream would throw in). */
  function AllOk<T>(rs: seq<Result<T>>): (r: Result<seq<T>>)
    ensures r.Ok? <==> forall i :: 0 <= i < |rs| ==> rs[i].Ok?
    ensures r.Ok? ==> |r.value| == |rs| && forall i :: 0 <= i < |rs| ==> r.value[i] == rs[i].value
  {
    if |rs| == 0 then Ok([])
    else if rs[0].Err? then Err(rs[0].failure)
    else
      var rest := AllOk(rs[1..]);
      if rest.Err? then rest
      else Ok([rs[0].value] + rest.value)
  }
}
