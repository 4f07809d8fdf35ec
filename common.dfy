/** Outcome types shared by the model: optional values, and results that
    carry either a value or one of the exceptions the calendar raises. */
module Common {

  datatype Option<T> = None | Some(value: T)

  /** The exception classes the calendar raises and catches. */
  datatype Failure =
    | ValidationError(message: string)
    | StorageError(message: string)
    | IntentParseError(message: string)
    | ValueError(message: string)
    | StructuredCommandError(message: string)
    | TypeError(message: string)

  datatype Result<T> = Ok(value: T) | Fail(failure: Failure)

  /** Each item mapped through f, in order, stopping at the first failure:
      the failure returned is that of the first item that fails. */
  function MapResult<A, B>(xs: seq<A>, f: A -> Result<B>): (r: Result<seq<B>>)
    ensures r.Ok? ==> |r.value| == |xs| && forall i :: 0 <= i < |xs| ==> f(xs[i]) == Ok(r.value[i])
    ensures r.Fail? ==> exists i :: 0 <= i < |xs| && f(xs[i]) == Fail(r.failure) && forall j :: 0 <= j < i ==> f(xs[j]).Ok?
    decreases |xs|
  {
    if |xs| == 0 then Ok([])
    else
      var front := xs[..|xs| - 1];
      match MapResult(front, f)
      case Fail(e) =>
        assert forall i :: 0 <= i < |front| ==> front[i] == xs[i];
        Fail(e)
      case Ok(init) =>
        match f(xs[|xs| - 1])
        case Fail(e) =>
          assert forall j :: 0 <= j < |front| ==> front[j] == xs[j] && f(xs[j]).Ok?;
          Fail(e)
        case Ok(b) =>
          assert forall i :: 0 <= i < |front| ==> front[i] == xs[i] && (init + [b])[i] == init[i];
          Ok(init + [b])
  }

  /** When every item maps to a value, the whole map succeeds with them. */
  lemma {:induction false} MapResultAllOk<A, B>(xs: seq<A>, f: A -> Result<B>, ys: seq<B>)
    requires |ys| == |xs|
    requires forall i :: 0 <= i < |xs| ==> f(xs[i]) == Ok(ys[i])
    ensures MapResult(xs, f) == Ok(ys)
    decreases |xs|
  {
    if |xs| > 0 {
      var n := |xs| - 1;
      var front, init := xs[..n], ys[..n];
      assert forall i :: 0 <= i < n ==> front[i] == xs[i] && init[i] == ys[i];
      MapResultAllOk(front, f, init);
      assert init + [ys[n]] == ys;
    }
  }
}
