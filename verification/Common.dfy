/** Types shared by the services. */
module Common {
  datatype Option<+T> = None | Some(value: T)

  /** The exceptions a request can end with. `LateError` is one that follows the request's own
      write; `NotAStep` marks a request whose recorded query answer the database could not have given. */
  datatype Error = NotFound | BadRequest | Forbidden | Conflict | DatabaseError | LateError | NotAStep

  datatype Result<+T> = Success(value: T) | Failure(error: Error) {
    predicate IsFailure() { Failure? }

    function PropagateFailure<U>(): Result<U>
      requires Failure?
    {
      Failure(error)
    }

    function Extract(): T
      requires Success?
    {
      value
    }
  }

  /** A guard of a request: the request fails with `error` unless `ok`. */
  function Check(ok: bool, error: Error): Result<()> {
    if ok then Success(()) else Failure(error)
  }

  /** The outcome `r` of a request has been carried out on the tables `D`: committed, or refused without
      a trace. */
  ghost predicate CarriedOut<D>(before: D, after: D, r: Result<D>, error: Option<Error>) {
    match r
    case Success(d) => after == d && error == None
    case Failure(e) => after == before && error == Some(e)
  }

  ghost predicate Distinct<T>(s: seq<T>) {
    forall i, j | 0 <= i < j < |s| :: s[i] != s[j]
  }
}
