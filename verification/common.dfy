/**
 * Failure-carrying wrappers shared by every module of the model.
 * `Option` stands for a JavaScript value that may be null or undefined,
 * `Result` for an operation that either produces a value or fails with
 * one of the error kinds the handlers report.
 */
module Common {

  datatype Option<T> = None | Some(value: T)

  datatype Result<T, E> = Success(value: T) | Failure(error: E)

  /** `a ?? b` on an optional value. */
  function OrElse<T>(o: Option<T>, default: T): (r: T)
    ensures o.Some? ==> r == o.value
    ensures o.None? ==> r == default
  {
    match o
    case Some(v) => v
    case None => default
  }
}
