/** Result types shared by the protocol models.
    A Python `raise Exception(...)` becomes a `Failure` carrying the error. */
module Wrappers {

  /** Either the value a computation produced or the error that stopped it. */
  datatype Result<+T, +E> = Success(value: T) | Failure(error: E)

  /** A check that either passes or fails with an error. */
  datatype Outcome<+E> = Pass | Fail(error: E)

  /** Passes when `condition` holds, fails with `error` otherwise. */
  function Need<E>(condition: bool, error: E): (o: Outcome<E>)
    ensures o.Pass? <==> condition
    ensures o.Fail? ==> o.error == error
  {
    if condition then Pass else Fail(error)
  }
}
