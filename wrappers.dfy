/** Failure-carrying return types: the model's stand-in for the source's
    exceptions (HTTPException, RuntimeError) and `None` results. */
module Wrappers {

  datatype Option<+T> = None | Some(value: T)

  datatype Result<+T, +E> = Success(value: T) | Failure(error: E)

  /** A computation that either completes or fails with an error value. */
  datatype Outcome<+E> = Pass | Fail(error: E)
}
