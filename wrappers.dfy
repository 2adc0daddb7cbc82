/** Optional values and failing computations: the model of the source's `null` / `undefined` results and thrown errors. */
module Wrappers {
  datatype Option<+T> = None | Some(value: T)

  /** A computation that either yields a value or throws an error with this message. */
  datatype Result<+T> = Success(value: T) | Failure(error: string)
}
