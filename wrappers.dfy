/** Optional values and results with an error, standing in for Java's
    `Optional` and for the exceptions the batch steps throw. */
module Wrappers {

  datatype Option<+T> = None | Some(value: T)

  datatype Result<+T, +E> = Success(value: T) | Failure(error: E)
}
