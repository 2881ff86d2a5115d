/** Optional values and results with an error, standing in for Java's null
    returns and for the unchecked exceptions that end a call early. */
module Wrappers {

  datatype Option<+T> = None | Some(value: T)

  datatype Result<+R, +E> = Success(value: R) | Failure(error: E)
}
