/** Optional values and success/failure results, used wherever the source returns
    `undefined`/`null`, throws, or exits with a status code. */
module Wrappers {

  datatype Option<+T> = None | Some(value: T)

  datatype Result<+T, +E> = Success(value: T) | Failure(error: E)
}
