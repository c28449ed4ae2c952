/** Optional values and results, used wherever the JavaScript source has
    `undefined`/`null` fields or thrown errors. */
module Wrappers {

  datatype Option<+T> = None | Some(value: T)

  datatype Result<+R, +E> = Success(value: R) | Failure(error: E)
}
