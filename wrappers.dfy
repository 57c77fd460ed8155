/** Optional values and results with an error, for the operations that can
    fail (Python raises; the model returns `Failure`). */
module Wrappers {

  datatype Option<+T> = None | Some(value: T)

  datatype Result<+R, +E> = Success(value: R) | Failure(error: E)
}
