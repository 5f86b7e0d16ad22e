/** Optional values and success-or-error results, the shapes the source expresses
    with `None` and with raised exceptions. */
module Basics {

  datatype Option<+T> = None | Some(value: T)

  datatype Result<+R, +E> = Success(value: R) | Failure(error: E)
}
