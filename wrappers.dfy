/** Optional values and success-or-error outcomes, used where the modelled
    code has a Swift optional or a throwing call. */
module Wrappers {

  datatype Option<+T> = None | Some(value: T)

  datatype Result<+T, +E> = Success(value: T) | Failure(error: E)
}
