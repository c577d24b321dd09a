/** Optional values and success-or-error outcomes, standing for Python's `None`
    and for a call that either returns or raises. */
module Wrappers {

  datatype Option<+T> = None | Some(value: T)

  /** `Failure` carries the error a Python call would have raised. */
  datatype Result<+T, +E> = Success(value: T) | Failure(error: E)
}
