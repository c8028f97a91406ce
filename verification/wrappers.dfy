/** Failure-carrying result types shared by the PyMath model.

    - Option<T>: a Python function that returns `None` instead of a value.
    - Result<R, E>: a Python call that either returns a value or raises an
      exception; E names the kind of exception raised.
 */
module Wrappers {

  /** A value, or the Python value `None`. */
  datatype Option<+T> = None | Some(value: T)

  /** A returned value, or the kind of exception raised instead. */
  datatype Result<+R, +E> = Success(value: R) | Failure(error: E)
}
