/** The usual optional value, used for Python's `None`, and the outcome of
    a call that either returns a value or raises. */
module Opt {
  datatype Option<T> = None | Some(value: T)

  /** A call that returned `value`, or raised an exception with `message`. */
  datatype Fetch<T> = Got(value: T) | Raised(message: string)
}
