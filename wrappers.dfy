/** Small failure-carrying datatypes shared by the other modules. */
module Wrappers {

  /** A value that may be absent (JavaScript `undefined`, or NaN where no number exists). */
  datatype Option<T> = None | Some(value: T)

  /** The result of an operation that either returns a value or throws. */
  datatype Result<T, E> = Ok(value: T) | Err(error: E)

  /** The result of an operation that returns nothing or throws. */
  datatype Outcome<E> = Pass | Fail(error: E)
}
