/** Failure-carrying result types shared by the catalog modules. */
module Wrappers {

  /** An optional value: a query parameter that may be absent. */
  datatype Option<+T> = None | Some(value: T)

  /** The outcome of an operation that either yields a value or raises an error. */
  datatype Result<+T, +E> = Ok(value: T) | Err(error: E)
}
