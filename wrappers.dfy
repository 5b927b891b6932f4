/** Option and Result, used for the values the crawler's Java code represents
    with `null`, `Optional` and thrown exceptions. */
module Wrappers {

  datatype Option<+T> = None | Some(value: T)

  datatype Result<+T, +E> = Success(value: T) | Failure(error: E)
}
