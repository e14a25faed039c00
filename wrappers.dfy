/** Option and Result, the two failure-carrying datatypes the planner's inputs and outputs use. */
module Wrappers {

  /** A value that may be absent: an optional bound, an optional explicit index. */
  datatype Option<+T> = None | Some(value: T)

  /** Either a computed value or the error that prevented it. */
  datatype Result<+T, +E> = Ok(value: T) | Err(error: E)
}
