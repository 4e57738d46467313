/** Option and Result, the two shapes the script uses for "no match" (`null`) and a thrown error. */
module Wrappers {

  /** `null` versus a value. */
  datatype Option<+T> = None | Some(value: T)

  /** A returned value versus a thrown error. */
  datatype Result<+R, +E> = Success(value: R) | Failure(error: E)
}
