/** Failure-compatible result types shared by the whole model. */
module Wrappers {

  /** A value that may be absent: JavaScript's `undefined`, `null` or an unset `NaN` slot. */
  datatype Option<+T> = None | Some(value: T)

  /** Either a value or the message of a thrown `Error`. */
  datatype Result<+T> = Success(value: T) | Failure(error: string)
}
