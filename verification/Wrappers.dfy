/** Absent values and failures. */
module Wrappers {

  /** A column or field that may hold nothing: SQL NULL, or JavaScript null and undefined. */
  datatype Option<+T> = None | Some(value: T)

  /** The outcome of an operation that throws in the original. */
  datatype Result<+T> = Ok(value: T) | Err(message: string)
}
