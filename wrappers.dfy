/** Option and a result for operations that can throw ArgumentException. */
module Wrappers {

  /** A value or the absence of one; stands for a nullable reference. */
  datatype Option<+T> = None | Some(value: T)

  /** What a helper that validates its arguments gives back: a value, or the
      ArgumentException it throws. */
  datatype Result<+T> = Ok(value: T) | ArgumentException
}
