/** Failure-carrying values shared by the emitter and the scanner. */
module Wrappers {

  /** A value that may be absent: the model's stand-in for a C# null reference. */
  datatype Option<+T> = None | Some(value: T)

  /** The outcome of an operation that throws on failure in the source. */
  datatype Result<+T> = Ok(value: T) | Err(message: string)
}
