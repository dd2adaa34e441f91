/** Values that may be missing and calls that may fail. */
module Outcome {
  datatype Option<+T> = None | Some(value: T)

  datatype Result<+T> = Ok(value: T) | Err(error: string)
}
