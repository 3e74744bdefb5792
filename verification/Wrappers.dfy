/** Result types shared by the model: values that may be missing and steps that may fail. */
module Wrappers {
  datatype Option<+T> = None | Some(value: T)

  datatype Result<+T, +E> = Ok(value: T) | Err(error: E)

  /** How a remote call ends for its caller: one that raises may still have taken effect. */
  datatype CallOutcome = Returned | RaisedApplied | RaisedUnapplied
}
