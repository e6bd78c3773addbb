/** Failure-compatible wrappers shared by the modules.
    - Option<T> stands for a nullable .NET reference: an output property that was never assigned is None.
    - Result<T, E> stands for a computation that may throw: Err carries the exception.
 */
module Wrappers {

  datatype Option<+T> = None | Some(value: T)

  datatype Result<+T, +E> = Ok(value: T) | Err(error: E)

  /** The ArgumentNullException a task throws, out of Execute, when a required parameter is blank. */
  datatype ArgumentNull = ArgumentNull(paramName: string)
}
