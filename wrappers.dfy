/** Option and Result, and the errors the simulation core raises. */
module Wrappers {

  datatype Option<+T> = None | Some(value: T)

  /** The fatal errors of the core. Python raises them as exceptions; here they are values. */
  datatype Failure =
    | InvalidArgument   // a value that is not a vector where a vector is needed
    | MissingShape      // is_touching on an actor that has no collision shape bound
    | NoTouchTest       // is_touching on a shape kind that defines no touching test

  datatype Result<+T> = Ok(value: T) | Fail(failure: Failure)
}
