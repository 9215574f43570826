/** Small failure-carrying datatypes shared by the whole model.
    A JavaScript `throw new Error(msg)` becomes `Fail(msg)` or `Err(msg)`. */
module Wrappers {

  datatype Option<+T> = None | Some(value: T)

  /** The outcome of a check that either returns normally or throws. */
  datatype Outcome = Pass | Fail(msg: string)

  /** The outcome of an operation that returns a value or throws. */
  datatype Result<+T> = Ok(value: T) | Err(msg: string)
}
