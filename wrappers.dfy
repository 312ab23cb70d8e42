/** Option and Result, the two failure-carrying shapes used throughout the model. */
module Wrappers {

  /** A nullable value: `None` stands for JavaScript's `null`/`undefined`. */
  datatype Option<+T> = None | Some(value: T)

  /** The outcome of an operation that can throw: `Err` carries the
      message of the thrown `Error`. */
  datatype Result<+T> = Ok(value: T) | Err(error: string)
}
