/** Small failure-carrying datatypes shared by the model. */
module Wrappers {

  /** A value that may be absent: Python's `None` versus a present value. */
  datatype Option<+T> = None | Some(value: T)

  /** The outcome of a model function that the source can abort with an exception. */
  datatype Result<+T, +E> = Ok(value: T) | Err(error: E)

  /** The outcome of a call into code outside the model (a download, a library call,
      a subprocess): its value, or the text of the exception it raised. */
  datatype Fallible<+T> = Done(value: T) | Raised(message: string)
}
