/** Option and Result, the two failure-carrying datatypes the model uses for JavaScript's
    `null` returns and thrown errors. */
module Wrappers {

  datatype Option<+T> = None | Some(value: T)

  /** A JavaScript call that either returns a value or throws an Error with a message. */
  datatype Result<+T> = Ok(value: T) | Err(error: string)
}
