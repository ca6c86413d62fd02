/** Option and Result, the two failure-carrying shapes the models below share.
    `Option` stands for Python's `None`-or-value; `Result` for a value or a raised exception. */
module Wrappers {

  datatype Option<+T> = None | Some(value: T)

  datatype Result<+T, +E> = Ok(value: T) | Err(error: E)

}
