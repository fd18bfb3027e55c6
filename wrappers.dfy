/** Option and Result: the failure-carrying values the rest of the model returns
    where the program raises an exception or a query finds no row. */
module Wrappers {

  datatype Option<+T> = None | Some(value: T)

  datatype Result<+T, +E> = Ok(value: T) | Err(error: E)
}
