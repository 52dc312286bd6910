// Option and Result: the model's form of a Python `None` result and of a
// raised exception.
module Wrappers {
  datatype Option<T> = None | Some(value: T)

  datatype Result<T> = Ok(value: T) | Err(error: string)
}
