/** Shared value wrappers: a possibly-missing value (a null pointer, Python's
    None, a failed lookup) and an outcome that is either a value or an error
    (an exception, an assertion, an exit). */
module Wrappers {

  datatype Option<+T> = None | Some(value: T)

  datatype Result<+T, +E> = Ok(value: T) | Err(error: E)
}
