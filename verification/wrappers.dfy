/** Optional values (Java's nullable references and Optional) and results
    that either carry a value or the exception a Java call would throw. */
module Wrappers {

  datatype Option<+T> = None | Some(value: T)

  datatype Result<+T, +E> = Ok(value: T) | Err(error: E)
}
