/** The two failure-carrying shapes every other module uses: an optional value, and a value or the
    error the program throws. */
module Wrappers {

  datatype Option<+T> = None | Some(value: T)

  datatype Result<+T, +E> = Ok(value: T) | Err(error: E)
}
