/** What functions return that may have nothing to return: Go's `value, ok`
    pairs become `Option`, its `value, err` pairs `Result`. */
module Wrappers {

  datatype Option<+T> = None | Some(value: T)

  datatype Result<+T, +E> = Ok(value: T) | Err(error: E)
}
