/** Option and Result values, used wherever the JavaScript code returns `null`/`undefined`
    or aborts with an exception. */
module Basics {

  datatype Option<+T> = None | Some(value: T)

  datatype Result<+T, +E> = Ok(value: T) | Err(error: E)

  function Min(a: int, b: int): int {
    if a <= b then a else b
  }
}
