/** Option, Result and Outcome, used where the program returns None or raises. */
module Outcomes {

  datatype Option<+T> = None | Some(value: T)

  datatype Result<+T, +E> = Ok(value: T) | Err(error: E)

  /** The result of an operation that returns nothing or raises. */
  datatype Outcome<+E> = Pass | Fail(error: E)

  function Min(a: int, b: int): (r: int)
  {
    if a <= b then a else b
  }
}
