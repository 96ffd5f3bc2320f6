/** Failure-compatible wrappers shared by every module of the model:
    Python's `None` and the exceptions the core raises become values. */
module Base {

  datatype Option<+T> = None | Some(value: T)

  /** The exceptions the core can raise, as values. */
  datatype Error =
    | InvalidDuration    // `int(...)` of a booking's duration text raised ValueError
    | InvalidDate        // `date(year, month, 1)` or the next month's first day raised
    | ValidationError(message: string)  // a form's clean method rejected its input

  datatype Result<+T> = Ok(value: T) | Err(error: Error)

  function Min(a: int, b: int): (r: int)
    ensures r <= a && r <= b && (r == a || r == b)
  {
    if a <= b then a else b
  }
}
