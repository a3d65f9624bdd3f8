/** Values shared by every module of the model: an optional value, the
    outcome of a call that may raise (the error is the text Python's `str(e)`
    would give), and the length at which `zip` stops. */
module Outcomes {

  datatype Option<+T> = None | Some(value: T)

  datatype Result<+T, +E> = Ok(value: T) | Err(error: E)

  /** The smaller of two lengths: `zip` stops at the end of its shorter input. */
  function Min(a: int, b: int): int { if a <= b then a else b }
}
