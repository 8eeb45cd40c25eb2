/** The two wrapper types the modules share. */
module Wrappers {

  datatype Option<+T> = None | Some(value: T)

  datatype Result<+R, +E> = Success(value: R) | Failure(error: E)

  /** Subtraction on unsigned quantities that stops at zero, as `saturating_sub` does. */
  function SatSub(a: nat, b: nat): nat {
    if a >= b then a - b else 0
  }
}
