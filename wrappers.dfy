/** Option and Result, for Go's nil pointers and (value, error) returns. */
module Wrappers {

  datatype Option<+T> = None | Some(value: T)

  datatype Result<+T, +E> = Success(value: T) | Failure(error: E)

  /** The outcome of a call that returns only a Go `error`: `Pass` is nil. */
  datatype Outcome<+E> = Pass | Fail(error: E)
}

/** The kitty package, of which the transaction record uses only the
    identifier type. */
module Kitty {

  /** `kitty.ID`, an unsigned 64-bit integer. */
  newtype ID = x: int | 0 <= x < 0x1_0000_0000_0000_0000
}
