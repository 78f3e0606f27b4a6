/** Optional values and results shared by the board engine and the game state. */
module Wrappers {

  /** An optional value: a value, or nothing. */
  datatype Option<+T> = None | Some(value: T)

  /** A value, or an error describing why the operation was refused. */
  datatype Result<+T, +E> = Ok(value: T) | Err(error: E)
}
