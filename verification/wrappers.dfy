/** Optional values and results with an error, used where the PHP code has
    nullable values (`?string`) or can fail. */
module Wrappers {

  /** A nullable value: `None` stands for PHP's `null`. */
  datatype Option<+T> = None | Some(value: T)

  /** The outcome of an operation that either yields a value or fails. */
  datatype Result<+T, +E> = Success(value: T) | Failure(error: E)
}
