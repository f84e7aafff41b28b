/** The two sum types the task model is written with:
    `Option` stands for a JavaScript value that may be `undefined`,
    `Result` for a promise that either resolves with a value or rejects with an error. */
module Wrappers {

  datatype Option<+T> = None | Some(value: T) {

    /** Returns the value in Some, or `default` when None (JavaScript's `x || default` on an optional object). */
    function GetOr(default: T): T {
      match this
      case Some(v) => v
      case None => default
    }
  }

  datatype Result<+R, +E> = Success(value: R) | Failure(error: E)
}
