/** Option and Result values used throughout the model.

    Option<T> stands for a JavaScript value that may be missing (`undefined`,
    `null`, or — for numeric record fields — anything that is not a number).
    Result<T, E> is the outcome of a command handler that either performs its
    mutation or replies with a refusal and leaves the data untouched.
 */
module Options {

  datatype Option<+T> = None | Some(value: T) {

    /** The value, or `default` when there is none: JavaScript's `x ?? default`. */
    function GetOr(default: T): T {
      match this
      case Some(v) => v
      case None => default
    }
  }

  datatype Result<+T, +E> = Ok(value: T) | Err(error: E)
}
