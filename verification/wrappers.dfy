/** Option and Result, the shapes the model uses for JavaScript's `null`
    and for calls that either return a value or throw. */
module Wrappers {

  /** `None` stands for `null`/`undefined`. */
  datatype Option<+T> = None | Some(value: T) {

    /** The value, or `default` when absent (JavaScript's `x || default`
        for values whose only falsy form is absence). */
    function GetOr(default: T): (r: T)
    {
      match this
      case Some(v) => v
      case None => default
    }
  }

  /** The outcome of a collaborator that either answers or throws an Error
      carrying a message. */
  datatype Result<+R> = Success(value: R) | Failure(message: string)
}
