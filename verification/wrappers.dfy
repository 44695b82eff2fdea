/** Plain optional-value and success-or-error datatypes shared by the cart and form models. */
module Wrappers {

  /** An optional value; `None` also stands for JavaScript's `undefined` and `NaN`. */
  datatype Option<+T> = None | Some(value: T) {

    /** The wrapped value, or `default` when there is none (JavaScript's `x || default`). */
    function GetOr(default: T): T {
      match this
      case Some(v) => v
      case None => default
    }
  }

  /** Either a successful value or an error carrying a user-facing message. */
  datatype Result<+R, +E> = Success(value: R) | Failure(error: E)
}
