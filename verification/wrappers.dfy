/** The two failure-carrying types of the model: `Option` stands for Python's
    `Optional` values and `None`, `Result` for a call that either returns or raises. */
module Wrappers {

  datatype Option<+T> = None | Some(value: T) {

    /** The value in `Some`, or `default` for `None` (Python's `x or default` on optionals). */
    function GetOr(default: T): T {
      match this
      case Some(v) => v
      case None => default
    }
  }

  /** `Ok` is a normal return, `Err` an exception the Python code lets escape. */
  datatype Result<+T, +E> = Ok(value: T) | Err(error: E)
}
