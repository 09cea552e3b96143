/** Failure-carrying wrappers shared by the whole model. */
module Wrappers {

  /** `None` stands for JavaScript's `null` / `undefined` wherever a field may be absent. */
  datatype Option<+T> = None | Some(value: T) {
    function GetOr(default: T): T {
      if Some? then value else default
    }
  }

  /** The outcome of an operation that can abort with a message. */
  datatype Result<+T, +E> = Ok(value: T) | Err(error: E)
}
