/** Python's `None`-or-value and "returned normally"-or-"raised" outcomes. */
module Wrappers {

  /** A value that may be Python's `None`. */
  datatype Option<+T> = None | Some(value: T)

  /** The outcome of a Python call: the value it returned, or the message of
      the exception it raised and did not catch. */
  datatype Outcome<+T> = Ok(value: T) | Raised(message: string)
}
