/** Small failure-carrying datatypes used throughout the model. */
module Wrappers {

  /** A value that may be absent: JavaScript's `null` (or `undefined`) next to a value. */
  datatype Option<+T> = None | Some(value: T)

  /** The outcome of a step that may throw: `Threw` stands for an exception that the
      enclosing `try` catches. */
  datatype Attempt<+T> = Ok(value: T) | Threw
}
