/** Optional values and pass/fail outcomes shared by the event and sidebar models. */
module Wrappers {

  /** An optional value: the model's rendering of Python's `None`. */
  datatype Option<+T> = None | Some(value: T)

  /** The outcome of a check that either passes or fails with an error value. */
  datatype Outcome<+E> = Pass | Fail(error: E)
}
