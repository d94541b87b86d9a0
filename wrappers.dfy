/** Optional values and pass/fail outcomes used across the model. */
module Wrappers {

  /** A value that may be absent: a missing attribute, a missing store entry, an unset expiry. */
  datatype Option<+T> = None | Some(value: T)

  /** The result of an operation that either completes or fails with a message (a thrown Error). */
  datatype Outcome = Pass | Fail(error: string)
}
