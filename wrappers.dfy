/** Optional values and the outcome of a call into the remote data service. */
module Wrappers {

  /** A value that may be absent (TypeScript's `T | undefined` or `T | null`). */
  datatype Option<+T> = None | Some(value: T)

  /**
   * The outcome of one remote call: the value the service returned, or a
   * failure (the error is only logged by the application, so it carries nothing).
   */
  datatype Outcome<+T> = Ok(value: T) | Err
}
