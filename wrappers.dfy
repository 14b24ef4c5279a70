/** Values shared by every service: an optional value (JavaScript's `null`/`undefined` versus an
    object) and the settled outcome of a call that may throw or reject. */
module Wrappers {

  /** `None` stands for the `null` (or `undefined`) a service returns instead of an object. */
  datatype Option<+T> = None | Some(value: T)

  /** An error object as it is thrown; only its message is observable to the model. */
  datatype Error = Error(message: string)

  /** How a call ends: it returns (an async call resolves) with a value, or it throws (rejects). */
  datatype Outcome<+T> = Returned(value: T) | Threw(error: Error)
}
