/** Option and exception-outcome wrappers shared by every module of the model. */
module Results {

  /** A value or nothing (the source's `T | null`). */
  datatype Option<+T> = None | Some(value: T)

  /**
   * The result of a call that either returns a value or lets an exception
   * escape (a thrown `ShogiError`, or a `TypeError` from reading through
   * a value that is not what the caller expected).
   */
  datatype Outcome<+T> = Done(value: T) | Raised
}
