/** Value wrappers shared by the modules of the model. */
module Outcomes {

  /** A value that may be absent (the source's `T | null`). */
  datatype Option<T> = None | Some(value: T)

  /** The settled outcome of awaiting a call into code this model does not
      contain: it either returned a value or threw. */
  datatype Reply<T> = Returned(value: T) | Threw

  /** The outcome of a store operation: a value, or the error its promise
      rejects with. */
  datatype Result<T, E> = Success(value: T) | Failure(error: E)
}
