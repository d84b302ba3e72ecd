/** Optional values and the outcome of a resolver invocation. */
module Wrappers {

  datatype Option<+T> = None | Some(value: T)

  /** What a thrown JavaScript exception carries in this model. */
  datatype Exception<+E> =
    | Error(message: string)   // `throw new Error(message)`
    | Rethrown(cause: E)       // `throw error`: the backend's own error object

  /** A resolver either returns a value to AppSync or throws. */
  datatype Outcome<+T, +E> = Returned(value: T) | Threw(error: Exception<E>)
}
