/** Option and Result: null/undefined values and thrown exceptions of the
    modelled TypeScript, made explicit. */
module Wrappers {
  datatype Option<+T> = None | Some(value: T)

  datatype Result<+R, +E> = Success(value: R) | Failure(error: E)
}
