/** Optional values and results with an error, shared by the other modules. */
module Wrappers {

  /** A value that may be missing: a null `Aux` cell of the annotation table is `None`. */
  datatype Option<+T> = None | Some(value: T)

  /** The outcome of a step that can abort the whole run. */
  datatype Result<+R, +E> = Success(value: R) | Failure(error: E)
}
