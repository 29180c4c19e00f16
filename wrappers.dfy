/** Option and Result: the absent values and error returns of the simulator. */
module Wrappers {

  /** A value that may be absent; stands in for a C# reference that may be null. */
  datatype Option<+T> = None | Some(value: T)

  /** Either a value or an error, for operations that refuse bad input. */
  datatype Result<+R, +E> = Success(value: R) | Failure(error: E)
}
