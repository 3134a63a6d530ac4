/** Option and Result, used for the nullable state cells and for parse outcomes. */
module Wrappers {

  /** A value that may be absent: TypeScript's `T | null` or an optional field. */
  datatype Option<+T> = None | Some(value: T)

  /** Either a parsed value or the errors that stopped parsing. */
  datatype Result<+R, +E> = Success(value: R) | Failure(error: E)
}
