/** Option and Result values used for nullable fields and for writes that may be refused. */
module Wrappers {

  /** A value that may be absent: a BSON null or a missing field. */
  datatype Option<+T> = None | Some(value: T)

  /** The outcome of a write: the new record's id, or the reason it was refused. */
  datatype Result<+R, +E> = Success(value: R) | Failure(error: E)
}
