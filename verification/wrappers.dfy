/** Failure-carrying datatypes shared by the whole model. */
module Wrappers {

  /** A value that may be absent (`undefined` in the source). */
  datatype Option<+T> = None | Some(value: T)

  /** The outcome of one storage query: the rows it returned, or the error the
      driver raised. Storage is outside the model, so every query result is an
      input of the operation that issues it. */
  datatype DbResult<+T> = Rows(value: T) | DbError
}
