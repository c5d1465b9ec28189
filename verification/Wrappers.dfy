/** The optional value used for nullable columns, for queries that may find nothing, and for absent request fields. */
module Wrappers {
  datatype Option<+T> = None | Some(value: T)

  /** A field after an update that leaves absent values alone. */
  function Override<T>(field: Option<T>, update: Option<T>): Option<T> {
    if update.Some? then update else field
  }
}
