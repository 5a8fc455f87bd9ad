/** The optional value used wherever the source works with `null` or an absent key. */
module Wrappers {

  datatype Option<+T> = None | Some(value: T)

  /** Outcome of a storage call: either it finished with a value, or the database raised
      a `QueryException` (which the controllers answer with status 500). */
  datatype DbResult<+T> = Done(value: T) | Failed
}
