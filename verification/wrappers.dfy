/** An optional value shared by the other modules. */
module Wrappers {

  /** An optional value. Used for constructors that may throw instead of
      returning (`None`) and for the null cells of a bucket table. */
  datatype Option<T> = None | Some(value: T)
}
