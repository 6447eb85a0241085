/** The optional value used for every absent field, missed lookup or "no limit" answer. */
module Wrappers {
  datatype Option<+T> = None | Some(value: T)
}
