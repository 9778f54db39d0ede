// Optional values, used for the nullable columns and the nil pointers of the source.
module Wrappers {
  datatype Option<+T> = None | Some(value: T)
}
