/** The optional value used for nullable fields and absent client offsets. */
module Wrappers {
  datatype Option<+T> = None | Some(value: T)
}
