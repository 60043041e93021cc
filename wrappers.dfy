/** Option, used for the optional fields of parsed configuration documents and for searches. */
module Wrappers {
  datatype Option<+T> = None | Some(value: T)
}
