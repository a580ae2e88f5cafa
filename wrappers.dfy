/** The optional value used wherever the Ruby code returns `nil` or a value. */
module Wrappers {

  datatype Option<+T> = None | Some(value: T)
}
