/** The usual option type, shared by every other module. */
module Wrappers {
  datatype Option<+T> = None | Some(value: T)
}
