/** The optional value used for results that may be absent (a completion event, a parsed number). */
module Wrappers {
  datatype Option<+T> = None | Some(value: T)
}
