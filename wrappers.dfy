/** The optional value used for "no such system" and "nothing stored". */
module Wrappers {
  datatype Option<+T> = None | Some(value: T)
}
