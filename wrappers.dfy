/** The optional value the generator's helpers return in place of Python's `None`. */
module Wrappers {
  datatype Option<+T> = None | Some(value: T)
}
