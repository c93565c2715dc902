/** The Some/None datatype used for Python's `None` return value. */
module Wrappers {

  datatype Option<+T> = None | Some(value: T)
}
