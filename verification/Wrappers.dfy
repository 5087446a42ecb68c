/** The two outcomes a lookup or a panicking function can have. */
module Wrappers {

  datatype Option<+T> = None | Some(value: T)
}
