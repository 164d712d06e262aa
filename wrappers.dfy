/** The NULL-or-value results the runtime's C functions return, as a datatype. */
module Wrappers {
  datatype Option<+T> = None | Some(value: T)
}
