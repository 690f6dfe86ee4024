/** Option type shared by every module of the model. */
module Wrappers {

  /** A value that may be missing: a Python `None` result or a raised lookup error. */
  datatype Option<+T> = None | Some(value: T)
}
