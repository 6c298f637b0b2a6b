/** The absent-or-present value used wherever the source returns `null`/`undefined` or reads an optional field. */
module Wrappers {
  datatype Option<+T> = None | Some(value: T)
}
