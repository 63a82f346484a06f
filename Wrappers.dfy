/** The absent-or-present result used where the source returns a pointer that may be NULL. */
module Wrappers {

  datatype Option<+T> = None | Some(value: T)
}
