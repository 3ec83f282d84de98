/** The optional value used for "no key event this poll" and for a profile source that fails to load. */
module Wrappers {
  datatype Option<+T> = None | Some(value: T)
}
