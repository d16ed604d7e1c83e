/** The optional value used where the tagger may produce nothing. */
module Wrappers {
  datatype Option<+T> = None | Some(value: T)
}
