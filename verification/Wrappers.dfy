/** A value that may be missing: nil, an absent key or a failed lookup. */
module Wrappers {

  datatype Option<+T> = None | Some(value: T)
}
