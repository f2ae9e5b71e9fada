/** The Option datatype used for "no gesture" (Python's None). */
module Wrappers {

  datatype Option<+T> = None | Some(value: T)
}
