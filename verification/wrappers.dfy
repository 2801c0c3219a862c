/** The optional value used for query parameters that may be absent. */
module Wrappers {

  datatype Option<+T> = None | Some(value: T)
}
