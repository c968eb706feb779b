/** The optional results the C++ code expresses with an empty unique_ptr. */
module Wrappers {
  datatype Option<T> = None | Some(value: T)
}
