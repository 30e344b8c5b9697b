/** What a C function returns that may return nothing. */
module Wrappers {

  datatype Option<T> = None | Some(value: T)
}
