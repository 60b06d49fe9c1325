/**
 The optional value shared by the modules: a parse that may yield nothing,
 a rank a token may not name, a match that may not exist.
 */
module Wrappers {

  datatype Option<T> = None | Some(value: T)
}
