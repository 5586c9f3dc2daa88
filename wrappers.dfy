/** The optional value shared by the configuration object and the client. */
module Wrappers {
  datatype Option<T> = None | Some(value: T)
}
