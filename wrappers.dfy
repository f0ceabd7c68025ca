/** The optional value used for nullable references and "first or default" queries. */
module Wrappers {
  datatype Option<+T> = None | Some(value: T)
}
