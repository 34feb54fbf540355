/** Option type used for parses and lookups that may fail. */
module Wrappers {

  datatype Option<+T> = None | Some(value: T)
}
