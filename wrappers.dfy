/** The optional value shared by the parser and the registry search. */
module Wrappers {

  datatype Option<T> = None | Some(value: T)
}
