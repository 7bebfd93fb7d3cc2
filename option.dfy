/** The optional value shared by the modules: JavaScript's `null` and
    "no document found". */
module Wrappers {
  datatype Option<T> = None | Some(value: T)
}
