/** The "no value" result of a leaf evaluation or of a best-move query. */
module Wrappers {

  datatype Option<T> = None | Some(value: T)
}
