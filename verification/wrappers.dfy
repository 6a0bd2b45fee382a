/** An optional value: the "no value yet" or "skipped" outcome of an operation. */
module Wrappers {
  datatype Option<T> = None | Some(value: T)
}
