/** A value that may be missing: a null pointer, an unset field, the end of an iterator. */
module Options {
  datatype Option<+T> = None | Some(value: T)
}
