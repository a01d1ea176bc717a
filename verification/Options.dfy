/** A value, or none: a null pointer or npos of the source. */
module Options {
  datatype Option<+T> = None | Some(value: T)
}
