/** A value that may be absent: a nil pointer or a missing entry. */
module Options {
  datatype Option<T> = None | Some(value: T)
}
