module Options {
  /** A value that may be absent: Go's nil pointer, Python's None. */
  datatype Option<T> = None | Some(value: T)
}
