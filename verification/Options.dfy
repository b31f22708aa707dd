/** A value that may be absent: a nil pointer, a missing key, a refused input. */
module Options {
  datatype Option<+T> = None | Some(value: T)
}
