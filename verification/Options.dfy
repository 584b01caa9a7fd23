/** A value that may be absent: a NULL pointer of the source. */
module Options {
  datatype Option<+T> = None | Some(value: T)
}
