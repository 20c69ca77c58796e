/** A value that may be absent, as `undefined` and `null` are in the source. */
module Options {
  datatype Option<+T> = None | Some(value: T)
}
