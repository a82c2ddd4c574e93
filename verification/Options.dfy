/** A value that the source leaves null or undefined. */
module Options {
  datatype Option<+T> = None | Some(value: T)
}
