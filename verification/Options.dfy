/** A value or nothing: the C code's null pointers and failed calls. */
module Options {
  datatype Option<+T> = None | Some(value: T)
}
