/** The optional result used wherever the original returns a value or nothing. */
module Options {
  datatype Option<+T> = None | Some(value: T)
}
