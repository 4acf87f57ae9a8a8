/** The usual Some/None wrapper, used where the source returns a value or `None`. */
module Optional {
  datatype Option<+T> = None | Some(value: T)
}
