/** Python's `None`-or-value, as used for the optional file name, palette path and regex match. */
module Optional {
  datatype Option<+T> = None | Some(value: T)
}
