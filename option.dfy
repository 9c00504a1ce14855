/** An optional value: Go's `(value, ok)` pairs and nil interface values. */
module Options {
  datatype Option<+T> = None | Some(value: T)
}
