/** An optional value: the model's stand-in for Go's `(value, err)` pairs. */
module Options {
  datatype Option<T> = None | Some(value: T)
}
