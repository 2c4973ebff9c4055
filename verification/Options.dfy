/** A result that may be missing: Go's nil, or a non-nil error. */
module Options {
  datatype Option<+T> = None | Some(value: T)
}
