/** A value that may be missing: Go's nil pointers and two-result map lookups. */
module Optional {
  datatype Option<+T> = None | Some(value: T)
}
