/** A value that may be absent: a missing record field, an `undefined` array slot. */
module Optional {
  datatype Option<T> = None | Some(value: T)
}
