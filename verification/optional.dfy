/** A value that may be absent: a missing SQL row, JavaScript's `null` or `undefined`,
    an object key that is not there. */
module Optional {
  datatype Option<T> = None | Some(value: T)
}
