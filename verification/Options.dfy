/** Values that may be missing. */
module Options {

  /** A NULL string or position, a key without a value. */
  datatype Option<+T> = None | Some(value: T)

  /** A `void *`. */
  datatype Pointer<+T> = Null | Ptr(value: T)
}
