/** An optional value, standing for Python's `None` where a lookup may find nothing. */
module Options {
  datatype Option<T> = None | Some(value: T)
}
