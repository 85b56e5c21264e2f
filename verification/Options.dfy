module Options {
  datatype Option<T> = None | Some(value: T)

  /** The null pointer where pointers are indices. */
  const NIL: int := -1
}
