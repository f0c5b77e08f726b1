/** A value that may be missing: a NULL pointer, or the -1 of a search. */
module Options {
  datatype Option<T> = None | Some(value: T)
}
