/** A value that may be missing: a null pointer, an end iterator, a failed parse.  */
module Options {
  datatype Option<+T> = None | Some(value: T)
}
