/** A value that may be missing: the null pointers of the original. */
module Options {
  datatype Option<+A> = None | Some(value: A)
}
