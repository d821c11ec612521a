/** Results that may be missing: the source's exceptions, and searches that run out. */
module Options {
  datatype Option<T> = None | Some(value: T)
}
