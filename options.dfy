/** Optional values: a Java reference that may be null, or a parse that may fail. */
module Options {
  datatype Option<T> = None | Some(value: T)
}
