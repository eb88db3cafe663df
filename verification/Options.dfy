/** Optional values, used wherever the Java source uses a possibly-null reference. */
module Options {
  datatype Option<+T> = None | Some(value: T)
}
