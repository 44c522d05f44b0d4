/** Optional values: a nullable column, a missing file, an absent argument. */
module Options {
  datatype Option<+T> = None | Some(value: T)
}
