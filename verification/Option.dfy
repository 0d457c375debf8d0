/** The value a node may or may not have. */
module Options {
  datatype Option<+T> = None | Some(value: T)
}
