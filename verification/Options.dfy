/** The value a step may or may not deliver. */
module Options {
  datatype Option<T> = None | Some(value: T)
}
