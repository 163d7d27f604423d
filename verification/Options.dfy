/** The optional value every module uses for a field that may be absent. */
module Options {
  datatype Option<+T> = None | Some(value: T)
}
