/** The one wrapper shared by every model in the project. */
module Options {
  datatype Option<+T> = None | Some(value: T)
}
