/** The optional value every module of the model uses for Python's None. */
module Options {
  datatype Option<+T> = None | Some(value: T)
}
