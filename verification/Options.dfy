// The optional value shared by every module: None stands for Python's None.
module Options {
  datatype Option<+T> = None | Some(value: T)
}
