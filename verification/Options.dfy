/** The optional values of the program: a status not collected yet, a flag not given. */
module Options {
  datatype Option<+T> = None | Some(value: T)
}
