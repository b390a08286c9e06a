/** The optional value used wherever the source returns `None` or a string. */
module Options {

  datatype Option<+T> = None | Some(value: T)
}
