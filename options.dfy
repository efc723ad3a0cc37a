/** The optional value used for the results of the parsers that read a rendered text back. */
module Options {
  datatype Option<+T> = None | Some(value: T)
}
