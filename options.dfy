/** The optional value of the record's payload and of the parsers. */
module Options {
  datatype Option<T> = None | Some(value: T)
}
