/** The optional value used for absent arguments and failed parses. */
module Options {

  datatype Option<T> = None | Some(value: T)
}
