/** The optional value used where the modelled programs return a null pointer, `None` or nothing. */
module Options {
  datatype Option<+T> = None | Some(value: T)
}
