/** The optional value shared by the modules that can fail or find nothing. */
module Options {

  datatype Option<T> = None | Some(value: T)
}
