/** The option type that the modules share. */
module Options {

  datatype Option<+T> = None | Some(value: T)
}
