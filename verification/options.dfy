/** The optional value used for empty board cells and absent results. */
module Options {

  datatype Option<+T> = None | Some(value: T)
}
