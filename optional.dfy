/** The optional value used for outcomes that may be undefined. */
module Optional {

  datatype Option<+T> = None | Some(value: T)
}
