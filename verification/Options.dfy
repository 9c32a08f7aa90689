/** A value that may be missing: the source's nil pointers and its errors that may be nil. */
module Options {

  datatype Option<+T> = None | Some(value: T)
}
