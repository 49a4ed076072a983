/** A value that may be absent, such as a result that the source guards by a flag or a null check. */
module Options {

  datatype Option<+T> = None | Some(value: T)
}
