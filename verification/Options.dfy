/** A value that may be missing; also every error whose text does not matter. */
module Options {
  datatype Option<+T> = None | Some(value: T)
}
