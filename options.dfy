/** The usual optional value, used wherever the source can fail to produce one. */
module Options {
  datatype Option<+T> = None | Some(value: T)
}
