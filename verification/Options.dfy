/** Values that may be missing, for the source's std::optional. */
module Options {

  datatype Option<+T> = None | Some(value: T)
}
