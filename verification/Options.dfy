/** The one optional-value type shared by every module; SQL NULL is `None`. */
module Options {
  datatype Option<+T> = None | Some(value: T)
}
