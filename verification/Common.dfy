/** Values shared by several models. */
module Common {
  datatype Option<+T> = None | Some(value: T)
}
