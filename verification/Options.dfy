/** The conventional optional value, used where the source keeps a pointer that may be NULL. */
module Options {
  datatype Option<+T> = None | Some(value: T)
}
