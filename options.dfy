/** The optional value used wherever the source has `null`, `undefined` or an absent entry. */
module Options {
  datatype Option<+T> = None | Some(value: T)
}
