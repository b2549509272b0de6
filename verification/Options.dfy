/** An optional value: the NULL-able pointers and lookups of the firmware code. */
module Options {
  datatype Option<+T> = None | Some(value: T)
}
