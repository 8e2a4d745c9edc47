/** A value that may be absent: a nil pointer, a missing map entry, a call that returned no error. */
module Options {

  datatype Option<+T> = None | Some(value: T)
}
