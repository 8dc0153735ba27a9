/** The usual optional value, for "this socket has no entry yet". */
module Options {
  datatype Option<T> = None | Some(value: T)
}
