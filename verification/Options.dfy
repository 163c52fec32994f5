// A value or nothing: the NULL pointers of the firmware.

module Options {
  datatype Option<T> = None | Some(value: T)
}
