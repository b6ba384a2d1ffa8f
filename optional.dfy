/** The usual Some/None datatype, used for every "pointer that may be NULL". */
module Optional {
  datatype Option<+T> = None | Some(value: T)
}
