/** Small shared datatypes. */
module Common {

  /** A value that may be absent: a missing file, a cancelled dialog, a field
      that did not parse as an integer. */
  datatype Option<T> = None | Some(value: T)
}
