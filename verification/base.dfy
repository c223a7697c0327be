/** Small shared datatypes. */
module Base {

  /** A value that may be absent: JavaScript's `null`/`undefined` next to a number. */
  datatype Option<+T> = None | Some(value: T)
}
