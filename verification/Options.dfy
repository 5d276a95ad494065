/** The value-or-absent type used for SQL NULL, a missing row or item, and JavaScript's null and undefined. */
module Options {
  datatype Option<+T> = None | Some(value: T)
}
