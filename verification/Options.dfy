/** A value or its absence: nil pointers, missing map entries and second `ok` results. */
module Options {
  datatype Option<+T> = None | Some(value: T)
}
