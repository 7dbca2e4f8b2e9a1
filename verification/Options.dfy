/** The `T | null` values of the application (a model handle, a prediction list). */
module Options {

  datatype Option<+T> = None | Some(value: T)
}
