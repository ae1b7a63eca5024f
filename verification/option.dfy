/** The "value or nothing" result used where the engine returns None. */
module Options {

  datatype Option<+T> = None | Some(value: T)
}
