/** The outcome of the solver: a value, or nothing when no tour exists. */
module Optional {

  datatype Option<T> = None | Some(value: T)
}
