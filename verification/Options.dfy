/** The usual optional value; None stands for a null pointer or a missing entry. */
module Options {
  datatype Option<+T> = None | Some(value: T)
}
