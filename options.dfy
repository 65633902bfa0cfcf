/** The optional value used where the source has None or a missing entry. */
module Options {

  datatype Option<+T> = None | Some(value: T)
}
