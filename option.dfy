/** The optional value used where the program can come back empty-handed. */
module Optional {
  datatype Option<+T> = None | Some(value: T)
}
