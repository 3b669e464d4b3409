/** The optional value used where the source has `null` or a missing result. */
module Optional {

  datatype Option<T> = None | Some(value: T)

}
