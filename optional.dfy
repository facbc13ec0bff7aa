/** The JavaScript `null` that several operations of the game return. */
module Optional {

  datatype Option<T> = None | Some(value: T)
}
