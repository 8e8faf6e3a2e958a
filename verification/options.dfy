/** The optional value used where the Java code returns null or a player waits for more input. */
module Options {

  datatype Option<+T> = None | Some(value: T)
}
