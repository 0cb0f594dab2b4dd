/** The optional value used for Java's nullable references and for results that may be missing. */
module Options {

  datatype Option<+T> = None | Some(value: T)

}
