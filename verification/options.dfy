/** Java's nullable references, as an explicit optional value. */
module Options {

  /** `None` stands for a Java `null`. */
  datatype Option<+T> = None | Some(value: T)
}
