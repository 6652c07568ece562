/** The nullable slot of a queue node: `None` plays the part of a null pointer. */
module Options {

  datatype Option<+T> = None | Some(value: T)

}
