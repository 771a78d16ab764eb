/** A value that may be absent: a missing DOM element or a missing attribute. */
module Options {

  datatype Option<+T> = None | Some(value: T)

}
