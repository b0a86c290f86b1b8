/** A value that may be absent: used for "no spring animation was started". */
module Options {

  datatype Option<+T> = None | Some(value: T)
}
