/** A value that may be absent: Java's nullable references and "nothing found yet". */
module Optional {

  datatype Option<+T> = None | Some(value: T)
}
