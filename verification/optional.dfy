/** An optional value, standing for the null results the volume code returns. */
module Optional {

  datatype Option<+T> = None | Some(value: T)

}
