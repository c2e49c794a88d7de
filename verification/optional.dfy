/** The usual Some/None datatype, for values a lookup or a parse may not produce. */
module Optional {

  datatype Option<+T> = None | Some(value: T)

}
