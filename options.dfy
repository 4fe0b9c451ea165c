/** The nullable values of the source (`T | null`) as an explicit option type. */
module Options {

  datatype Option<+T> = None | Some(value: T)

}
