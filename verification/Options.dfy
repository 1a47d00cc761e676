/** A value or its absence. */
module Options {

  datatype Opt<T> = None | Some(v: T)
}
