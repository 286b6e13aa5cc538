/** A value that may be missing: a null, an absent member, a search without a result. */
module Options {

  datatype Option<+T> = None | Some(value: T)
}
