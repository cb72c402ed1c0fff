/** The optional value used wherever the modelled Python code raises instead of returning. */
module Options {
  datatype Option<T> = None | Some(value: T)
}
