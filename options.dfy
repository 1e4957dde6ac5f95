/** An optional value: a payload field that may be absent, or a JavaScript `null`. */
module Options {
  datatype Option<T> = None | Some(value: T)
}
