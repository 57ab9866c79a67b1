/** The optional value that stands for a result or for JavaScript's undefined
    and Go's nil. */
module Options {
  datatype Option<+T> = None | Some(value: T)
}
