/** An optional value: `None` stands for a file that cannot be opened. */
module Options {
  datatype Option<T> = None | Some(value: T)
}
