/** A value that may be absent: stands for the NaN that pandas produces where a
    rolling window is not yet full or a ratio is 0/0. */
module Options {
  datatype Option<+T> = None | Some(value: T)
}
