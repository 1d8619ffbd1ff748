/** A value that may be missing. `None` stands for the `NaN` that
    JavaScript's `parseInt` returns when it finds no number. */
module Options {
  datatype Option<T> = None | Some(value: T)
}
