/** The optional-value datatype the model uses for JavaScript's `undefined`
    and for the NaN outcome of `parseInt`. */
module Options {

  /** `None` stands for a value that is absent (JavaScript `undefined`, or NaN
      where a parse failed); `Some(value)` for one that is present. */
  datatype Option<T> = None | Some(value: T)
}
