/** The one wrapper the model needs for Python's `None`. */
module Common {
  datatype Option<+T> = None | Some(value: T)
}
