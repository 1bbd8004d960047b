/** Small datatypes shared by the models. */
module Common {
  datatype Option<+T> = None | Some(value: T)
}
