// Optional values: a missing document, a null pointer field, an absent diagnostic.
module Options {

  datatype Option<+T> = None | Some(value: T)
}
