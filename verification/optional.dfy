/** Go's nil-able pointers become `Option`: `None` is nil, `Some(v)` points at `v`. */
module Optional {

  datatype Option<+T> = None | Some(value: T)
}
