/** An explicit "maybe" value: a detection or a centre that may be absent. */
module Optional {

  datatype Option<+T> = None | Some(value: T)
}
