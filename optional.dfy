/** An optional value: a GLSL function that falls off its end returns no value. */
module Optional {
  datatype Option<T> = None | Some(value: T)
}
