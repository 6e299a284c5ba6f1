/** Small value types shared by every screen and by the server model. */
module Base {

  /** An optional value: JavaScript's `null`/`undefined`, Python's `None`,
      or a dictionary key that is absent. */
  datatype Option<+T> = None | Some(value: T)

  /** The outcome of a call that can throw: a value, or the thrown message. */
  datatype Result<+T, +E> = Ok(value: T) | Err(error: E)

  /** JavaScript truthiness of an optional string: `null`, `undefined` and
      the empty string are all falsy. */
  predicate Truthy(s: Option<string>)
  {
    s.Some? && s.value != ""
  }
}
