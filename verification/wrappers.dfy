/** The optional value used wherever the source may hold `null` or `undefined`. */
module Wrappers {
  datatype Option<+T> = None | Some(value: T)

  /** An optional string that is there and not empty: what a `required`
      schema string demands, and what a request field that passes `!field`
      holds. */
  predicate Present(s: Option<string>)
  {
    s.Some? && s.value != ""
  }
}
