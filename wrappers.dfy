/** The optional-value datatype used throughout the model. `None` stands for
    JavaScript's `undefined`/`null` wherever the source reads a value that
    may be absent. */
module Wrappers {

  datatype Option<+T> = None | Some(value: T)

  /** JavaScript's `value || fallback` on a possibly undefined string:
      undefined and the empty string are falsy. */
  function FalsyOr(value: Option<string>, fallback: string): (r: string)
    ensures value.Some? && value.value != "" ==> r == value.value
    ensures value.None? || value == Some("") ==> r == fallback
  {
    if value.None? || value.value == "" then fallback else value.value
  }
}
