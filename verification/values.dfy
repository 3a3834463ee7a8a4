/** Values shared by every part of the model: optional values, request
    fields and the JavaScript notions of "missing" and "blank" that the
    handlers test their inputs with. */
module Values {

  /** A value that may be absent (`undefined`/`null` in the source). */
  datatype Option<+T> = None | Some(value: T)

  /** The outcome of a store write: the new state, or the reason it was refused. */
  datatype Result<+T, +E> = Ok(value: T) | Err(error: E)

  /** Document identifiers (Mongo ObjectIds, compared by their string form). */
  type Id = string

  /** A string field of a request body, query or cookie jar; `None` when the
      client did not send it. */
  type Field = Option<string>

  /** JavaScript truthiness of a string field (`!x` is false), which is also
      what a Mongoose `required: true` string path demands: present and not
      the empty string. */
  predicate Present(f: Field) {
    f.Some? && f.value != ""
  }

  /** The characters `String.prototype.trim` removes: the ECMAScript
      WhiteSpace and LineTerminator code points. */
  predicate IsJsSpace(c: char) {
    || c == ' ' || c == '\t' || c == '\n' || c == '\r'
    || c == '\U{0B}' || c == '\U{0C}' || c == '\U{A0}' || c == '\U{1680}'
    || ('\U{2000}' <= c <= '\U{200A}')
    || c == '\U{2028}' || c == '\U{2029}' || c == '\U{202F}'
    || c == '\U{205F}' || c == '\U{3000}' || c == '\U{FEFF}'
  }

  /** `s.trim() === ''`: every character of `s` is trimmed away. */
  predicate IsBlank(s: string) {
    forall i :: 0 <= i < |s| ==> IsJsSpace(s[i])
  }

  /** A field that survives the login handler's check: present and not blank
      after trimming. */
  predicate Filled(f: Field) {
    f.Some? && !IsBlank(f.value)
  }

  /** Every filled field is present; the present fields that are not filled
      are exactly the non-empty whitespace-only strings. */
  lemma FilledIsPresent(f: Field)
    ensures Filled(f) ==> Present(f)
    ensures Present(f) && !Filled(f) <==> f.Some? && f.value != "" && IsBlank(f.value)
  {
  }
}
