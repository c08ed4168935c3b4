/** The parts of gin's request binding whose outcome the handlers' contracts
    depend on: validating an integer `:id` path segment against its
    `binding` tags, and decoding an optional JSON member into a Go pointer
    field or a plain field. Everything else about JSON decoding is kept
    abstract in `Wire.Bind`. */
module Binding {
  import opened Wire

  /** The `:id` path segment: text that did not parse as an int32 (with the
      parser's error text), or the parsed value. */
  datatype UriParam = Unparsable(text: string) | Parsed(value: int32)

  /** The validator tags on a uri id: `binding:"required"` or
      `binding:"required,min=1"`. */
  datatype IdRule = Required | RequiredMin1

  /** The validator's message for the field `ID` of `structName` failing
      `tag`. */
  function ValidationText(structName: string, tag: string): string {
    "Key: '" + structName + ".ID' Error:Field validation for 'ID' failed on the '" + tag + "' tag"
  }

  /** `ctx.ShouldBindUri` into a struct whose only field is the id. The
      `required` tag rejects the zero value; `min=1` rejects anything lower
      than 1, so under `required` alone a negative id is accepted. */
  function BindUriId(p: UriParam, structName: string, rule: IdRule): (b: Bind<int32>)
    ensures b.BindOk? <==> p.Parsed? && p.value != 0 && (rule == RequiredMin1 ==> p.value >= 1)
    ensures b.BindOk? ==> b.req == p.value
  {
    match p
    case Unparsable(t) => BindErr(t)
    case Parsed(v) =>
      if v == 0 then BindErr(ValidationText(structName, "required"))
      else if rule == RequiredMin1 && v < 1 then BindErr(ValidationText(structName, "min"))
      else BindOk(v)
  }

  /** How one member of a JSON object appeared: absent, `null`, or a value
      of the field's type. */
  datatype JsonField<T> = Missing | JsonNull | Present(value: T)

  /** Decoding into a pointer field (`*T`): an absent member and a `null`
      both leave the pointer nil; a value, zero included, is pointed to. */
  function IntoPointer<T>(f: JsonField<T>): (r: Option<T>)
    ensures r.Some? <==> f.Present?
    ensures r.Some? ==> r.value == f.value
  {
    if f.Present? then Some(f.value) else None
  }

  /** Decoding into a plain field: an absent member and a `null` both leave
      the field at its zero value. */
  function IntoValue<T>(f: JsonField<T>, zero: T): (r: T)
    ensures f.Present? ==> r == f.value
    ensures !f.Present? ==> r == zero
  {
    if f.Present? then f.value else zero
  }
}
