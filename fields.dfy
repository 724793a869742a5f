/** `fields.Set`: a map of field names to values, presented through `Has` and `Get`. */
module Fields {
  import opened KeyValueText

  /** `fields.Set`. */
  type FieldSet = map<string, string>

  /** `Has`: whether the field is present, whatever its value. */
  function Has(s: FieldSet, field: string): (present: bool)
    ensures present <==> field in s
  {
    field in s
  }

  /** `Get`: the field's value; a missing field reads as "", like a present empty one. */
  function Get(s: FieldSet, field: string): (value: string)
    ensures Has(s, field) ==> value == s[field]
    ensures !Has(s, field) ==> value == ""
    ensures value != "" ==> Has(s, field)
  {
    if field in s then s[field] else ""
  }

  /** `String`: the `field=value` pairs sorted and joined with commas, so that equal sets
      give equal text. */
  method String(s: FieldSet) returns (r: string)
    ensures r == Rendered(s, ShowString)
  {
    r := RenderPairs(s, ShowString);
  }

  /** Only the empty set renders as "". */
  lemma StringIsEmpty(s: FieldSet)
    ensures Rendered(s, ShowString) == "" <==> s == map[]
  {
    RenderedIsEmpty(s, ShowString);
  }

  /** Sets whose fields and values hold no comma and no surrounding space, and whose
      fields hold no '=', render differently whenever they differ. */
  lemma StringDeterminesSet(a: FieldSet, b: FieldSet)
    requires RoundTrips(a, ShowString, ReadString) && RoundTrips(b, ShowString, ReadString)
    requires Rendered(a, ShowString) == Rendered(b, ShowString)
    ensures a == b
  {
    ParseRendered(a, ShowString, ReadString);
    ParseRendered(b, ShowString, ReadString);
  }
}
