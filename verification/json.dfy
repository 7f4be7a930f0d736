/**
 * JSON values as `JSON.parse` produces them, and the text codec
 * (`JSON.parse` / `JSON.stringify`) kept abstract.
 */
module Json {
  import opened Wrappers

  datatype Json =
    | JNull
    | JBool(b: bool)
    | JNumber(n: real)
    | JString(s: string)
    | JArray(items: seq<Json>)
    | JObject(fields: map<string, Json>)

  /**
   * `JSON.parse` (None where it throws) and `JSON.stringify`. Their
   * implementations are not part of this model.
   */
  datatype JsonCodec = JsonCodec(parse: string -> Option<Json>, stringify: Json -> string)

  /**
   * The codec carries `v` through text: stringifying it gives non-empty
   * text, and parsing that text gives `v` again. This is a statement about
   * one value; `JSON.stringify` followed by `JSON.parse` does this for the
   * records the app writes, whose numbers are `Date.now()` timestamps.
   */
  predicate RoundTrips(codec: JsonCodec, v: Json) {
    codec.stringify(v) != "" && codec.parse(codec.stringify(v)) == Some(v)
  }

  /** A codec that knows exactly one value, written as `text`. */
  function OneValueCodec(v: Json, text: string): JsonCodec {
    JsonCodec(s => if s == text then Some(v) else None, _ => text)
  }

  /** For every value there is a codec that round-trips it, so assuming `RoundTrips` excludes no value. */
  lemma RoundTripsSatisfiable(v: Json, text: string)
    requires text != ""
    ensures RoundTrips(OneValueCodec(v, text), v)
    ensures OneValueCodec(v, text).parse(text + " ") == None
  {
  }
}
