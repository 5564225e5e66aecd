/** Values that JSON.parse produces and the strings the browser's key/value storage holds. */
module JsonValues {

  datatype Option<T> = None | Some(value: T)

  /** A value produced by JSON.parse (numbers are integers in this model). */
  datatype Json =
    | JNull
    | JBool(b: bool)
    | JNum(n: int)
    | JStr(s: string)
    | JArray(items: seq<Json>)
    | JObject(members: map<string, Json>)

  /** JavaScript truthiness of a parsed value: null, false, 0 and "" are falsy,
      every array and every object (even an empty one) is truthy. */
  predicate Truthy(v: Json)
    ensures !Truthy(v) <==> v == JNull || v == JBool(false) || v == JNum(0) || v == JStr("")
    ensures v.JArray? || v.JObject? ==> Truthy(v)
  {
    match v
    case JNull => false
    case JBool(b) => b
    case JNum(n) => n != 0
    case JStr(s) => s != ""
    case JArray(_) => true
    case JObject(_) => true
  }

  /** A string held in storage. `Serialized(v)` is the text JSON.stringify(v)
      produces, a number written as its plain decimal numeral; `Other(raw)` is
      any text that JSON.parse rejects (the empty string among them), left
      there by some other writer. Parsable text in another form, such as the
      numeral "1e3", is not represented. */
  datatype Text = Serialized(value: Json) | Other(raw: string)

  /** Truthiness of the stored string itself: only the empty string is falsy,
      and a JSON text is never empty. */
  predicate TextTruthy(t: Text)
    ensures !TextTruthy(t) <==> t == Other("")
  {
    t.Serialized? || t.raw != ""
  }

  /** JSON.parse: gives back the value a Serialized text was written from and
      throws (None) on any other text. */
  function Parse(t: Text): (r: Option<Json>)
    ensures r.Some? <==> t.Serialized?
    ensures t.Serialized? ==> r == Some(t.value)
  {
    match t
    case Serialized(v) => Some(v)
    case Other(_) => None
  }
}
