/**
 * JSON values as the PHP endpoints and the React pages see them, with the two
 * languages' truthiness rules, and the stored form of a history blob.
 */
module Json {
  import opened Wrappers

  /** A decoded JSON document. Objects are keyed maps (key order is not modelled). */
  datatype Json =
    | JNull
    | JBool(b: bool)
    | JNum(n: real)
    | JStr(s: string)
    | JArr(items: seq<Json>)
    | JObj(fields: map<string, Json>)

  /** PHP's `[]`, which `json_encode` writes as the empty JSON array. */
  const EmptyArray: Json := JArr([])

  /** PHP `is_array` on a value decoded with `json_decode($raw, true)`: lists and objects. */
  predicate IsPhpArray(v: Json) {
    v.JArr? || v.JObj?
  }

  /** PHP's `(bool)` cast: null, false, 0, "", "0" and empty arrays are false. */
  predicate PhpTruthy(v: Json) {
    match v
    case JNull => false
    case JBool(b) => b
    case JNum(n) => n != 0.0
    case JStr(s) => s != "" && s != "0"
    case JArr(items) => |items| > 0
    case JObj(fields) => |fields| > 0
  }

  /**
   * JavaScript truthiness of a property value; `None` is `undefined`.
   * Unlike PHP, every array and object is truthy and "0" is truthy.
   */
  predicate JsTruthy(v: Option<Json>) {
    match v
    case None => false
    case Some(JNull) => false
    case Some(JBool(b)) => b
    case Some(JNum(n)) => n != 0.0
    case Some(JStr(s)) => s != ""
    case Some(JArr(_)) => true
    case Some(JObj(_)) => true
  }

  /** `x == null` in JavaScript: null or undefined. */
  predicate IsNullish(v: Option<Json>) {
    v.None? || v == Some(JNull)
  }

  /** JavaScript's `a ?? b`. */
  function Coalesce(a: Option<Json>, b: Option<Json>): (r: Option<Json>)
    ensures !IsNullish(a) ==> r == a
    ensures IsNullish(a) ==> r == b
  {
    if IsNullish(a) then b else a
  }

  /** Optional chaining `v?.key`: the field of an object, `undefined` for anything else. */
  function Get(v: Option<Json>, key: string): (r: Option<Json>)
    ensures r.Some? <==> v.Some? && v.value.JObj? && key in v.value.fields
  {
    match v
    case Some(JObj(fields)) => if key in fields then Some(fields[key]) else None
    case _ => None
  }

  /**
   * The text held in an `input_data` / `output_data` column: the encoding of a
   * JSON value written by this program, or text that is not valid JSON
   * (written by something else).
   */
  datatype Blob = Stored(value: Json) | Unreadable

  /** `json_decode($text, true)`: the stored value, or null when the text does not parse. */
  function JsonDecode(b: Blob): (v: Json)
    ensures b.Unreadable? ==> v == JNull
  {
    match b
    case Stored(v) => v
    case Unreadable => JNull
  }

  /** `json_decode($text, true) ?? []`: never null. */
  function DecodeOrEmpty(b: Blob): (v: Json)
    ensures v != JNull
    ensures JsonDecode(b) != JNull ==> v == JsonDecode(b)
  {
    var d := JsonDecode(b);
    if d == JNull then EmptyArray else d
  }
}
