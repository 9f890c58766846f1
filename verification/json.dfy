/**
 The document the status endpoint returns, as Python holds it after
 `response.json()`: a JSON value whose objects are Python dicts.  Only the
 parts of Python that the bridge relies on are modelled here: truthiness
 (the `if printer_data:` test) and `dict.get`.
 */
module Json {

  /** A parsed JSON value.  Numbers are exact; an object is the dict that
      `json.loads` builds (a later duplicate key replaces an earlier one, so a
      map is the right shape). */
  datatype Json =
    | JNull
    | JBool(b: bool)
    | JNumber(n: real)
    | JString(s: string)
    | JArray(items: seq<Json>)
    | JObject(fields: map<string, Json>)

  /** Python's `bool(v)` for the value `json.loads` produced: `None`, `False`,
      zero, and the empty string, list and dict are false; everything else is
      true. */
  predicate Truthy(v: Json) {
    match v
    case JNull => false
    case JBool(b) => b
    case JNumber(n) => n != 0.0
    case JString(s) => |s| > 0
    case JArray(items) => |items| > 0
    case JObject(fields) => |fields| > 0
  }

  /** `fields.get(key)`: the stored value, or Python's `None` when the key is
      missing.  A JSON `null` is also `None` once parsed, so both read as `JNull`. */
  function DictGet(fields: map<string, Json>, key: string): (r: Json)
    ensures r != JNull <==> key in fields && fields[key] != JNull
    ensures r != JNull ==> r == fields[key]
  {
    if key in fields then fields[key] else JNull
  }

  /** A dict is truthy exactly when it has a key, whatever that key holds —
      in particular `{"printer": null}` is truthy while `{}` is not. */
  lemma ObjectTruthiness(fields: map<string, Json>)
    ensures Truthy(JObject(fields)) <==> exists k :: k in fields
  {
    if |fields| > 0 {
      var k :| k in fields;
    } else {
      assert fields == map[];
    }
  }
}
