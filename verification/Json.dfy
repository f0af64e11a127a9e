/** JSON values and the accessors of the `serde_json` crate that the components use. */
module Json {
  import opened Options

  datatype Json =
    | JNull
    | JBool(b: bool)
    | JInt(n: int)
    | JFloat(x: real)
    | JString(s: string)
    | JArray(items: seq<Json>)
    | JObject(fields: seq<Field>)

  datatype Field = Field(key: string, value: Json)

  const U64_LIMIT: nat := 0x1_0000_0000_0000_0000
  const I64_LIMIT: int := 0x8000_0000_0000_0000

  function Lookup(fields: seq<Field>, key: string): Option<Json> {
    if fields == [] then None else if fields[0].key == key then Some(fields[0].value) else Lookup(fields[1..], key)
  }

  /** `Value::get`: nothing unless the value is an object that has the key. */
  function Get(v: Json, key: string): Option<Json> {
    if v.JObject? then Lookup(v.fields, key) else None
  }

  function GetFrom(v: Option<Json>, key: string): Option<Json> {
    if v.Some? then Get(v.value, key) else None
  }

  /** `value[key]`: null when the key is missing. */
  function Index(v: Json, key: string): Json {
    if Get(v, key).Some? then Get(v, key).value else JNull
  }

  function AsString(v: Option<Json>): Option<string> {
    if v.Some? && v.value.JString? then Some(v.value.s) else None
  }

  function AsU64(v: Json): (n: Option<nat>)
    ensures n.Some? ==> n.value < U64_LIMIT
  {
    if v.JInt? && 0 <= v.n < U64_LIMIT then Some(v.n) else None
  }

  function AsI64(v: Option<Json>): Option<int> {
    if v.Some? && v.value.JInt? && -I64_LIMIT <= v.value.n < I64_LIMIT then Some(v.value.n) else None
  }

  function NonNull(v: Option<Json>): Option<Json> {
    if v == Some(JNull) then None else v
  }

  /** The place holds exactly this string. */
  predicate Says(v: Option<Json>, word: string) { v == Some(JString(word)) }

  /** The place holds no string. */
  ghost predicate Mute(v: Option<Json>) { forall w: string :: !Says(v, w) }

  lemma {:induction false} StringSays(v: Option<Json>)
    ensures AsString(v).None? <==> Mute(v)
    ensures forall w: string :: AsString(v) == Some(w) <==> Says(v, w)
  {
    if AsString(v).Some? {
      assert Says(v, v.value.s);
    }
  }
}
