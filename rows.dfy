/** The proxy row every part of the application passes around: identity, direction, protocol,
    transport and four open-ended field buckets. */
module Rows {
  import opened Outcomes
  import opened JsString
  import opened JsValue

  /** An open-ended field mapping (`mainConfig`, `optionalConfig`, `transportMain`,
      `transportOptional`); a missing field is a missing key. */
  type Bucket = map<string, Value>

  /** A row. A missing top-level string field is the empty string. `legacy` holds the flat
      fields of an old-shaped stored row that the list view still reads (`host`, `port`,
      `protocol`); rows built by the parsers and the editor have none. */
  datatype Row = Row(
    id: string,
    engineId: string,
    name: string,
    direction: string,
    protocolId: string,
    transportId: string,
    mainConfig: Bucket,
    optionalConfig: Bucket,
    transportMain: Bucket,
    transportOptional: Bucket,
    legacy: Bucket)

  /** `bucket?.[key]`, None for `undefined`. */
  function Field(b: Bucket, key: string): (r: Option<Value>)
    ensures r.Some? <==> key in b
  {
    if key in b then Some(b[key]) else None
  }

  /** `String(bucket?.[key] || '')`: the field as text, or `''` when it is falsy or missing. */
  function Text(b: Bucket, key: string): (r: string)
    ensures Present(Field(b, key)) ==> r == ToStr(b[key])
    ensures !Present(Field(b, key)) ==> r == []
  {
    if Present(Field(b, key)) then ToStr(b[key]) else []
  }

  /** `bucket[a] || bucket[b] || ...` over several keys, None when all are falsy or missing. */
  function FirstPresent(b: Bucket, keys: seq<string>): (r: Option<Value>)
    ensures r.Some? ==> Truthy(r.value) && exists i :: 0 <= i < |keys| && keys[i] in b && b[keys[i]] == r.value
    ensures r.None? ==> forall i :: 0 <= i < |keys| ==> !Present(Field(b, keys[i]))
  {
    if keys == [] then None
    else if Present(Field(b, keys[0])) then Some(b[keys[0]])
    else
      var rest := FirstPresent(b, keys[1..]);
      assert rest.Some? ==> exists i :: 0 <= i < |keys| && keys[i] in b && b[keys[i]] == rest.value by {
        if rest.Some? {
          var i :| 0 <= i < |keys[1..]| && keys[1..][i] in b && b[keys[1..][i]] == rest.value;
          assert keys[i + 1] == keys[1..][i];
        }
      }
      rest
  }

  /** A bucket of text fields. */
  function Texts(fields: seq<(string, string)>): (b: Bucket)
    ensures forall k :: k in b ==> b[k].Str?
  {
    if fields == [] then map[] else Texts(fields[..|fields| - 1])[fields[|fields| - 1].0 := Str(fields[|fields| - 1].1)]
  }
}
