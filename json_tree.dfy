/** The parsed JSON document as `System.Text.Json.JsonElement` exposes it to the decoder.
    Parsing the text into this tree is done by the serializer and is not modelled. */
module JsonTree {
  import opened Wrappers
  import opened Numbers

  newtype uint64 = x: int | 0 <= x < 0x1_0000_0000_0000_0000

  /** One JSON value. A number keeps its literal text, as `JsonElement` does;
      an object keeps its properties in document order, duplicates included. */
  datatype Json =
    | JNull
    | JBool(b: bool)
    | JNumber(literal: string)
    | JString(s: string)
    | JArray(elements: seq<Json>)
    | JObject(properties: seq<(string, Json)>)

  /** `json[i]`: throws unless `json` is an array with more than `i` elements. */
  function Index(json: Json, i: nat): (r: Result<Json>)
    ensures r.Success? <==> json.JArray? && i < |json.elements|
    ensures r.Success? ==> r.value == json.elements[i]
  {
    if json.JArray? && i < |json.elements| then Success(json.elements[i])
    else Failure("element index")
  }

  /** The position of the last property called `key`, or -1 when there is none. */
  function LastIndex(properties: seq<(string, Json)>, key: string): (r: int)
    ensures -1 <= r < |properties|
    ensures r == -1 <==> forall i :: 0 <= i < |properties| ==> properties[i].0 != key
    ensures r >= 0 ==> properties[r].0 == key && forall k :: r < k < |properties| ==> properties[k].0 != key
  {
    if properties == [] then -1
    else
      var n := |properties| - 1;
      if properties[n].0 == key then n
      else
        var r := LastIndex(properties[..n], key);
        assert forall i :: 0 <= i < n ==> properties[..n][i] == properties[i];
        r
  }

  /** The value of the last property called `key`: `JsonElement` matches the last
      definition of a property defined more than once. */
  function LastProperty(properties: seq<(string, Json)>, key: string): (r: Option<Json>)
    ensures r.None? <==> forall i :: 0 <= i < |properties| ==> properties[i].0 != key
    ensures r.Some? ==> exists i :: 0 <= i < |properties| && properties[i] == (key, r.value)
                                     && forall k :: i < k < |properties| ==> properties[k].0 != key
  {
    var i := LastIndex(properties, key);
    if i == -1 then None else Some(properties[i].1)
  }

  /** `TryGetProperty`: throws on a value that is not an object; otherwise the property if present. */
  function TryGetProperty(json: Json, key: string): (r: Result<Option<Json>>)
    ensures r.Success? <==> json.JObject?
    ensures r.Success? ==> r.value == LastProperty(json.properties, key)
  {
    if json.JObject? then Success(LastProperty(json.properties, key)) else Failure("not an object")
  }

  /** The key is present; false (not an exception) on anything but an object, for use in lemmas. */
  predicate HasProperty(json: Json, key: string)
  {
    json.JObject? && LastProperty(json.properties, key).Some?
  }

  /** `GetString() ?? throw`: only a JSON string yields a value (`null` gives null, which the
      decoder then rejects; every other kind throws). */
  function GetString(json: Json): (r: Result<string>)
    ensures r.Success? <==> json.JString?
    ensures r.Success? ==> r.value == json.s
  {
    if json.JString? then Success(json.s) else Failure("not a string")
  }

  /** `GetProperty(key).GetString() ?? throw`. */
  function GetStringProperty(json: Json, key: string): (r: Result<string>)
    ensures r.Success? <==> HasProperty(json, key) && LastProperty(json.properties, key).value.JString?
    ensures r.Success? ==> r.value == LastProperty(json.properties, key).value.s
  {
    var p :- TryGetProperty(json, key);
    if p.None? then Failure("missing property") else GetString(p.value)
  }

  /** `TryGetUInt64`: throws on a value that is not a number; false unless the literal is a
      plain decimal integer in the range of a 64-bit unsigned integer. */
  function TryGetUInt64(json: Json): (r: Result<Option<uint64>>)
    ensures r.Success? <==> json.JNumber?
    ensures r.Success? && r.value.Some? ==>
              AllDigits(json.literal) && |json.literal| > 0 && r.value.value as int == DigitsValue(json.literal)
  {
    if !json.JNumber? then Failure("not a number")
    else if |json.literal| > 0 && AllDigits(json.literal) && DigitsValue(json.literal) < 0x1_0000_0000_0000_0000
    then Success(Some(DigitsValue(json.literal) as uint64))
    else Success(None)
  }

  /** The literal the serializer writes for an unsigned integer reads back as that integer. */
  lemma TryGetUInt64Literal(n: uint64)
    ensures TryGetUInt64(JNumber(NatToString(n as nat))) == Success(Some(n))
  {
  }
}
