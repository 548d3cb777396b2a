/**
 * Decoded JSON as Python's `json` module hands it to the handlers, with the
 * Python idioms the handlers use to read it: truthiness, `dict.get`, chains of
 * `or`, and the two payload shapes of the aviation weather data server.
 */
module JsonValues {

  datatype Option<T> = None | Some(value: T)

  /** The outcome of handler code that may raise: a value, or an exception that
      reaches the handler's own `except Exception` clause. */
  datatype Result<T> = Ok(value: T) | Raised

  /** A decoded JSON value. JSON `null` and a key `dict.get` does not find both
      read as Python's None, which is `JNull` here. */
  datatype Json =
    | JNull
    | JBool(b: bool)
    | JNum(n: real)
    | JStr(s: string)
    | JArr(items: seq<Json>)
    | JObj(fields: map<string, Json>)

  /** Python's truth value of a decoded JSON value. */
  predicate Truthy(v: Json) {
    match v
    case JNull => false
    case JBool(b) => b
    case JNum(n) => n != 0.0
    case JStr(s) => s != []
    case JArr(a) => a != []
    case JObj(m) => m != map[]
  }

  /** `d.get(key)` */
  function Get(d: map<string, Json>, key: string): Json {
    if key in d then d[key] else JNull
  }

  /** `d.get(key, default)`: the default only when the key is missing, even if
      the value stored under the key is null. */
  function GetOr(d: map<string, Json>, key: string, default: Json): Json {
    if key in d then d[key] else default
  }

  /** Python's `vs[0] or vs[1] or ... or vs[|vs| - 1]`. */
  function Or(vs: seq<Json>): (r: Json)
    requires vs != []
    ensures forall i ::
      (0 <= i < |vs| && Truthy(vs[i]) && (forall j :: 0 <= j < i ==> !Truthy(vs[j]))) ==> r == vs[i]
    ensures (forall i :: 0 <= i < |vs| ==> !Truthy(vs[i])) ==> r == vs[|vs| - 1]
    ensures Truthy(r) <==> exists i :: 0 <= i < |vs| && Truthy(vs[i])
  {
    if |vs| == 1 || Truthy(vs[0]) then vs[0] else Or(vs[1..])
  }

  /** `[d.get(k) for k in keys]`, the operands of a chain `d.get(k1) or d.get(k2) ...` */
  function Lookups(d: map<string, Json>, keys: seq<string>): (r: seq<Json>)
    ensures |r| == |keys|
    ensures forall i :: 0 <= i < |keys| ==> r[i] == Get(d, keys[i])
  {
    seq(|keys|, i requires 0 <= i < |keys| => Get(d, keys[i]))
  }

  /** `prefix` before a list that may not have been built. */
  function Then<T>(prefix: seq<T>, r: Result<seq<T>>): (q: Result<seq<T>>)
    ensures q.Raised? <==> r.Raised?
    ensures q.Ok? ==> |q.value| == |prefix| + |r.value| && q.value[..|prefix|] == prefix && q.value[|prefix|..] == r.value
  {
    if r.Raised? then Raised else Ok(prefix + r.value)
  }

  /** Prefixing twice is prefixing with the concatenation. */
  lemma {:induction false} ThenThen<T>(a: seq<T>, b: seq<T>, r: Result<seq<T>>)
    ensures Then(a, Then(b, r)) == Then(a + b, r)
  {
    if r.Ok? {
      assert a + (b + r.value) == a + b + r.value;
    }
  }

  /** One HTTP exchange with the data server: the request raised (network
      error, timeout), or a reply whose body `r.json()` decodes (None when
      `r.json()` raises). */
  datatype Response = TransportError | Reply(status: int, body: Option<Json>)

  /** `j.get('features') or j.get(entity, {}).get('data') or []`: the payload
      list under either the GeoJSON shape or the nested `{entity: {data: ...}}`
      shape. Raised when `j` is not an object, or when the GeoJSON shape is
      absent and `j[entity]` is present but not an object. */
  function Payload(j: Json, entity: string): (r: Result<Json>)
    ensures !j.JObj? ==> r == Raised
    ensures j.JObj? && Truthy(Get(j.fields, "features")) ==> r == Ok(j.fields["features"])
    ensures j.JObj? && !Truthy(Get(j.fields, "features")) && entity !in j.fields ==> r == Ok(JArr([]))
    ensures (j.JObj? && !Truthy(Get(j.fields, "features")) && entity in j.fields && j.fields[entity].JObj?
             && Truthy(Get(j.fields[entity].fields, "data")))
      ==> r == Ok(j.fields[entity].fields["data"])
    ensures (j.JObj? && !Truthy(Get(j.fields, "features")) && entity in j.fields && j.fields[entity].JObj?
             && !Truthy(Get(j.fields[entity].fields, "data")))
      ==> r == Ok(JArr([]))
    ensures r.Raised? <==> !j.JObj? || (!Truthy(Get(j.fields, "features")) && entity in j.fields && !j.fields[entity].JObj?)
    ensures r.Ok? ==> r.value == JArr([]) || Truthy(r.value)
  {
    if !j.JObj? then Raised
    else
      var features := Get(j.fields, "features");
      if Truthy(features) then Ok(features)
      else
        var nested := GetOr(j.fields, entity, JObj(map[]));
        if !nested.JObj? then Raised
        else Ok(Or([Get(nested.fields, "data"), JArr([])]))
  }

  /** The items of the payload when it is a list (`isinstance(data, list)`), none otherwise. */
  function ListItems(data: Json): seq<Json> {
    if data.JArr? then data.items else []
  }

  /** `item.get('properties') if isinstance(item, dict) else item` */
  function ItemProps(item: Json): Json {
    if item.JObj? then Get(item.fields, "properties") else item
  }
}
