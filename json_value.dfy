/** The value `JSON.parse` returns, and the two JavaScript operations the
    extractor applies to it: property access and truthiness. */
module JsonValue {
  import opened Wrappers

  /** A parsed JSON value (RFC 8259). Numbers carry the value the parser
      produced; object members keep their textual order, duplicates included. */
  datatype Json =
    | JNull
    | JBool(b: bool)
    | JNumber(n: real)
    | JString(s: string)
    | JArray(items: seq<Json>)
    | JObject(members: seq<(string, Json)>)

  /** JavaScript truthiness of a parsed value: `null`, `false`, `0` and `""`
      are falsy; every array and object is truthy, even an empty one. */
  predicate Truthy(v: Json) {
    match v
    case JNull => false
    case JBool(b) => b
    case JNumber(n) => n != 0.0
    case JString(s) => s != ""
    case JArray(_) => true
    case JObject(_) => true
  }

  /** The value bound to `key` by the LAST member that uses it, which is the
      binding `JSON.parse` keeps when a key is repeated. */
  function LastBinding(members: seq<(string, Json)>, key: string): (r: Option<Json>)
    ensures r.None? <==> forall i :: 0 <= i < |members| ==> members[i].0 != key
    ensures r.Some? ==> exists i :: 0 <= i < |members| && members[i] == (key, r.value)
                           && forall i' :: i < i' < |members| ==> members[i'].0 != key
  {
    if members == [] then None
    else
      var last := members[|members| - 1];
      if last.0 == key then Some(last.1)
      else LastBinding(members[..|members| - 1], key)
  }

  /** `v[key]` on a non-null parsed value: an object's own member, or
      `undefined` (None) for arrays, strings, numbers and booleans, which have
      no property of that name. Reading a property of `null` throws, so it is
      excluded here and handled by the caller. */
  function Member(v: Json, key: string): (r: Option<Json>)
    requires !v.JNull?
    ensures !v.JObject? ==> r.None?
  {
    match v
    case JObject(members) => LastBinding(members, key)
    case _ => None
  }

  /** `v?.[key]`: `undefined` or `null` on the left short-circuits to
      `undefined` instead of throwing. */
  function OptionalMember(v: Option<Json>, key: string): (r: Option<Json>)
    ensures (v.None? || v == Some(JNull)) ==> r.None?
  {
    match v
    case None => None
    case Some(JNull) => None
    case Some(x) => Member(x, key)
  }

  /** `v || fallback` where `v` may be `undefined`: the value itself when
      present and truthy, `fallback` otherwise. */
  function OrElse(v: Option<Json>, fallback: Json): Json {
    if v.Some? && Truthy(v.value) then v.value else fallback
  }

  /** A member whose key is not repeated after it is the one read back. */
  lemma {:induction false} LastBindingAt(members: seq<(string, Json)>, i: nat)
    requires i < |members|
    requires forall j :: i < j < |members| ==> members[j].0 != members[i].0
    ensures LastBinding(members, members[i].0) == Some(members[i].1)
  {
    if i < |members| - 1 {
      var init := members[..|members| - 1];
      assert init[i] == members[i];
      LastBindingAt(init, i);
    }
  }
}
