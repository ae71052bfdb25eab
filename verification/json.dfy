/** JSON values as the modelled scripts see them after `JSON.parse`.
    Objects keep their properties in insertion order; numbers are integers. */
module Json {
  import opened Wrappers

  datatype Json =
    | JNull
    | JBool(b: bool)
    | JNum(n: int)
    | JStr(s: string)
    | JArr(items: seq<Json>)
    | JObj(fields: seq<Field>)

  datatype Field = Field(key: string, val: Json)

  /** `value === null || typeof value` is string, number or boolean. */
  predicate IsPrimitive(v: Json) { v.JNull? || v.JBool? || v.JNum? || v.JStr? }

  /** JavaScript truthiness. */
  predicate Truthy(v: Json) {
    match v
    case JNull => false
    case JBool(b) => b
    case JNum(n) => n != 0
    case JStr(s) => s != ""
    case _ => true
  }

  /** A property that may be absent (`undefined`) counts as falsy. */
  predicate TruthyOpt(v: Option<Json>) { v.Some? && Truthy(v.value) }

  function Keys(fields: seq<Field>): (ks: seq<string>)
    ensures |ks| == |fields|
    ensures forall i :: 0 <= i < |fields| ==> ks[i] == fields[i].key
  {
    if fields == [] then [] else [fields[0].key] + Keys(fields[1..])
  }

  predicate DistinctKeys(fields: seq<Field>) {
    forall i, j :: 0 <= i < j < |fields| ==> fields[i].key != fields[j].key
  }

  /** Property lookup; `None` is `undefined`. */
  function Get(fields: seq<Field>, key: string): (r: Option<Json>)
    ensures r.Some? <==> key in Keys(fields)
    ensures r.Some? ==> Field(key, r.value) in fields
  {
    if fields == [] then None
    else if fields[0].key == key then Some(fields[0].val)
    else Get(fields[1..], key)
  }

  /** `obj[key]` on any value: only objects have properties here. */
  function Prop(v: Json, key: string): (r: Option<Json>)
    ensures r.Some? ==> v.JObj?
  {
    if v.JObj? then Get(v.fields, key) else None
  }

  /** A string-valued property, `None` when absent or not a string. */
  function StrProp(v: Json, key: string): (r: Option<string>)
    ensures r.Some? <==> Prop(v, key).Some? && Prop(v, key).value.JStr?
  {
    match Prop(v, key)
    case Some(JStr(s)) => Some(s)
    case _ => None
  }

  /** `Boolean(obj[key])`. */
  predicate TruthyProp(v: Json, key: string) { TruthyOpt(Prop(v, key)) }

  /** `target[key] = value`: an existing property keeps its place. */
  function Put(fields: seq<Field>, key: string, value: Json): (r: seq<Field>)
    ensures Get(r, key) == Some(value)
    ensures forall k :: k != key ==> Get(r, k) == Get(fields, k)
  {
    if fields == [] then [Field(key, value)]
    else if fields[0].key == key then [Field(key, value)] + fields[1..]
    else [fields[0]] + Put(fields[1..], key, value)
  }

  /** Lookup in a concatenation finds the first part's property first. */
  lemma {:induction false} GetAppend(a: seq<Field>, b: seq<Field>, key: string)
    ensures Get(a + b, key) == if Get(a, key).Some? then Get(a, key) else Get(b, key)
  {
    if a != [] {
      assert (a + b)[0] == a[0] && (a + b)[1..] == a[1..] + b;
      GetAppend(a[1..], b, key);
      if a[0].key != key {
        assert Get(a + b, key) == Get(a[1..] + b, key);
        assert Get(a, key) == Get(a[1..], key);
      }
    } else {
      assert a + b == b;
    }
  }
}
