/** `toml_v_to_json_v` (src/injest/generate.rs:48-77): a TOML value as a template value. */
module TomlJson {
  import J = Values

  /** `toml::Value`, without floating point. A date-time is kept as its text. */
  datatype Toml =
    | String(s: string)
    | Integer(i: int)
    | Boolean(b: bool)
    | Datetime(text: string)
    | Array(items: seq<Toml>)
    | Table(entries: map<string, Toml>)

  /** The conversion: scalars map to the JSON scalar of the same kind (a date-time to its
      text), arrays map element by element in order, tables key by key. */
  function ToJson(t: Toml): (r: J.Json)
    ensures t.String? ==> r == J.String(t.s)
    ensures t.Integer? ==> r == J.Number(t.i)
    ensures t.Boolean? ==> r == J.Bool(t.b)
    ensures t.Datetime? ==> r == J.String(t.text)
    ensures t.Array? ==> r.Array? && |r.items| == |t.items|
    ensures t.Array? ==> forall i :: 0 <= i < |t.items| ==> r.items[i] == ToJson(t.items[i])
    ensures t.Table? ==> r.Object? && r.fields.Keys == t.entries.Keys
    ensures t.Table? ==> forall k :: k in t.entries ==> r.fields[k] == ToJson(t.entries[k])
  {
    match t
    case String(s) => J.String(s)
    case Integer(n) => J.Number(n)
    case Boolean(b) => J.Bool(b)
    case Datetime(d) => J.String(d)
    case Array(a) => J.Array(seq(|a|, i requires 0 <= i < |a| => ToJson(a[i])))
    case Table(m) => J.Object(map k | k in m :: ToJson(m[k]))
  }

  /** A JSON value with no `null` anywhere in it. */
  predicate NullFree(j: J.Json)
  {
    match j
    case Null => false
    case Array(items) => forall i :: 0 <= i < |items| ==> NullFree(items[i])
    case Object(fields) => forall k :: k in fields ==> NullFree(fields[k])
    case _ => true
  }

  /** The number of scalars in a JSON value, counting through arrays (objects count one). */
  function JsonLeaves(j: J.Json): nat
  {
    match j
    case Array(items) => SumJsonLeaves(items)
    case _ => 1
  }

  function SumJsonLeaves(items: seq<J.Json>): nat
  {
    if items == [] then 0 else JsonLeaves(items[0]) + SumJsonLeaves(items[1..])
  }

  /** The number of scalars in a TOML value, counting through arrays (tables count one). */
  function TomlLeaves(t: Toml): nat
  {
    match t
    case Array(items) => SumTomlLeaves(items)
    case _ => 1
  }

  function SumTomlLeaves(items: seq<Toml>): nat
  {
    if items == [] then 0 else TomlLeaves(items[0]) + SumTomlLeaves(items[1..])
  }

  /** TOML has no null, so no converted value holds one. */
  lemma {:induction false} ToJsonNullFree(t: Toml)
    ensures NullFree(ToJson(t))
  {
    match t
    case Array(a) =>
      forall i | 0 <= i < |a| ensures NullFree(ToJson(t).items[i]) {
        ToJsonNullFree(a[i]);
      }
    case Table(m) =>
      forall k | k in m ensures NullFree(ToJson(t).fields[k]) {
        ToJsonNullFree(m[k]);
      }
    case _ =>
  }

  /** Arrays convert element for element: nothing is dropped or added at any depth. */
  lemma {:induction false} ToJsonKeepsLeaves(t: Toml)
    ensures JsonLeaves(ToJson(t)) == TomlLeaves(t)
  {
    match t
    case Array(a) => ToJsonKeepsSumLeaves(a, ToJson(t).items);
    case _ =>
  }

  lemma {:induction false} ToJsonKeepsSumLeaves(a: seq<Toml>, js: seq<J.Json>)
    requires |js| == |a| && forall i :: 0 <= i < |a| ==> js[i] == ToJson(a[i])
    ensures SumJsonLeaves(js) == SumTomlLeaves(a)
    decreases a
  {
    if a != [] {
      ToJsonKeepsLeaves(a[0]);
      ToJsonKeepsSumLeaves(a[1..], js[1..]);
    }
  }
}
