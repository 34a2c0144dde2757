/** The template engine's value type (`tera::Value`, which is `serde_json::Value`).
    Numbers are integers here: floating point is not part of this model. */
module Values {
  import opened Wrappers

  datatype Json =
    | Null
    | Bool(b: bool)
    | Number(n: int)
    | String(s: string)
    | Array(items: seq<Json>)
    | Object(fields: map<string, Json>)

  /** A list of strings as a JSON array, in order. */
  function StringArray(xs: seq<string>): (j: Json)
    ensures j.Array? && |j.items| == |xs|
    ensures forall i :: 0 <= i < |xs| ==> j.items[i] == String(xs[i])
  {
    Array(seq(|xs|, i requires 0 <= i < |xs| => String(xs[i])))
  }

  /** Reading a JSON array of strings back, as deserialising it into a list of strings
      does; anything else is not such a list. */
  function StringsOf(j: Json): (r: Option<seq<string>>)
    ensures r.Some? ==> j.Array? && |r.value| == |j.items|
  {
    if j.Array? && forall i :: 0 <= i < |j.items| ==> j.items[i].String? then
      Some(seq(|j.items|, i requires 0 <= i < |j.items| && j.items[i].String? => j.items[i].s))
    else None
  }

  /** The array of a list of strings reads back as that list. */
  lemma StringsOfStringArray(xs: seq<string>)
    ensures StringsOf(StringArray(xs)) == Some(xs)
  {
    var j := StringArray(xs);
    assert forall i :: 0 <= i < |j.items| ==> j.items[i].String?;
    assert StringsOf(j).value == xs;
  }

  /** Whatever reads back as a list of strings is that list's array. */
  lemma StringArrayOfStrings(j: Json)
    requires StringsOf(j).Some?
    ensures StringArray(StringsOf(j).value) == j
  {
    var xs := StringsOf(j).value;
    assert StringArray(xs).items == j.items;
  }

  /** An optional string: `null` when absent. */
  function OptString(x: Option<string>): Json
  {
    match x
    case None => Null
    case Some(s) => String(s)
  }
}
