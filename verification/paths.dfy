/** Path relativisation (src/injest/mod.rs): `path_relativizie` strips a base path from an
    item path with `RelativePath::strip_prefix`, which compares the two paths component by
    component. A component is a non-empty run of characters between `/` separators. */
module Paths {
  import opened Wrappers

  /** `StripPrefixError`: the base is not a prefix of the item. */
  datatype RelativizeError = StripPrefixError

  predicate IsComponent(c: string)
  {
    |c| > 0 && '/' !in c
  }

  predicate AllComponents(cs: seq<string>)
  {
    forall i :: 0 <= i < |cs| ==> IsComponent(cs[i])
  }

  /** The components of `s`, given that `cur` is the component read so far. */
  function ComponentsFrom(s: string, cur: string): (cs: seq<string>)
    requires '/' !in cur
    ensures AllComponents(cs)
  {
    if s == [] then (if cur == [] then [] else [cur])
    else if s[0] == '/' then
      (if cur == [] then [] else [cur]) + ComponentsFrom(s[1..], [])
    else ComponentsFrom(s[1..], cur + [s[0]])
  }

  /** The components of a path: separators are dropped, and so are empty segments
      (`a//b/` has the components `a` and `b`). */
  function Components(p: string): (cs: seq<string>)
    ensures AllComponents(cs)
  {
    ComponentsFrom(p, [])
  }

  /** The path with components `cs`, joined by `/`. */
  function Join(cs: seq<string>): string
  {
    if |cs| == 0 then [] else if |cs| == 1 then cs[0] else cs[0] + "/" + Join(cs[1..])
  }

  /** Reading a separator-free word just extends the current component. */
  lemma {:induction false} ComponentsFromWord(w: string, rest: string, cur: string)
    requires '/' !in w && '/' !in cur
    ensures ComponentsFrom(w + rest, cur) == ComponentsFrom(rest, cur + w)
  {
    if w != [] {
      assert (w + rest)[0] == w[0];
      assert (w + rest)[1..] == w[1..] + rest;
      ComponentsFromWord(w[1..], rest, cur + [w[0]]);
      assert cur + [w[0]] + w[1..] == cur + w;
    } else {
      assert w + rest == rest;
      assert cur + w == cur;
    }
  }

  /** Joining components and splitting the result again gives the components back. */
  lemma {:induction false} ComponentsJoin(cs: seq<string>)
    requires AllComponents(cs)
    ensures Components(Join(cs)) == cs
  {
    if |cs| == 1 {
      ComponentsFromWord(cs[0], [], []);
      assert cs[0] + [] == cs[0];
      assert [] + cs[0] == cs[0];
    } else if |cs| > 1 {
      var rest := Join(cs[1..]);
      assert cs[0] + "/" + rest == cs[0] + ("/" + rest);
      ComponentsFromWord(cs[0], "/" + rest, []);
      assert [] + cs[0] == cs[0];
      assert ("/" + rest)[1..] == rest;
      ComponentsJoin(cs[1..]);
      assert cs == [cs[0]] + cs[1..];
    }
  }

  /** `path_relativizie(base, item)`: the components of `item` after those of `base`,
      joined by `/`, or `StripPrefixError` when the components of `base` are not a prefix
      of those of `item`. Joining `base` and the result gives `item` back. */
  function PathRelativize(base: string, item: string): (r: Result<string, RelativizeError>)
    ensures r.Ok? <==> Components(base) <= Components(item)
    ensures r.Ok? ==> Components(base) + Components(r.value) == Components(item)
  {
    var b, it := Components(base), Components(item);
    if b <= it then
      ComponentsJoin(it[|b|..]);
      assert it == b + it[|b|..];
      Ok(Join(it[|b|..]))
    else Err(StripPrefixError)
  }

  /** A path relative to itself is the empty path. */
  lemma RelativizeSelf(p: string)
    ensures PathRelativize(p, p) == Ok("")
  {
  }

  /** Prefixing is by components, not by characters: `ab` is not a prefix of `abc/d`. */
  lemma RelativizeByComponents()
    ensures PathRelativize("ab", "abc/d").Err?
  {
    ComponentsJoin(["abc", "d"]);
    assert Join(["abc", "d"]) == "abc/d";
    ComponentsJoin(["ab"]);
    assert Join(["ab"]) == "ab";
    assert ["ab"] != ["abc", "d"][..1];
  }

  /** The result of relativising `base + "/" + rest` against `base` is `rest`, once normalised. */
  lemma RelativizeJoined(base: seq<string>, rest: seq<string>)
    requires AllComponents(base) && AllComponents(rest)
    ensures PathRelativize(Join(base), Join(base + rest)) == Ok(Join(rest))
  {
    ComponentsJoin(base);
    ComponentsJoin(base + rest) by {
      assert forall i :: 0 <= i < |base + rest| ==> (base + rest)[i] == (if i < |base| then base[i] else rest[i - |base|]);
    }
    assert (base + rest)[|base|..] == rest;
  }
}
