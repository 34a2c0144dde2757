/** String helpers of the Rust standard library that the ingester relies on:
    `str::split_once`, `str::to_ascii_lowercase` and the decimal `Display` of integers. */
module Strings {
  import opened Wrappers

  /** `pat` occurs in `s` starting at index `i`. */
  predicate OccursAt(s: string, i: int, pat: string)
  {
    0 <= i && i + |pat| <= |s| && s[i..i + |pat|] == pat
  }

  /** The first index at or after `from` where `pat` occurs in `s` (Rust's `str::find`). */
  function FindFrom(s: string, pat: string, from: nat): (r: Option<nat>)
    requires from <= |s|
    ensures r.Some? ==> from <= r.value && OccursAt(s, r.value, pat)
    ensures forall j :: from <= j && (r.None? || j < r.value) ==> !OccursAt(s, j, pat)
    decreases |s| - from
  {
    if from + |pat| > |s| then None
    else if s[from..from + |pat|] == pat then Some(from)
    else FindFrom(s, pat, from + 1)
  }

  /** Rust's `str::split_once`: the text before and after the first occurrence of `pat`. */
  function SplitOnce(s: string, pat: string): (r: Option<(string, string)>)
    ensures r.None? <==> forall i :: !OccursAt(s, i, pat)
    ensures r.Some? ==> s == r.value.0 + pat + r.value.1
    ensures r.Some? ==> OccursAt(s, |r.value.0|, pat)
    ensures r.Some? ==> forall j :: 0 <= j < |r.value.0| ==> !OccursAt(s, j, pat)
  {
    match FindFrom(s, pat, 0)
    case None => None
    case Some(i) =>
      assert s == s[..i] + pat + s[i + |pat|..] by {
        assert s[i..i + |pat|] == pat;
        assert s == s[..i] + s[i..i + |pat|] + s[i + |pat|..];
      }
      Some((s[..i], s[i + |pat|..]))
  }

  /** When `s` is `a + pat + b` and `pat` does not occur inside `s` before `|a|`,
      `SplitOnce` returns exactly `a` and `b`. */
  lemma SplitOnceAt(s: string, pat: string, a: string, b: string)
    requires s == a + pat + b
    requires forall j :: 0 <= j < |a| ==> !OccursAt(s, j, pat)
    ensures SplitOnce(s, pat) == Some((a, b))
  {
    assert s[|a|..|a| + |pat|] == pat;
    assert OccursAt(s, |a|, pat);
    var r := SplitOnce(s, pat);
    assert r.Some?;
    var (x, y) := r.value;
    assert !(|x| < |a|);
    assert !(|a| < |x|);
    assert x == s[..|a|] == a;
    assert y == s[|a| + |pat|..] == b;
  }

  /** A one-character pattern occurs exactly where that character stands. */
  lemma OccursAtChar(s: string, i: int, c: char)
    ensures OccursAt(s, i, [c]) <==> 0 <= i < |s| && s[i] == c
  {
    if 0 <= i < |s| {
      assert s[i..i + 1] == [s[i]];
    }
  }

  /** Splitting at `"."` succeeds exactly when the string has a dot. */
  lemma SplitOnceDotNone(s: string)
    ensures SplitOnce(s, ".").None? <==> '.' !in s
  {
    if '.' in s {
      var i :| 0 <= i < |s| && s[i] == '.';
      OccursAtChar(s, i, '.');
    } else {
      forall i ensures !OccursAt(s, i, ".") {
        OccursAtChar(s, i, '.');
      }
    }
  }

  /** `a + "." + b` with no dot in `a` splits at `"."` into `a` and `b`. */
  lemma SplitOnceDot(a: string, b: string)
    requires '.' !in a
    ensures SplitOnce(a + "." + b, ".") == Some((a, b))
  {
    var s := a + "." + b;
    forall j | 0 <= j < |a| ensures !OccursAt(s, j, ".") {
      OccursAtChar(s, j, '.');
      assert s[j] == a[j];
    }
    SplitOnceAt(s, ".", a, b);
  }

  /** Rust's `char::to_ascii_lowercase`. */
  function AsciiLowerChar(c: char): char
  {
    if 'A' <= c <= 'Z' then (c as int + 32) as char else c
  }

  /** Rust's `char::to_ascii_uppercase`. */
  function AsciiUpperChar(c: char): char
  {
    if 'a' <= c <= 'z' then (c as int - 32) as char else c
  }

  /** Rust's `str::to_ascii_lowercase`. */
  function AsciiLower(s: string): string
  {
    if s == [] then [] else [AsciiLowerChar(s[0])] + AsciiLower(s[1..])
  }

  /** Rust's `str::to_ascii_uppercase`. */
  function AsciiUpper(s: string): string
  {
    if s == [] then [] else [AsciiUpperChar(s[0])] + AsciiUpper(s[1..])
  }

  /** Lower-casing forgets the ASCII case of a string: its upper-cased
      and lower-cased forms lower-case to the same string. */
  lemma {:induction false} AsciiLowerIgnoresCase(s: string)
    ensures AsciiLower(AsciiUpper(s)) == AsciiLower(s)
    ensures AsciiLower(AsciiLower(s)) == AsciiLower(s)
  {
    if s != [] {
      AsciiLowerIgnoresCase(s[1..]);
      assert AsciiUpper(s)[1..] == AsciiUpper(s[1..]);
      assert AsciiLower(s)[1..] == AsciiLower(s[1..]);
    }
  }

  /** `s` has no ASCII capital letter. */
  predicate NoUpper(s: string)
  {
    forall i :: 0 <= i < |s| ==> !('A' <= s[i] <= 'Z')
  }

  /** A string without ASCII capitals is its own lower-case form. */
  lemma {:induction false} AsciiLowerOfLower(s: string)
    requires NoUpper(s)
    ensures AsciiLower(s) == s
  {
    if s != [] {
      AsciiLowerOfLower(s[1..]);
    }
  }

  /** The decimal digit for `d`. */
  function DigitChar(d: nat): char
    requires d < 10
  {
    ('0' as int + d) as char
  }

  /** The value of a string of decimal digits. */
  function DecimalValue(s: string): nat
    requires forall i :: 0 <= i < |s| ==> '0' <= s[i] <= '9'
  {
    if s == [] then 0
    else 10 * DecimalValue(s[..|s| - 1]) + (s[|s| - 1] as int - '0' as int)
  }

  /** Rust's `Display` for an unsigned integer: its decimal digits, no sign, no leading zero. */
  function NatToDecimal(n: nat): (r: string)
    ensures |r| > 0 && forall i :: 0 <= i < |r| ==> '0' <= r[i] <= '9'
    ensures DecimalValue(r) == n
    ensures n > 0 ==> r[0] != '0'
  {
    if n < 10 then [DigitChar(n)]
    else
      var r := NatToDecimal(n / 10) + [DigitChar(n % 10)];
      assert r[..|r| - 1] == NatToDecimal(n / 10);
      r
  }
}
