/** Base 64 encoding of section 4 of RFC 4648: the standard alphabet
    `A-Z a-z 0-9 + /`, groups of three bytes as four characters, and `=` padding.
    This is what the `base64` crate's `encode` and `decode` do with their default
    (standard) configuration. The decoder is the strict one: the length is a multiple
    of four, padding only closes the last group, and the bits the padding discards are
    zero (section 3.5 of RFC 4648). */
module Base64 {
  import opened Wrappers
  import opened Bytes

  type sextet = x: int | 0 <= x < 64

  /** The character of the standard alphabet for the value `i` (Table 1 of RFC 4648). */
  function Alphabet(i: sextet): char
  {
    if i < 26 then ('A' as int + i) as char
    else if i < 52 then ('a' as int + (i - 26)) as char
    else if i < 62 then ('0' as int + (i - 52)) as char
    else if i == 62 then '+'
    else '/'
  }

  predicate IsAlphabetChar(c: char)
  {
    ('A' <= c <= 'Z') || ('a' <= c <= 'z') || ('0' <= c <= '9') || c == '+' || c == '/'
  }

  /** The value a character of the alphabet stands for. */
  function ValueOf(c: char): (v: sextet)
    requires IsAlphabetChar(c)
    ensures Alphabet(v) == c
  {
    if 'A' <= c <= 'Z' then c as int - 'A' as int
    else if 'a' <= c <= 'z' then c as int - 'a' as int + 26
    else if '0' <= c <= '9' then c as int - '0' as int + 52
    else if c == '+' then 62
    else 63
  }

  lemma AlphabetInverse(i: sextet)
    ensures IsAlphabetChar(Alphabet(i)) && ValueOf(Alphabet(i)) == i
  {
  }

  predicate AllAlphabet(q: string)
  {
    forall i :: 0 <= i < |q| ==> IsAlphabetChar(q[i])
  }

  /** The characters for a sequence of values. */
  function Chars(cs: seq<sextet>): (q: string)
    ensures |q| == |cs| && AllAlphabet(q)
  {
    seq(|cs|, i requires 0 <= i < |cs| => AlphabetInverse(cs[i]); Alphabet(cs[i]))
  }

  /** The values of a sequence of alphabet characters. */
  function Values(q: string): (cs: seq<sextet>)
    requires AllAlphabet(q)
    ensures |cs| == |q|
  {
    seq(|q|, i requires 0 <= i < |q| => ValueOf(q[i]))
  }

  lemma ValuesChars(cs: seq<sextet>)
    ensures Values(Chars(cs)) == cs
  {
    forall i | 0 <= i < |cs| ensures Values(Chars(cs))[i] == cs[i] {
      AlphabetInverse(cs[i]);
    }
  }

  lemma CharsValues(q: string)
    requires AllAlphabet(q)
    ensures Chars(Values(q)) == q
  {
  }

  /** Three bytes cut into four six-bit values, most significant bits first. */
  function Sextets(b0: byte, b1: byte, b2: byte): seq<sextet>
  {
    [b0 / 4, (b0 % 4) * 16 + b1 / 16, (b1 % 16) * 4 + b2 / 64, b2 % 64]
  }

  /** Four six-bit values joined into three bytes. */
  function Join(c: seq<sextet>): seq<byte>
    requires |c| == 4
  {
    var c0: int, c1: int, c2: int, c3: int := c[0], c[1], c[2], c[3];
    [c0 * 4 + c1 / 16, (c1 % 16) * 16 + c2 / 4, (c2 % 4) * 64 + c3]
  }

  /** Splitting three bytes into sextets and joining them again gives the bytes back. */
  lemma JoinSextets(b0: byte, b1: byte, b2: byte)
    ensures Join(Sextets(b0, b1, b2)) == [b0, b1, b2]
  {
  }

  /** Joining four sextets into bytes and splitting them again gives the sextets back. */
  lemma SextetsJoin(c: seq<sextet>)
    requires |c| == 4
    ensures var b := Join(c); Sextets(b[0], b[1], b[2]) == c
  {
  }

  /** Three bytes as four characters. */
  function EncodeGroup(b0: byte, b1: byte, b2: byte): string
  {
    Chars(Sextets(b0, b1, b2))
  }

  /** The final one or two bytes, padded to four characters. */
  function EncodeTail(bs: seq<byte>): string
    requires 1 <= |bs| <= 2
  {
    if |bs| == 1 then Chars(Sextets(bs[0], 0, 0)[..2]) + "=="
    else Chars(Sextets(bs[0], bs[1], 0)[..3]) + "="
  }

  /** `base64::encode`. */
  function Encode(bs: seq<byte>): (r: string)
    ensures |r| == 4 * ((|bs| + 2) / 3)
  {
    if |bs| == 0 then []
    else if |bs| < 3 then EncodeTail(bs)
    else EncodeGroup(bs[0], bs[1], bs[2]) + Encode(bs[3..])
  }

  /** Four characters of the alphabet as three bytes. */
  function DecodeGroup(q: string): Option<seq<byte>>
    requires |q| == 4
  {
    if AllAlphabet(q) then Some(Join(Values(q))) else None
  }

  /** The last group of four, which may be padded; the bits that the padding
      drops must be zero. */
  function DecodeLast(q: string): Option<seq<byte>>
    requires |q| == 4
  {
    if q[2] == '=' && q[3] == '=' then
      if AllAlphabet(q[..2]) && Values(q[..2])[1] % 16 == 0 then
        Some(Join(Values(q[..2]) + [0, 0])[..1])
      else None
    else if q[3] == '=' then
      if AllAlphabet(q[..3]) && Values(q[..3])[2] % 4 == 0 then
        Some(Join(Values(q[..3]) + [0])[..2])
      else None
    else DecodeGroup(q)
  }

  /** `base64::decode`; `None` stands for its `DecodeError`. */
  function Decode(s: string): Option<seq<byte>>
  {
    if |s| == 0 then Some([])
    else if |s| < 4 then None
    else if |s| == 4 then DecodeLast(s)
    else
      match DecodeGroup(s[..4])
      case None => None
      case Some(head) =>
        match Decode(s[4..])
        case None => None
        case Some(rest) => Some(head + rest)
  }

  lemma EncodeGroupSplit(bs: seq<byte>)
    requires |bs| >= 3
    ensures Encode(bs)[..4] == EncodeGroup(bs[0], bs[1], bs[2])
    ensures Encode(bs)[4..] == Encode(bs[3..])
  {
  }

  lemma DecodeGroupOfEncode(b0: byte, b1: byte, b2: byte)
    ensures DecodeGroup(EncodeGroup(b0, b1, b2)) == Some([b0, b1, b2])
  {
    ValuesChars(Sextets(b0, b1, b2));
    JoinSextets(b0, b1, b2);
  }

  lemma DecodeLastOfTail(bs: seq<byte>)
    requires 1 <= |bs| <= 2
    ensures DecodeLast(EncodeTail(bs)) == Some(bs)
  {
    var q := EncodeTail(bs);
    assert !IsAlphabetChar('=');
    if |bs| == 1 {
      var cs := Sextets(bs[0], 0, 0);
      assert q[..2] == Chars(cs[..2]);
      assert q[2] == '=' && q[3] == '=';
      ValuesChars(cs[..2]);
      assert Values(q[..2]) == cs[..2];
      assert cs[1] % 16 == 0;
      assert cs[..2] + [0, 0] == cs;
      JoinSextets(bs[0], 0, 0);
      assert Join(cs)[..1] == [bs[0]] == bs;
      assert DecodeLast(q) == Some(Join(Values(q[..2]) + [0, 0])[..1]);
    } else {
      var cs := Sextets(bs[0], bs[1], 0);
      assert q[..3] == Chars(cs[..3]);
      assert q[2] == q[..3][2] && IsAlphabetChar(q[2]);
      ValuesChars(cs[..3]);
      assert Values(q[..3]) == cs[..3];
      assert cs[2] % 4 == 0;
      assert cs[..3] + [0] == cs;
      JoinSextets(bs[0], bs[1], 0);
      assert Join(cs)[..2] == [bs[0], bs[1]] == bs;
      assert DecodeLast(q) == Some(Join(Values(q[..3]) + [0])[..2]);
    }
  }

  /** A text of more than one group decodes group by group. */
  lemma DecodeCons(s: string)
    requires |s| > 4 && DecodeGroup(s[..4]).Some? && Decode(s[4..]).Some?
    ensures Decode(s) == Some(DecodeGroup(s[..4]).value + Decode(s[4..]).value)
  {
  }

  /** A single unpadded group is also a valid last group. */
  lemma DecodeLastOfGroup(b0: byte, b1: byte, b2: byte)
    ensures DecodeLast(EncodeGroup(b0, b1, b2)) == Some([b0, b1, b2])
  {
    var q := EncodeGroup(b0, b1, b2);
    assert IsAlphabetChar(q[3]) && !IsAlphabetChar('=');
    assert DecodeLast(q) == DecodeGroup(q);
    DecodeGroupOfEncode(b0, b1, b2);
  }

  lemma SplitThree(bs: seq<byte>)
    requires |bs| >= 3
    ensures bs == [bs[0], bs[1], bs[2]] + bs[3..]
  {
    assert bs == bs[..3] + bs[3..];
  }

  /** Three bytes encode to one group that decodes back to them. */
  lemma DecodeEncodeThree(b0: byte, b1: byte, b2: byte)
    ensures Decode(Encode([b0, b1, b2])) == Some([b0, b1, b2])
  {
    var bs := [b0, b1, b2];
    var q := EncodeGroup(b0, b1, b2);
    DecodeLastOfGroup(b0, b1, b2);
    assert bs[3..] == [];
    assert Encode(bs) == q + [] == q;
    assert |q| == 4;
  }

  /** The first group decodes to the first three bytes, and the rest as the rest does. */
  lemma DecodeEncodeCons(bs: seq<byte>)
    requires |bs| > 3 && Decode(Encode(bs[3..])) == Some(bs[3..])
    ensures Decode(Encode(bs)) == Some(bs)
  {
    var s := Encode(bs);
    EncodeGroupSplit(bs);
    DecodeGroupOfEncode(bs[0], bs[1], bs[2]);
    assert DecodeGroup(s[..4]) == Some([bs[0], bs[1], bs[2]]);
    assert Decode(s[4..]) == Some(bs[3..]);
    DecodeCons(s);
    SplitThree(bs);
  }

  /** Decoding undoes encoding: `decode(encode(bs)) == Ok(bs)`. */
  lemma {:induction false} DecodeEncode(bs: seq<byte>)
    ensures Decode(Encode(bs)) == Some(bs)
  {
    if |bs| == 0 {
    } else if |bs| < 3 {
      DecodeLastOfTail(bs);
    } else if |bs| == 3 {
      assert bs == [bs[0], bs[1], bs[2]];
      DecodeEncodeThree(bs[0], bs[1], bs[2]);
    } else {
      DecodeEncode(bs[3..]);
      DecodeEncodeCons(bs);
    }
  }

  lemma EncodeOfDecodeGroup(q: string)
    requires |q| == 4 && DecodeGroup(q).Some?
    ensures |DecodeGroup(q).value| == 3
    ensures var b := DecodeGroup(q).value; EncodeGroup(b[0], b[1], b[2]) == q
  {
    SextetsJoin(Values(q));
    CharsValues(q);
  }

  lemma EncodeOfDecodeLast(q: string)
    requires |q| == 4 && DecodeLast(q).Some?
    ensures 1 <= |DecodeLast(q).value| <= 3
    ensures Encode(DecodeLast(q).value) == q
  {
    var b := DecodeLast(q).value;
    if q[2] == '=' && q[3] == '=' {
      var cs := Values(q[..2]) + [0, 0];
      SextetsJoin(cs);
      CharsValues(q[..2]);
      assert Sextets(b[0], 0, 0)[..2] == Values(q[..2]);
      assert q == q[..2] + "==";
    } else if q[3] == '=' {
      var cs := Values(q[..3]) + [0];
      SextetsJoin(cs);
      CharsValues(q[..3]);
      assert Sextets(b[0], b[1], 0)[..3] == Values(q[..3]);
      assert q == q[..3] + "=";
    } else {
      EncodeOfDecodeGroup(q);
      assert b[3..] == [];
    }
  }

  /** The decoder accepts only canonical encodings: whatever it decodes
      re-encodes to the very same text. */
  lemma {:induction false} EncodeDecode(s: string)
    requires Decode(s).Some?
    ensures Encode(Decode(s).value) == s
  {
    if |s| == 0 {
    } else if |s| == 4 {
      EncodeOfDecodeLast(s);
    } else {
      var head := DecodeGroup(s[..4]).value;
      var rest := Decode(s[4..]).value;
      EncodeOfDecodeGroup(s[..4]);
      EncodeDecode(s[4..]);
      var bs := head + rest;
      assert bs[..3] == head && bs[3..] == rest;
      EncodeGroupSplit(bs);
      assert s == s[..4] + s[4..];
    }
  }

  /** Every character of an encoding is from the alphabet or is `=`; in particular
      an encoding never contains a `.`. */
  lemma {:induction false} EncodeAlphabet(bs: seq<byte>)
    ensures forall i :: 0 <= i < |Encode(bs)| ==> IsAlphabetChar(Encode(bs)[i]) || Encode(bs)[i] == '='
    ensures '.' !in Encode(bs)
  {
    if |bs| >= 3 {
      EncodeAlphabet(bs[3..]);
      EncodeGroupSplit(bs);
      var s := Encode(bs);
      assert s == s[..4] + s[4..];
    }
  }

  /** Eight bytes (a `u64`) encode as twelve characters: eleven of the alphabet and one `=`. */
  lemma EncodeEightBytes(bs: seq<byte>)
    requires |bs| == 8
    ensures |Encode(bs)| == 12
    ensures Encode(bs)[11] == '='
    ensures forall i :: 0 <= i < 11 ==> IsAlphabetChar(Encode(bs)[i])
    ensures '.' !in Encode(bs)
  {
    EncodeAlphabet(bs);
    var s := Encode(bs);
    EncodeGroupSplit(bs);
    EncodeGroupSplit(bs[3..]);
    assert bs[3..][3..] == bs[6..];
    assert s == EncodeGroup(bs[0], bs[1], bs[2]) + EncodeGroup(bs[3], bs[4], bs[5]) + EncodeTail(bs[6..]);
  }
}
