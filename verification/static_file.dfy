/** Content-addressed naming of static assets (src/injest/static_file.rs).
    An asset `stem.ext` is published as `stem.<hash>.ext`, where `<hash>` is the base 64
    text of the little-endian bytes of the 64-bit content hash. */
module StaticFile {
  import opened Wrappers
  import opened Bytes
  import opened Strings
  import Base64

  /** The content hash (`seahash::hash`) is not modelled: it is any function from bytes to `u64`. */
  type Hasher = seq<byte> -> u64

  /** `hash_file`: the hash of the file's bytes. */
  function HashFile(seahash: Hasher, file: seq<byte>): u64
  {
    seahash(file)
  }

  /** The middle segment of a rewritten name: `base64::encode(hash.to_le_bytes())`. */
  function HashSegment(hash: u64): (seg: string)
    ensures |seg| == 12 && seg[11] == '=' && '.' !in seg
    ensures forall i :: 0 <= i < 11 ==> Base64.IsAlphabetChar(seg[i])
  {
    Base64.EncodeEightBytes(U64ToLeBytes(hash));
    Base64.Encode(U64ToLeBytes(hash))
  }

  /** The segment identifies the hash: decoding it gives back the eight bytes of the hash. */
  lemma HashSegmentDecodes(hash: u64)
    ensures Base64.Decode(HashSegment(hash)) == Some(U64ToLeBytes(hash))
    ensures U64FromLeBytes(Base64.Decode(HashSegment(hash)).value) == hash
  {
    Base64.DecodeEncode(U64ToLeBytes(hash));
    U64LeRoundTrip(hash, U64ToLeBytes(hash));
  }

  /** Different hashes give different segments, so a changed hash always changes the name. */
  lemma HashSegmentInjective(h1: u64, h2: u64)
    requires h1 != h2
    ensures HashSegment(h1) != HashSegment(h2)
  {
    HashSegmentDecodes(h1);
    HashSegmentDecodes(h2);
  }

  /** `new_filename`: split the name at its first `.` and put the hash segment between the
      two parts; `None` when the name has no `.`. */
  function NewFilenameOf(seahash: Hasher, file: seq<byte>, filename: string): (r: Option<(u64, string)>)
    ensures r.None? <==> '.' !in filename
    ensures r.Some? ==> r.value.0 == HashFile(seahash, file)
  {
    var hash := HashFile(seahash, file);
    var base64 := HashSegment(hash);
    SplitOnceDotNone(filename);
    match SplitOnce(filename, ".")
    case Some((fname, ext)) => Some((hash, fname + "." + base64 + "." + ext))
    case None => None
  }

  /** The shape of a new name: the text before the first `.` of the name, a `.`, the hash
      segment, a `.`, and everything after the first `.` (so `a.tar.gz` becomes `a.<hash>.tar.gz`). */
  lemma NewFilenameShape(seahash: Hasher, file: seq<byte>, filename: string, k: nat)
    requires k < |filename| && filename[k] == '.' && '.' !in filename[..k]
    ensures NewFilenameOf(seahash, file, filename)
         == Some((seahash(file), filename[..k] + "." + HashSegment(seahash(file)) + "." + filename[k + 1..]))
    ensures filename == filename[..k] + "." + filename[k + 1..]
  {
    assert filename == filename[..k] + "." + filename[k + 1..];
    SplitOnceDot(filename[..k], filename[k + 1..]);
  }

  /** Equal bytes and equal names give equal new names; more generally, only the hash of the
      bytes matters, so byte-identical assets collapse to one published name. */
  lemma NewFilenameDependsOnlyOnHash(seahash: Hasher, f1: seq<byte>, f2: seq<byte>, filename: string)
    requires seahash(f1) == seahash(f2)
    ensures NewFilenameOf(seahash, f1, filename) == NewFilenameOf(seahash, f2, filename)
  {
  }

  /** Two files whose hashes differ never get the same new name. */
  lemma NewFilenameSeparatesHashes(seahash: Hasher, f1: seq<byte>, f2: seq<byte>, filename: string)
    requires '.' in filename && seahash(f1) != seahash(f2)
    ensures NewFilenameOf(seahash, f1, filename).value.1 != NewFilenameOf(seahash, f2, filename).value.1
  {
    ParseNewFilename(seahash, f1, filename);
    ParseNewFilename(seahash, f2, filename);
  }

  /** A name with a dot has a first dot. */
  lemma {:induction false} FirstDot(s: string)
    requires '.' in s
    ensures exists k :: 0 <= k < |s| && s[k] == '.' && '.' !in s[..k]
  {
    if s[0] == '.' {
      assert s[..0] == [];
    } else {
      FirstDot(s[1..]);
      var k :| 0 <= k < |s[1..]| && s[1..][k] == '.' && '.' !in s[1..][..k];
      assert s[k + 1] == '.';
      assert s[..k + 1] == [s[0]] + s[1..][..k];
      assert '.' !in s[..k + 1];
    }
  }

  /** The hash a segment stands for: `u64::from_le_bytes` of its base 64 decoding, which must
      be exactly eight bytes long. */
  function DecodeHash(seg: string): (r: Option<u64>)
    ensures r.Some? <==> Base64.Decode(seg).Some? && |Base64.Decode(seg).value| == 8
  {
    match Base64.Decode(seg)
    case None => None
    case Some(data) => if |data| != 8 then None else Some(U64FromLeBytes(data))
  }

  /** `parse_filename`: the hash recovered from the segment between the first and the second
      `.`, and the name with that segment taken out. `None` when there are fewer than two dots,
      when the segment is not base 64, or when it does not decode to exactly eight bytes. */
  function ParseFilename(filename: string): Option<(u64, string)>
  {
    match SplitOnce(filename, ".")
    case None => None
    case Some((stem, hashAndExt)) =>
      match SplitOnce(hashAndExt, ".")
      case None => None
      case Some((hash, ext)) =>
        match DecodeHash(hash)
        case None => None
        case Some(h) => Some((h, stem + "." + ext))
  }

  /** A name that parses has at least two dots. */
  lemma ParseFilenameNeedsTwoDots(filename: string)
    requires ParseFilename(filename).Some?
    ensures exists i, j :: 0 <= i < j < |filename| && filename[i] == '.' && filename[j] == '.'
  {
    var (stem, rest) := SplitOnce(filename, ".").value;
    var (hash, ext) := SplitOnce(rest, ".").value;
    OccursAtChar(filename, |stem|, '.');
    OccursAtChar(rest, |hash|, '.');
    assert filename[|stem| + 1 + |hash|] == rest[|hash|];
  }

  /** A name `stem.seg.ext` with no dot in `stem` or `seg` parses to the value of the
      eight bytes that `seg` decodes to, and to `stem.ext`. */
  lemma ParseFilenameParts(stem: string, seg: string, ext: string)
    requires '.' !in stem && '.' !in seg
    ensures ParseFilename(stem + "." + seg + "." + ext)
         == match DecodeHash(seg)
            case Some(h) => Some((h, stem + "." + ext))
            case None => None
  {
    SplitOnceDot(stem, seg + "." + ext);
    assert stem + "." + seg + "." + ext == stem + "." + (seg + "." + ext);
    SplitOnceDot(seg, ext);
  }

  /** A name whose middle segment is not the base 64 text of eight bytes is rejected. */
  lemma ParseFilenameRejectsSegment(stem: string, seg: string, ext: string)
    requires '.' !in stem && '.' !in seg
    requires Base64.Decode(seg).None? || |Base64.Decode(seg).value| != 8
    ensures ParseFilename(stem + "." + seg + "." + ext).None?
  {
    ParseFilenameParts(stem, seg, ext);
  }

  /** The segment of a hash decodes to that hash. */
  lemma DecodeHashSegment(hash: u64)
    ensures DecodeHash(HashSegment(hash)) == Some(hash)
  {
    HashSegmentDecodes(hash);
  }

  /** Round trip: parsing a name made by `new_filename` gives back the content hash and the
      original name. */
  lemma ParseNewFilename(seahash: Hasher, file: seq<byte>, filename: string)
    requires '.' in filename
    ensures ParseFilename(NewFilenameOf(seahash, file, filename).value.1) == Some((seahash(file), filename))
  {
    var k :| 0 <= k < |filename| && filename[k] == '.' && '.' !in filename[..k] by {
      FirstDot(filename);
    }
    var stem, ext := filename[..k], filename[k + 1..];
    var hash := seahash(file);
    var seg := HashSegment(hash);
    NewFilenameShape(seahash, file, filename, k);
    assert NewFilenameOf(seahash, file, filename).value.1 == stem + "." + seg + "." + ext;
    ParseFilenameParts(stem, seg, ext);
    DecodeHashSegment(hash);
  }
}
