/** The standard base64 encoding with padding, as salts and keys are stored. */
module Base64 {
  import opened Wrappers

  type Bytes = seq<bv8>

  /** The character of a six-bit value. */
  function Char(v: bv8): (c: char)
    requires v < 64
    ensures c != '=' && c != '\r' && c != '\n'
  {
    var n := v as int;
    if n < 26 then ('A' as int + n) as char
    else if n < 52 then ('a' as int + n - 26) as char
    else if n < 62 then ('0' as int + n - 52) as char
    else if n == 62 then '+' else '/'
  }

  function Sextet(c: char): Option<bv8> {
    if 'A' <= c <= 'Z' then Some((c as int - 'A' as int) as bv8)
    else if 'a' <= c <= 'z' then Some((c as int - 'a' as int + 26) as bv8)
    else if '0' <= c <= '9' then Some((c as int - '0' as int + 52) as bv8)
    else if c == '+' then Some(62) else if c == '/' then Some(63) else None
  }

  lemma SextetOfChar(v: bv8)
    requires v < 64
    ensures Sextet(Char(v)) == Some(v)
  {
  }

  // ---------------------------------------------------------------- three octets as four sextets

  function Sextets(x: bv8, y: bv8, z: bv8): (r: (bv8, bv8, bv8, bv8))
    ensures r.0 < 64 && r.1 < 64 && r.2 < 64 && r.3 < 64
  {
    (x >> 2, ((x & 3) << 4) | (y >> 4), ((y & 15) << 2) | (z >> 6), z & 63)
  }

  function Octets(a: bv8, b: bv8, c: bv8, d: bv8): (bv8, bv8, bv8) {
    ((a << 2) | (b >> 4), (b << 4) | (c >> 2), (c << 6) | d)
  }

  lemma OctetsOfSextets(x: bv8, y: bv8, z: bv8)
    ensures var (a, b, c, d) := Sextets(x, y, z); Octets(a, b, c, d) == (x, y, z)
  {
  }

  // ---------------------------------------------------------------- groups

  /** One to three octets as four characters, padded if there are less than three. */
  function EncodeGroup(g: Bytes): (r: string)
    requires 1 <= |g| <= 3
    ensures |r| == 4 && forall i :: 0 <= i < 4 ==> r[i] != '\r' && r[i] != '\n'
  {
    var (a, b, c, d) := Sextets(g[0], if |g| > 1 then g[1] else 0, if |g| > 2 then g[2] else 0);
    [Char(a), Char(b), if |g| > 1 then Char(c) else '=', if |g| > 2 then Char(d) else '=']
  }

  /** The octets of four characters; bits that padding leaves over are ignored. */
  function DecodeGroup(s: string): (r: Option<Bytes>)
    requires |s| == 4
    ensures r.Some? ==> 1 <= |r.value| <= 3
  {
    match (Sextet(s[0]), Sextet(s[1]), Sextet(s[2]), Sextet(s[3]))
    case (Some(a), Some(b), Some(c), Some(d)) => var (x, y, z) := Octets(a, b, c, d); Some([x, y, z])
    case (Some(a), Some(b), Some(c), None) =>
      if s[3] == '=' then Some([Octets(a, b, c, 0).0, Octets(a, b, c, 0).1]) else None
    case (Some(a), Some(b), None, None) => if s[2] == s[3] == '=' then Some([Octets(a, b, 0, 0).0]) else None
    case _ => None
  }

  lemma SextetsRoundTrip(x: bv8, y: bv8, z: bv8)
    ensures var (a, b, c, d) := Sextets(x, y, z);
            && Sextet(Char(a)) == Some(a) && Sextet(Char(b)) == Some(b)
            && Sextet(Char(c)) == Some(c) && Sextet(Char(d)) == Some(d) && Octets(a, b, c, d) == (x, y, z)
  {
    var (a, b, c, d) := Sextets(x, y, z);
    OctetsOfSextets(x, y, z);
    SextetOfChar(a);
    SextetOfChar(b);
    SextetOfChar(c);
    SextetOfChar(d);
  }

  lemma FullGroupRoundTrip(x: bv8, y: bv8, z: bv8)
    ensures DecodeGroup(EncodeGroup([x, y, z])) == Some([x, y, z])
  {
    SextetsRoundTrip(x, y, z);
  }

  lemma PaddedGroupsRoundTrip(x: bv8, y: bv8)
    ensures DecodeGroup(EncodeGroup([x, y])) == Some([x, y])
    ensures DecodeGroup(EncodeGroup([x])) == Some([x])
  {
    SextetsRoundTrip(x, y, 0);
    SextetsRoundTrip(x, 0, 0);
  }

  lemma GroupRoundTrip(g: Bytes)
    requires 1 <= |g| <= 3
    ensures DecodeGroup(EncodeGroup(g)) == Some(g)
  {
    if |g| == 3 {
      FullGroupRoundTrip(g[0], g[1], g[2]);
      assert g == [g[0], g[1], g[2]];
    } else if |g| == 2 {
      PaddedGroupsRoundTrip(g[0], g[1]);
      assert g == [g[0], g[1]];
    } else {
      PaddedGroupsRoundTrip(g[0], 0);
      assert g == [g[0]];
    }
  }

  // ---------------------------------------------------------------- encoding and decoding

  function Encode(bytes: Bytes): string {
    if bytes == [] then "" else if |bytes| <= 3 then EncodeGroup(bytes) else EncodeGroup(bytes[..3]) + Encode(bytes[3..])
  }

  /** The decoder skips line breaks. */
  function WithoutBreaks(s: string): string {
    if s == "" then ""
    else (if s[0] == '\r' || s[0] == '\n' then "" else [s[0]]) + WithoutBreaks(s[1..])
  }

  /** Groups of four characters, of which only the last one may be padded. */
  function DecodeGroups(s: string): Option<Bytes> {
    if s == "" then Some([])
    else if |s| < 4 then None
    else match DecodeGroup(s[..4])
      case None => None
      case Some(g) =>
        if |s| == 4 then Some(g)
        else if |g| < 3 then None
        else match DecodeGroups(s[4..])
          case None => None
          case Some(rest) => Some(g + rest)
  }

  function Decode(s: string): Option<Bytes> {
    DecodeGroups(WithoutBreaks(s))
  }

  predicate HasNoBreaks(s: string) {
    forall i :: 0 <= i < |s| ==> s[i] != '\r' && s[i] != '\n'
  }

  lemma {:induction false} EncodeHasNoBreaks(bytes: Bytes)
    ensures HasNoBreaks(Encode(bytes))
  {
    if |bytes| > 3 {
      EncodeHasNoBreaks(bytes[3..]);
    }
  }

  lemma {:induction false} NothingToSkip(s: string)
    requires HasNoBreaks(s)
    ensures WithoutBreaks(s) == s
  {
    if s != "" {
      NothingToSkip(s[1..]);
    }
  }

  lemma NextGroup(group: string, g: Bytes, rest: string, tail: Bytes)
    requires |group| == 4 && |g| == 3 && DecodeGroup(group) == Some(g) && rest != "" && DecodeGroups(rest) == Some(tail)
    ensures DecodeGroups(group + rest) == Some(g + tail)
  {
    assert (group + rest)[..4] == group && (group + rest)[4..] == rest;
  }

  lemma {:induction false} GroupsRoundTrip(bytes: Bytes)
    ensures DecodeGroups(Encode(bytes)) == Some(bytes)
    ensures bytes != [] ==> Encode(bytes) != ""
  {
    if bytes == [] {
    } else if |bytes| <= 3 {
      GroupRoundTrip(bytes);
      assert EncodeGroup(bytes)[..4] == EncodeGroup(bytes);
    } else {
      GroupRoundTrip(bytes[..3]);
      GroupsRoundTrip(bytes[3..]);
      NextGroup(EncodeGroup(bytes[..3]), bytes[..3], Encode(bytes[3..]), bytes[3..]);
      assert bytes == bytes[..3] + bytes[3..];
    }
  }

  /** What was encoded decodes to itself. */
  lemma RoundTrip(bytes: Bytes)
    ensures Decode(Encode(bytes)) == Some(bytes)
  {
    EncodeHasNoBreaks(bytes);
    NothingToSkip(Encode(bytes));
    GroupsRoundTrip(bytes);
  }

  // ---------------------------------------------------------------- test vectors

  /** The vectors of section 10 of RFC 4648 fix the alphabet, the order of the bits and the padding. */
  lemma EncodesVectors()
    ensures Encode([]) == "" && Encode([0x66]) == "Zg==" && Encode([0x66, 0x6f]) == "Zm8="
    ensures Encode([0x66, 0x6f, 0x6f]) == "Zm9v" && Encode([0xfb, 0xff, 0xbf]) == "+/+/"
  {
    var foo: Bytes := [0x66, 0x6f, 0x6f];
    assert foo[3..] == [];
  }
}
