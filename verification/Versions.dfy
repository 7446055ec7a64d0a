/** Semantic versions, as far as the feature compatibility version (FCV) depends on them. */
module Versions {
  import opened Names
  import opened Wrappers

  const UINT64_LIMIT: nat := 0x1_0000_0000_0000_0000

  /** `pre` holds the identifiers of a pre-release; a release has none. */
  datatype Semver = Semver(major: nat, minor: nat, patch: nat, pre: seq<string>)

  /** The index of the first `c` in `s`, or the length of `s`. */
  function IndexOf(s: string, c: char): (i: nat)
    ensures i <= |s|
    ensures forall k :: 0 <= k < i ==> s[k] != c
    ensures i < |s| ==> s[i] == c
  {
    if s == "" || s[0] == c then 0 else 1 + IndexOf(s[1..], c)
  }

  /** A number of a version: decimal, 64 bits wide, without leading zeroes. */
  function ParseNumber(s: string): Option<nat> {
    if s == "" || !AllDigits(s) || (|s| > 1 && s[0] == '0') || Value(s) >= UINT64_LIMIT then None
    else Some(Value(s))
  }

  /** The parts between separators; there is always at least one. */
  function Split(s: string, c: char): (parts: seq<string>)
    ensures |parts| > 0
  {
    var i := IndexOf(s, c);
    if i == |s| then [s] else [s[..i]] + Split(s[i + 1..], c)
  }

  predicate IsIdentifier(s: string) {
    s != "" && forall i :: 0 <= i < |s| ==> IsDigit(s[i]) || 'a' <= s[i] <= 'z' || 'A' <= s[i] <= 'Z' || s[i] == '-'
  }

  /** An identifier of a pre-release is a number without leading zeroes, or not a number. */
  predicate IsPreIdentifier(s: string) {
    IsIdentifier(s) && (AllDigits(s) ==> ParseNumber(s).Some?)
  }

  /** The optional text after a separator, split into identifiers. */
  function Suffix(s: string, c: char): seq<string> {
    var i := IndexOf(s, c);
    if i == |s| then [] else Split(s[i + 1..], '.')
  }

  /** Parses `major.minor.patch`, with an optional pre-release after a dash and build data after a plus sign. */
  function Make(s: string): Option<Semver> {
    var dot1 := IndexOf(s, '.');
    if dot1 == |s| then None else
    var rest := s[dot1 + 1..];
    var dot2 := IndexOf(rest, '.');
    if dot2 == |rest| then None else
    MakeFrom(ParseNumber(s[..dot1]), ParseNumber(rest[..dot2]), rest[dot2 + 1..])
  }

  /** Parses what follows the second dot. */
  function MakeFrom(major: Option<nat>, minor: Option<nat>, tail: string): Option<Semver> {
    var noBuild := tail[..IndexOf(tail, '+')];
    var patch, pre, build := ParseNumber(noBuild[..IndexOf(noBuild, '-')]), Suffix(noBuild, '-'), Suffix(tail, '+');
    if major.Some? && minor.Some? && patch.Some?
       && (forall i :: 0 <= i < |pre| ==> IsPreIdentifier(pre[i]))
          && (forall i :: 0 <= i < |build| ==> IsIdentifier(build[i]))
    then Some(Semver(major.value, minor.value, patch.value, pre)) else None
  }

  /** Lexicographic order of (major, minor). */
  predicate SeriesBelow(major: nat, minor: nat, v: Semver) {
    major < v.major || (major == v.major && minor < v.minor)
  }

  /** Numbers come before other identifiers, and are compared as numbers. */
  predicate IdentifierBelow(a: string, b: string) {
    if AllDigits(a) && AllDigits(b) then Value(a) < Value(b)
    else AllDigits(a) || (!AllDigits(b) && Less(a, b))
  }

  /** Identifier by identifier; of two lists that agree the longer one is later. */
  predicate PreBelow(a: seq<string>, b: seq<string>) {
    if b == [] then false
    else if a == [] then true
    else if a[0] == b[0] then PreBelow(a[1..], b[1..]) else IdentifierBelow(a[0], b[0])
  }

  /** `v` is later than `o`; a pre-release comes before its release. */
  predicate Later(v: Semver, o: Semver) {
    if v.major != o.major || v.minor != o.minor then SeriesBelow(o.major, o.minor, v)
    else if v.patch != o.patch then v.patch > o.patch
    else if v.pre == [] || o.pre == [] then v.pre == [] && o.pre != [] else PreBelow(o.pre, v.pre)
  }

  function FormatFcv(major: nat, minor: nat): string {
    Digits(major) + "." + Digits(minor)
  }

  /** The `x.y` of a version from 3.4.0 on, and nothing for earlier or malformed versions. */
  function CalculateFeatureCompatibilityVersion(version: string): string {
    match Make(version)
    case None => ""
    case Some(v) =>
      if Later(v, Semver(3, 4, 0, [])) || v == Semver(3, 4, 0, []) then FormatFcv(v.major, v.minor) else ""
  }

  lemma IndexOfSplit(left: string, c: char, right: string)
    requires c !in left
    ensures IndexOf(left + [c] + right, c) == |left|
  {
    var s := left + [c] + right;
    var i := IndexOf(s, c);
    assert s[|left|] == c;
    assert forall k :: 0 <= k < |left| ==> s[k] == left[k];
  }

  lemma NumberRoundTrip(n: nat)
    requires n < UINT64_LIMIT
    ensures ParseNumber(Digits(n)) == Some(n)
    ensures '.' !in Digits(n) && '+' !in Digits(n) && '-' !in Digits(n)
  {
    ValueOfDigits(n);
  }

  /** What follows the second dot of an FCV that is read as a release. */
  lemma ZeroPatch(major: nat, minor: nat)
    ensures MakeFrom(Some(major), Some(minor), "0") == Some(Semver(major, minor, 0, []))
  {
    assert IndexOf("0", '+') == 1 && IndexOf("0", '-') == 1;
    assert "0"[..1] == "0" && Digits(0) == "0";
    NumberRoundTrip(0);
  }

  lemma SplitTwice(a: string, b: string, c: string)
    requires '.' !in a && '.' !in b
    ensures Make(a + "." + b + "." + c) == MakeFrom(ParseNumber(a), ParseNumber(b), c)
  {
    var s := a + "." + b + "." + c;
    assert s == a + ['.'] + (b + "." + c);
    IndexOfSplit(a, '.', b + "." + c);
    assert s[..|a|] == a && s[|a| + 1..] == b + "." + c;
    assert b + "." + c == b + ['.'] + c;
    IndexOfSplit(b, '.', c);
    assert (b + "." + c)[..|b|] == b && (b + "." + c)[|b| + 1..] == c;
  }

  /** Reading a published FCV back as the release x.y.0 gives the numbers it was formatted from. */
  lemma FcvRoundTrip(major: nat, minor: nat)
    requires major < UINT64_LIMIT && minor < UINT64_LIMIT
    ensures Make(FormatFcv(major, minor) + ".0") == Some(Semver(major, minor, 0, []))
  {
    NumberRoundTrip(major);
    NumberRoundTrip(minor);
    assert FormatFcv(major, minor) + ".0" == Digits(major) + "." + Digits(minor) + "." + "0";
    SplitTwice(Digits(major), Digits(minor), "0");
    ZeroPatch(major, minor);
  }

  /** What a parsed version consists of fits 64 bits. */
  lemma ParsedNumbersAreBounded(s: string)
    requires Make(s).Some?
    ensures Make(s).value.major < UINT64_LIMIT && Make(s).value.minor < UINT64_LIMIT
  {
  }

  // ---------------------------------------------------------------- precedence

  lemma {:induction false} PreBelowIsStrictOrder(a: seq<string>, b: seq<string>, c: seq<string>)
    ensures !PreBelow(a, a)
    ensures PreBelow(a, b) && PreBelow(b, c) ==> PreBelow(a, c)
  {
    if a != [] {
      PreBelowIsStrictOrder(a[1..], if b != [] then b[1..] else [], if c != [] then c[1..] else []);
      if b != [] && c != [] {
        LessIsStrictOrder(a[0], b[0], c[0]);
      }
    }
  }

  /** Precedence is a strict order. */
  lemma LaterIsStrictOrder(u: Semver, v: Semver, w: Semver)
    ensures !Later(u, u)
    ensures Later(u, v) && Later(v, w) ==> Later(u, w)
  {
    PreBelowIsStrictOrder(w.pre, v.pre, u.pre);
    PreBelowIsStrictOrder(u.pre, v.pre, w.pre);
  }

  /** The example of section 11 of Semantic Versioning 2.0.0, from the earliest to the latest. */
  lemma PrecedenceExample()
    ensures var vs := [Semver(1, 0, 0, ["alpha"]), Semver(1, 0, 0, ["alpha", "1"]), Semver(1, 0, 0, ["alpha", "beta"]),
                       Semver(1, 0, 0, ["beta"]), Semver(1, 0, 0, ["beta", "2"]), Semver(1, 0, 0, ["beta", "11"]),
                       Semver(1, 0, 0, ["rc", "1"]), Semver(1, 0, 0, []), Semver(2, 0, 0, []), Semver(2, 1, 0, []),
                       Semver(2, 1, 1, [])];
            forall i :: 0 < i < |vs| ==> Later(vs[i], vs[i - 1])
  {
    assert AllDigits("1") && AllDigits("2") && AllDigits("11");
    assert Value("2") == 2 && Value("11") == 11;
  }
}
