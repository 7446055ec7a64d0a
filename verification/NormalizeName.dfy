/** Making secret names out of resource, database and user names. */
module NormalizeName {

  const MAX_LENGTH := 253

  predicate IsAlphanumeric(c: char) {
    'a' <= c <= 'z' || '0' <= c <= '9'
  }

  predicate IsAllowed(c: char) {
    IsAlphanumeric(c) || c == '-'
  }

  /** A subdomain in the sense of RFC 1123: labels joined by dots, each starting and ending alphanumerically. */
  predicate IsDns1123Subdomain(s: string) {
    && 0 < |s| <= MAX_LENGTH && IsAlphanumeric(s[0]) && IsAlphanumeric(s[|s| - 1])
    && (forall i :: 0 <= i < |s| ==> IsAllowed(s[i]) || s[i] == '.')
    && (forall i :: 0 < i < |s| - 1 && s[i] == '.' ==> IsAlphanumeric(s[i - 1]) && IsAlphanumeric(s[i + 1]))
  }

  /** Every maximal run of matching characters becomes one dash. */
  function ReplaceRuns(s: string, matches: char -> bool): string {
    if s == "" then ""
    else if !matches(s[0]) then [s[0]] + ReplaceRuns(s[1..], matches)
    else if |s| > 1 && matches(s[1]) then ReplaceRuns(s[1..], matches)
    else "-" + ReplaceRuns(s[1..], matches)
  }

  function TrimLeft(s: string): string {
    if s != "" && s[0] == '-' then TrimLeft(s[1..]) else s
  }

  function TrimRight(s: string): string {
    if s != "" && s[|s| - 1] == '-' then TrimRight(s[..|s| - 1]) else s
  }

  function ToLower(lower: char -> char, s: string): (r: string)
    ensures |r| == |s|
  {
    seq(|s|, i requires 0 <= i < |s| => lower(s[i]))
  }

  /** The name before it is cut to the maximal length. */
  function Cleaned(lower: char -> char, name: string): string {
    TrimRight(TrimLeft(ReplaceRuns(ReplaceRuns(ToLower(lower, name), c => !IsAllowed(c)), c => c == '-')))
  }

  function Normalized(lower: char -> char, name: string): string {
    if IsDns1123Subdomain(name) then name else
    var cleaned := Cleaned(lower, name);
    if |cleaned| > MAX_LENGTH then cleaned[..MAX_LENGTH] else cleaned
  }

  method Normalize(lower: char -> char, name: string) returns (r: string)
    ensures r == Normalized(lower, name)
  {
    r := name;
    if IsDns1123Subdomain(r) {
      return;
    }
    r := ToLower(lower, r);
    r := ReplaceRuns(r, c => !IsAllowed(c));
    r := ReplaceRuns(r, c => c == '-');
    r := TrimRight(TrimLeft(r));
    if |r| > MAX_LENGTH {
      r := r[..MAX_LENGTH];
    }
  }

  predicate AllAllowed(s: string) {
    forall i :: 0 <= i < |s| ==> IsAllowed(s[i])
  }

  /** Replacing the characters outside the alphabet leaves none of them, and replacing dashes brings none back. */
  lemma {:induction false} ReplacedIsAllowed(s: string, matches: char -> bool)
    requires forall i :: 0 <= i < |s| ==> IsAllowed(s[i]) || matches(s[i])
    ensures AllAllowed(ReplaceRuns(s, matches))
  {
    if s != "" {
      ReplacedIsAllowed(s[1..], matches);
    }
  }

  lemma {:induction false} TrimmedLeft(s: string)
    ensures AllAllowed(s) ==> AllAllowed(TrimLeft(s))
    ensures TrimLeft(s) != "" ==> TrimLeft(s)[0] != '-'
  {
    if s != "" && s[0] == '-' {
      TrimmedLeft(s[1..]);
    }
  }

  lemma {:induction false} TrimmedRight(s: string)
    ensures AllAllowed(s) ==> AllAllowed(TrimRight(s))
    ensures TrimRight(s) != "" ==> s != "" && TrimRight(s)[0] == s[0] && TrimRight(s)[|TrimRight(s)| - 1] != '-'
  {
    if s != "" && s[|s| - 1] == '-' {
      TrimmedRight(s[..|s| - 1]);
    }
  }

  lemma CleanedIsTidy(lower: char -> char, name: string)
    ensures var t := Cleaned(lower, name);
            AllAllowed(t) && (t != "" ==> IsAlphanumeric(t[0]) && IsAlphanumeric(t[|t| - 1]))
  {
    var replaced := ReplaceRuns(ToLower(lower, name), c => !IsAllowed(c));
    ReplacedIsAllowed(ToLower(lower, name), c => !IsAllowed(c));
    ReplacedIsAllowed(replaced, c => c == '-');
    TrimmedLeft(ReplaceRuns(replaced, c => c == '-'));
    TrimmedRight(TrimLeft(ReplaceRuns(replaced, c => c == '-')));
  }

  predicate HasAlphanumeric(s: string) {
    exists i :: 0 <= i < |s| && IsAlphanumeric(s[i])
  }

  lemma {:induction false} ReplacingKeepsAlphanumerics(s: string, matches: char -> bool)
    requires forall c: char :: matches(c) ==> !IsAlphanumeric(c)
    ensures HasAlphanumeric(ReplaceRuns(s, matches)) <==> HasAlphanumeric(s)
  {
    if s != "" {
      ReplacingKeepsAlphanumerics(s[1..], matches);
      assert s == [s[0]] + s[1..];
      HasAlphanumericSplit([s[0]], s[1..]);
      HasAlphanumericSplit([s[0]], ReplaceRuns(s[1..], matches));
      HasAlphanumericSplit("-", ReplaceRuns(s[1..], matches));
    }
  }

  lemma HasAlphanumericSplit(s: string, t: string)
    ensures HasAlphanumeric(s + t) <==> HasAlphanumeric(s) || HasAlphanumeric(t)
  {
    if i :| 0 <= i < |s| && IsAlphanumeric(s[i]) {
      assert (s + t)[i] == s[i];
    }
    if i :| 0 <= i < |t| && IsAlphanumeric(t[i]) {
      assert (s + t)[|s| + i] == t[i];
    }
  }

  lemma {:induction false} TrimmingKeepsAlphanumerics(s: string)
    ensures HasAlphanumeric(TrimLeft(s)) <==> HasAlphanumeric(s)
    ensures HasAlphanumeric(TrimRight(s)) <==> HasAlphanumeric(s)
  {
    if s != "" {
      HasAlphanumericSplit([s[0]], s[1..]);
      HasAlphanumericSplit(s[..|s| - 1], [s[|s| - 1]]);
      assert s == [s[0]] + s[1..] == s[..|s| - 1] + [s[|s| - 1]];
      TrimmingKeepsAlphanumerics(s[1..]);
      TrimmingKeepsAlphanumerics(s[..|s| - 1]);
    }
  }

  /** Cleaning leaves nothing exactly of names without a letter or digit of the alphabet, in either case. */
  lemma CleanedIsEmptyExactly(lower: char -> char, name: string)
    ensures Cleaned(lower, name) == "" <==> forall i :: 0 <= i < |name| ==> !IsAlphanumeric(lower(name[i]))
  {
    var lowered := ToLower(lower, name);
    var replaced := ReplaceRuns(lowered, c => !IsAllowed(c));
    var dashed := ReplaceRuns(replaced, c => c == '-');
    ReplacingKeepsAlphanumerics(lowered, c => !IsAllowed(c));
    ReplacingKeepsAlphanumerics(replaced, c => c == '-');
    TrimmingKeepsAlphanumerics(dashed);
    TrimmingKeepsAlphanumerics(TrimLeft(dashed));
    CleanedIsTidy(lower, name);
    assert forall i :: 0 <= i < |name| ==> lowered[i] == lower(name[i]);
  }

  /**
   * The result is a valid name exactly when the name was valid already, or it has a letter or digit and, if the cleaned
   * name has to be cut, the cut does not leave a dash at the end; whatever the lower-case mapping of single characters.
   */
  lemma ConformsExactly(lower: char -> char, name: string)
    ensures IsDns1123Subdomain(Normalized(lower, name)) <==>
            || IsDns1123Subdomain(name)
            || ((exists i :: 0 <= i < |name| && IsAlphanumeric(lower(name[i])))
                && (var t := Cleaned(lower, name); |t| > MAX_LENGTH ==> t[MAX_LENGTH - 1] != '-'))
  {
    CleanedIsTidy(lower, name);
    CleanedIsEmptyExactly(lower, name);
  }

  // ---------------------------------------------------------------- words

  /** The maximal runs of letters and digits: one that another one follows immediately belongs to its word. */
  function Words(s: string): seq<string> {
    if s == "" then []
    else
      var ws := Words(s[1..]);
      if !IsAlphanumeric(s[0]) then ws
      else if |s| > 1 && IsAlphanumeric(s[1]) && ws != [] then [[s[0]] + ws[0]] + ws[1..] else [[s[0]]] + ws
  }

  /** The words with a dash between each two of them. */
  function Joined(ws: seq<string>): string {
    if ws == [] then "" else if |ws| == 1 then ws[0] else ws[0] + "-" + Joined(ws[1..])
  }

  predicate Separates(c: char) {
    !IsAlphanumeric(c)
  }

  predicate Forbidden(c: char) {
    !IsAllowed(c)
  }

  predicate IsDash(c: char) {
    c == '-'
  }

  lemma {:induction false} SamePredicate(s: string, p: char -> bool, q: char -> bool)
    requires forall c: char :: p(c) == q(c)
    ensures ReplaceRuns(s, p) == ReplaceRuns(s, q)
  {
    if s != "" {
      SamePredicate(s[1..], p, q);
    }
  }

  /** What begins with a separator is replaced by something that begins with a dash. */
  lemma {:induction false} ReplacedBegins(s: string)
    requires s != ""
    ensures var r := ReplaceRuns(s, Forbidden); r != "" && r[0] == if Separates(s[0]) then '-' else s[0]
  {
    if Forbidden(s[0]) && |s| > 1 && Forbidden(s[1]) {
      ReplacedBegins(s[1..]);
    }
  }

  lemma DashesCollapse(t: string)
    ensures ReplaceRuns("-" + t, IsDash) == if t != ""
            && t[0] == '-' then ReplaceRuns(t, IsDash) else "-" + ReplaceRuns(t, IsDash)
  {
    assert ("-" + t)[1..] == t;
  }

  /** Replacing runs of forbidden characters and then runs of dashes replaces runs of separators. */
  lemma {:induction false} TwoReplacementsAreOne(s: string)
    ensures ReplaceRuns(ReplaceRuns(s, Forbidden), IsDash) == ReplaceRuns(s, Separates)
  {
    if s != "" {
      var rest := s[1..];
      TwoReplacementsAreOne(rest);
      if |s| > 1 {
        ReplacedBegins(rest);
      }
      if !Separates(s[0]) {
        var r := [s[0]] + ReplaceRuns(rest, Forbidden);
        assert ReplaceRuns(s, Forbidden) == r && r[1..] == ReplaceRuns(rest, Forbidden);
      } else if !(Forbidden(s[0]) && |s| > 1 && Forbidden(s[1])) {
        assert ReplaceRuns(s, Forbidden) == "-" + ReplaceRuns(rest, Forbidden);
        DashesCollapse(ReplaceRuns(rest, Forbidden));
      }
    }
  }

  /** The dash that stands for separators at an end. */
  function End(c: char): string {
    if Separates(c) then "-" else ""
  }

  /** The words joined, with a dash for separators at either end. */
  function Framed(s: string): string {
    if s == "" then ""
    else if Words(s) == [] then "-"
    else End(s[0]) + Joined(Words(s)) + End(s[|s| - 1])
  }

  lemma {:induction false} WordsExist(s: string)
    ensures Words(s) == [] <==> forall i :: 0 <= i < |s| ==> Separates(s[i])
    ensures s != "" && !Separates(s[0]) ==> Words(s) != []
  {
    if s != "" {
      WordsExist(s[1..]);
    }
  }

  lemma {:induction false} ReplacedIsFramed(s: string)
    ensures ReplaceRuns(s, Separates) == Framed(s)
  {
    if s != "" {
      var rest := s[1..];
      ReplacedIsFramed(rest);
      WordsExist(rest);
      WordsExist(s);
      if rest != "" {
        assert s[|s| - 1] == rest[|rest| - 1];
        FramedStep(s, rest);
      }
    }
  }

  lemma FramedStep(s: string, rest: string)
    requires s != "" && rest == s[1..] != "" && s[|s| - 1] == rest[|rest| - 1]
    requires Words(rest) == [] <==> forall i :: 0 <= i < |rest| ==> Separates(rest[i])
    requires !Separates(rest[0]) ==> Words(rest) != []
    ensures Framed(s) == if !Separates(s[0]) then [s[0]] + Framed(rest)
                         else if Separates(s[1]) then Framed(rest) else "-" + Framed(rest)
  {
    if Separates(s[0]) {
      FramedSeparator(s, rest);
    } else if Separates(rest[0]) {
      FramedLastOfWord(s, rest);
    } else {
      FramedInWord(s, rest);
    }
  }

  lemma Regroup(a: string, b: string, c: string)
    ensures (a + b) + c == a + (b + c) && "" + a == a
  {
  }

  lemma FramedSeparator(s: string, rest: string)
    requires s != "" && rest == s[1..] != "" && s[|s| - 1] == rest[|rest| - 1] && Separates(s[0])
    requires Words(rest) == [] ==> Separates(rest[0])
    ensures Framed(s) == if Separates(s[1]) then Framed(rest) else "-" + Framed(rest)
  {
    var j, e := Joined(Words(rest)), End(s[|s| - 1]);
    assert Words(s) == Words(rest);
    Regroup("-", j, e);
    Regroup(j, e, "");
  }

  lemma WithoutFrame(a: string, b: string)
    ensures "" + a + b == a + b
  {
    Regroup(a, b, "");
  }

  lemma FramedInWord(s: string, rest: string)
    requires s != "" && rest == s[1..] != "" && s[|s| - 1] == rest[|rest| - 1] && !Separates(s[0])
             && !Separates(rest[0])
    requires Words(rest) != []
    ensures Framed(s) == [s[0]] + Framed(rest)
  {
    var ws := Words(rest);
    assert Words(s) == [[s[0]] + ws[0]] + ws[1..];
    JoinedGrows(s[0], ws);
    WithoutFrame([s[0]] + Joined(ws), End(s[|s| - 1]));
    WithoutFrame(Joined(ws), End(s[|s| - 1]));
    Regroup([s[0]], Joined(ws), End(s[|s| - 1]));
  }

  lemma FramedLastOfWord(s: string, rest: string)
    requires s != "" && rest == s[1..] != "" && s[|s| - 1] == rest[|rest| - 1] && !Separates(s[0]) && Separates(rest[0])
    requires Words(rest) == [] ==> Separates(rest[|rest| - 1])
    ensures Framed(s) == [s[0]] + Framed(rest)
  {
    var ws, e := Words(rest), End(s[|s| - 1]);
    assert Words(s) == [[s[0]]] + ws;
    JoinedWithLetter(s[0], ws);
    if ws == [] {
      assert "" + [s[0]] == [s[0]];
    } else {
      var j := Joined(ws);
      assert "" + ([s[0]] + ("-" + j)) == [s[0]] + ("-" + j);
      Regroup([s[0]], "-" + j, e);
    }
  }

  lemma JoinedWithLetter(c: char, ws: seq<string>)
    ensures Joined([[c]] + ws) == if ws == [] then [c] else [c] + ("-" + Joined(ws))
  {
    assert ([[c]] + ws)[1..] == ws;
    Regroup([c], "-", Joined(ws));
  }

  lemma JoinedGrows(c: char, ws: seq<string>)
    requires ws != []
    ensures Joined([[c] + ws[0]] + ws[1..]) == [c] + Joined(ws)
  {
    var grown := [[c] + ws[0]] + ws[1..];
    assert grown[1..] == ws[1..];
    if |ws| > 1 {
      assert [c] + ws[0] + "-" + Joined(ws[1..]) == [c] + (ws[0] + "-" + Joined(ws[1..]));
    }
  }

  lemma {:induction false} JoinedHasNoEnds(s: string)
    ensures var j := Joined(Words(s));
            (Words(s) != [] ==> j != "" && IsAlphanumeric(j[0]) && IsAlphanumeric(j[|j| - 1]))
            && (forall k :: 0 <= k < |Words(s)| ==> Words(s)[k] != "")
  {
    if s != "" {
      JoinedHasNoEnds(s[1..]);
    }
  }

  lemma TrimmedDashes(t: string)
    ensures TrimLeft("-" + t) == TrimLeft(t) && TrimRight(t + "-") == TrimRight(t)
  {
    assert ("-" + t)[1..] == t && (t + "-")[..|t|] == t;
  }

  lemma TrimmedFrame(j: string, left: string, right: string)
    requires j != "" && j[0] != '-' && j[|j| - 1] != '-' && left in {"", "-"} && right in {"", "-"}
    ensures TrimRight(TrimLeft(left + j + right)) == j
  {
    var t := j + right;
    assert left + j + right == left + t && j + "" == j && "" + t == t;
    TrimmedDashes(t);
    TrimmedDashes(j);
    assert TrimLeft(t) == t;
  }

  /** The cleaned name is its words in lower case, with a dash between each two of them. */
  lemma CleanedIsJoinedWords(lower: char -> char, name: string)
    ensures Cleaned(lower, name) == Joined(Words(ToLower(lower, name)))
  {
    var s := ToLower(lower, name);
    SamePredicate(s, c => !IsAllowed(c), Forbidden);
    SamePredicate(ReplaceRuns(s, Forbidden), c => c == '-', IsDash);
    TwoReplacementsAreOne(s);
    ReplacedIsFramed(s);
    JoinedHasNoEnds(s);
    if Words(s) != [] {
      TrimmedFrame(Joined(Words(s)), End(s[0]), End(s[|s| - 1]));
    } else if s != "" {
      assert TrimLeft("-") == "";
    }
  }

  /** A valid name stays as it is; another one becomes its words, cut to 253 characters. */
  lemma NormalizedExactly(lower: char -> char, name: string)
    ensures var joined := Joined(Words(ToLower(lower, name)));
            Normalized(lower, name) == if IsDns1123Subdomain(name) then name
                                       else if |joined| > 253 then joined[..253] else joined
  {
    CleanedIsJoinedWords(lower, name);
  }
}
