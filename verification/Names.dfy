/**
 * Names of processes and pods, and the order of names.
 *
 * The config builder names processes and the agent code names pods independently of each other; both use
 * decimal ordinals.  Decimal rendering is written out here, so that distinctness of names is proved and not
 * assumed.
 */
module Names {

  function Digit(d: nat): char
    requires d < 10
  {
    ('0' as int + d) as char
  }

  /** The `%d` rendering of a non-negative number. */
  function Digits(n: nat): (s: string)
    ensures |s| > 0
  {
    if n < 10 then [Digit(n)] else Digits(n / 10) + [Digit(n % 10)]
  }

  predicate IsDigit(c: char) {
    '0' <= c <= '9'
  }

  predicate AllDigits(s: string) {
    forall i :: 0 <= i < |s| ==> IsDigit(s[i])
  }

  /** The number a string of decimal digits denotes. */
  function Value(s: string): nat
    requires AllDigits(s)
  {
    if s == "" then 0 else Value(s[..|s| - 1]) * 10 + (s[|s| - 1] as int - '0' as int)
  }

  /** Rendering loses nothing, and writes no superfluous zero. */
  lemma {:induction false} ValueOfDigits(n: nat)
    ensures AllDigits(Digits(n)) && Value(Digits(n)) == n
    ensures Digits(n)[0] == '0' ==> |Digits(n)| == 1
  {
    if n >= 10 {
      ValueOfDigits(n / 10);
      var init, last := Digits(n / 10), Digit(n % 10);
      assert (init + [last])[..|init|] == init;
      assert init[0] == '0' ==> init == "0";
      assert Value("0") == 0;
    } else {
      assert [Digit(n)][..0] == "";
    }
  }

  /** The process name of a data-bearing member or of an arbiter. */
  function ProcessName(name: string, index: nat, isArbiter: bool): string {
    if isArbiter then name + "-arb-" + Digits(index) else name + "-" + Digits(index)
  }

  /** Where a data-bearing name continues with a digit, an arbiter's name continues with the letter of "arb". */
  lemma ArbiterNamesDiffer(name: string, i: nat, j: nat)
    ensures ProcessName(name, i, true) != ProcessName(name, j, false)
  {
    ValueOfDigits(j);
    assert ProcessName(name, i, true)[|name| + 1] == 'a';
    assert ProcessName(name, j, false)[|name| + 1] == Digits(j)[0];
  }

  /** Two processes of one resource share a name only when they are the same process. */
  lemma ProcessNameInjective(name: string, i: nat, a: bool, j: nat, b: bool)
    requires ProcessName(name, i, a) == ProcessName(name, j, b)
    ensures i == j && a == b
  {
    ArbiterNamesDiffer(name, i, j);
    ArbiterNamesDiffer(name, j, i);
    ValueOfDigits(i);
    ValueOfDigits(j);
    var prefix := if a then name + "-arb-" else name + "-";
    assert ProcessName(name, i, a)[|prefix|..] == Digits(i);
    assert ProcessName(name, j, a)[|prefix|..] == Digits(j);
  }

  /** All names of a replica set: the data-bearing members first, the arbiters right after them. */
  function AllNames(name: string, members: nat, arbiters: nat): (names: seq<string>)
    ensures |names| == members + arbiters
  {
    seq(members + arbiters, i requires 0 <= i < members + arbiters =>
      if i < members then ProcessName(name, i, false) else ProcessName(name, i - members, true))
  }

  lemma AllNamesDistinct(name: string, members: nat, arbiters: nat, i: nat, j: nat)
    requires i < members + arbiters && j < members + arbiters
    requires AllNames(name, members, arbiters)[i] == AllNames(name, members, arbiters)[j]
    ensures i == j
  {
    ProcessNameInjective(name, if i < members then i else i - members, i >= members,
                         if j < members then j else j - members, j >= members);
  }

  /** A name is in the list exactly when it belongs to a member or an arbiter of that ordinal range. */
  lemma NamedExactly(name: string, members: nat, arbiters: nat, index: nat, isArbiter: bool)
    ensures ProcessName(name, index, isArbiter) in AllNames(name, members, arbiters)
       <==> index < (if isArbiter then arbiters else members)
  {
    var names := AllNames(name, members, arbiters);
    if index < (if isArbiter then arbiters else members) {
      assert names[if isArbiter then members + index else index] == ProcessName(name, index, isArbiter);
    } else if ProcessName(name, index, isArbiter) in names {
      var k :| 0 <= k < |names| && names[k] == ProcessName(name, index, isArbiter);
      ProcessNameInjective(name, index, isArbiter, if k < members then k else k - members, k >= members);
      assert false;
    }
  }

  // ---------------------------------------------------------------- the order of names

  /** The lexicographic order of strings. */
  predicate Less(a: string, b: string) {
    if b == "" then false
    else if a == "" then true
    else a[0] < b[0] || (a[0] == b[0] && Less(a[1..], b[1..]))
  }

  lemma {:induction false} LessIsStrictOrder(a: string, b: string, c: string)
    ensures !Less(a, a)
    ensures Less(a, b) && Less(b, c) ==> Less(a, c)
    ensures Less(a, b) || a == b || Less(b, a)
    ensures !(Less(a, b) && Less(b, a))
    decreases |a| + |b| + |c|
  {
    if a != "" && b != "" {
      LessIsStrictOrder(a[1..], b[1..], if c == "" then "" else c[1..]);
      assert a == [a[0]] + a[1..] && b == [b[0]] + b[1..];
    } else if a != "" {
      LessIsStrictOrder(a[1..], b, "");
    }
  }
}
