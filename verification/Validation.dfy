/** Validation of users and authentication modes before a reconcile. */
module Validation {
  import opened AuthTypes
  import opened Wrappers

  datatype ValidationError =
    | X509NotEnabled | UnexpectedPasswordKey | UnexpectedPasswordName | UnexpectedScramName
    | ScramNotEnabled | MissingPasswordKey | MissingPasswordName | MissingScramName
    | ConnectionNamesCollide | ScramNamesCollide
    | UnknownMode | TlsRequired | RepeatedMode | AgentModeMissing | AgentModeNotListed
    | NegativeArbiters | TooManyArbiters

  // ---------------------------------------------------------------- users

  /** What is wrong with one user by itself, given the mechanisms of the modes. */
  function UserProblem(u: User, mechanisms: seq<string>): Option<ValidationError> {
    if u.database == EXTERNAL_DB then
      if X509 !in mechanisms then Some(X509NotEnabled)
      else if u.passwordSecretKey != "" then Some(UnexpectedPasswordKey)
      else if u.passwordSecretName != "" then Some(UnexpectedPasswordName)
      else if u.scramCredentialsSecretName != "" then Some(UnexpectedScramName) else None
    else
      if SHA1 !in mechanisms && SHA256 !in mechanisms then Some(ScramNotEnabled)
      else if u.passwordSecretKey == "" then Some(MissingPasswordKey)
      else if u.passwordSecretName == "" then Some(MissingPasswordName)
      else if u.scramCredentialsSecretName == "" then Some(MissingScramName) else None
  }

  function ConnectionNames(us: seq<User>): (r: seq<string>)
    ensures |r| == |us|
  {
    seq(|us|, i requires 0 <= i < |us| => us[i].connectionStringSecretName)
  }

  function ScramNames(us: seq<User>): (r: seq<string>)
    ensures |r| == |us|
  {
    seq(|us|, i requires 0 <= i < |us| => us[i].scramCredentialsSecretName)
  }

  predicate AllSound(us: seq<User>, mechanisms: seq<string>) {
    forall i :: 0 <= i < |us| ==> UserProblem(us[i], mechanisms).None?
  }

  predicate ValidUsers(lower: char -> char, spec: AuthSpec) {
    var us := AuthUsers(lower, spec);
    AllSound(us, AuthMechanisms(spec)) && Distinct(ConnectionNames(us)) && Distinct(ScramNames(us))
  }

  /** Collects the mechanisms of the modes in a set; without modes the default one. */
  method ExpectedMechanisms(spec: AuthSpec) returns (r: set<string>)
    ensures forall m :: m in r <==> m in AuthMechanisms(spec)
  {
    r := {};
    if |spec.modes| == 0 {
      r := {SHA256};
    }
    for i := 0 to |spec.modes|
      invariant |spec.modes| > 0 ==> forall m :: m in r <==> m in AuthMechanisms(spec)[..i]
      invariant |spec.modes| == 0 ==> r == {SHA256}
    {
      assert AuthMechanisms(spec)[..i + 1] == AuthMechanisms(spec)[..i] + [AuthMechanisms(spec)[i]];
      r := r + {ConvertAuthModeToAuthMechanism(spec.modes[i])};
    }
    assert AuthMechanisms(spec)[..|AuthMechanisms(spec)|] == AuthMechanisms(spec);
  }

  method FindUserProblem(u: User, mechanisms: seq<string>, expected: set<string>) returns (r: Option<ValidationError>)
    requires forall m :: m in expected <==> m in mechanisms
    ensures r == UserProblem(u, mechanisms)
  {
    if u.database == EXTERNAL_DB {
      if X509 !in expected { return Some(X509NotEnabled); }
      if u.passwordSecretKey != "" { return Some(UnexpectedPasswordKey); }
      if u.passwordSecretName != "" { return Some(UnexpectedPasswordName); }
      if u.scramCredentialsSecretName != "" { return Some(UnexpectedScramName); }
    } else {
      if SHA1 !in expected && SHA256 !in expected { return Some(ScramNotEnabled); }
      if u.passwordSecretKey == "" { return Some(MissingPasswordKey); }
      if u.passwordSecretName == "" { return Some(MissingPasswordName); }
      if u.scramCredentialsSecretName == "" { return Some(MissingScramName); }
    }
    return None;
  }

  /** The names seen so far, and how many of them collided with an earlier one. */
  ghost predicate Tracks(seen: set<string>, collisions: nat, names: seq<string>) {
    (forall n :: n in seen <==> n in names) && (collisions == 0 <==> Distinct(names))
  }

  method Track(seen: set<string>, collisions: nat, name: string, ghost names: seq<string>)
    returns (seen': set<string>, collisions': nat)
    requires Tracks(seen, collisions, names)
    ensures Tracks(seen', collisions', names + [name])
  {
    if name in seen {
      seen', collisions' := seen, collisions + 1;
      ghost var i :| 0 <= i < |names| && names[i] == name;
      assert (names + [name])[i] == (names + [name])[|names|];
    } else {
      seen', collisions' := seen + {name}, collisions;
      assert Distinct(names + [name]) ==> Distinct((names + [name])[..|names|]);
      assert (names + [name])[..|names|] == names;
    }
  }

  /** The first user that is wrong by itself. */
  ghost predicate FirstProblem(us: seq<User>, mechanisms: seq<string>, i: nat, e: ValidationError) {
    i < |us| && AllSound(us[..i], mechanisms) && UserProblem(us[i], mechanisms) == Some(e)
  }

  /** The loop over the users. */
  method CheckUsers(us: seq<User>, mechanisms: seq<string>, expected: set<string>)
    returns (r: Result<(), ValidationError>)
    requires forall m :: m in expected <==> m in mechanisms
    ensures r.Ok? <==> AllSound(us, mechanisms) && Distinct(ConnectionNames(us)) && Distinct(ScramNames(us))
    ensures r.Err? ==>
              if AllSound(us, mechanisms)
              then r.error == if !Distinct(ConnectionNames(us)) then ConnectionNamesCollide else ScramNamesCollide
              else exists i :: FirstProblem(us, mechanisms, i, r.error)
  {
    var connectionNames: set<string>, nameCollisions := {}, 0;
    var scramNames: set<string>, scramCollisions := {}, 0;
    ghost var cs, ss := ConnectionNames(us), ScramNames(us);
    for i := 0 to |us|
      invariant AllSound(us[..i], mechanisms)
      invariant Tracks(connectionNames, nameCollisions, cs[..i]) && Tracks(scramNames, scramCollisions, ss[..i])
    {
      assert cs[..i + 1] == cs[..i] + [cs[i]] && ss[..i + 1] == ss[..i] + [ss[i]];
      connectionNames, nameCollisions := Track(connectionNames, nameCollisions, us[i].connectionStringSecretName, cs[..i]);
      scramNames, scramCollisions := Track(scramNames, scramCollisions, us[i].scramCredentialsSecretName, ss[..i]);
      var problem := FindUserProblem(us[i], mechanisms, expected);
      if problem.Some? {
        assert FirstProblem(us, mechanisms, i, problem.value);
        return Err(problem.value);
      }
    }
    assert us[..|us|] == us && cs[..|us|] == cs && ss[..|us|] == ss;
    if nameCollisions > 0 {
      return Err(ConnectionNamesCollide);
    }
    if scramCollisions > 0 {
      return Err(ScramNamesCollide);
    }
    return Ok(());
  }

  /**
   * Accepts exactly the valid users.  A user that is wrong by itself is reported before any collision of names, the
   * first such user before the others, and a collision of connection string secrets before one of SCRAM secrets.
   */
  method ValidateUsers(lower: char -> char, spec: AuthSpec) returns (r: Result<(), ValidationError>)
    ensures r.Ok? <==> ValidUsers(lower, spec)
    ensures var us := AuthUsers(lower, spec);
            r.Err? ==>
              if AllSound(us, AuthMechanisms(spec))
              then r.error == if !Distinct(ConnectionNames(us)) then ConnectionNamesCollide else ScramNamesCollide
              else exists i :: FirstProblem(us, AuthMechanisms(spec), i, r.error)
  {
    var expected := ExpectedMechanisms(spec);
    var us := GetAuthUsers(lower, spec);
    r := CheckUsers(us, AuthMechanisms(spec), expected);
  }

  // ---------------------------------------------------------------- modes

  /** A mode with a known label, and X.509 only together with TLS. */
  predicate ModeIsSound(mode: string, tlsEnabled: bool) {
    ConvertAuthModeToAuthMechanism(mode) != "" && (ConvertAuthModeToAuthMechanism(mode) == X509 ==> tlsEnabled)
  }

  predicate ValidModes(spec: AuthSpec) {
    && (forall i :: 0 <= i < |spec.modes| ==> ModeIsSound(spec.modes[i], spec.tlsEnabled))
    && Distinct(AuthMechanisms(spec))
    && ConvertAuthModeToAuthMechanism(GetAgentAuthMode(spec)) in AuthMechanisms(spec)
  }

  /** A set is smaller than a list of its elements exactly when the list has duplicates. */
  lemma {:induction false} SetOfList(xs: seq<string>, s: set<string>)
    requires forall x :: x in s <==> x in xs
    ensures |s| <= |xs| && (|s| == |xs| <==> Distinct(xs))
  {
    if xs == [] {
      assert s == {};
    } else {
      var front, last := xs[..|xs| - 1], xs[|xs| - 1];
      assert xs == front + [last];
      DistinctExtends(xs, |xs| - 1);
      if last in front {
        SetOfList(front, s);
      } else {
        SetOfList(front, s - {last});
      }
    }
  }

  lemma DistinctExtends<T>(xs: seq<T>, i: nat)
    requires i < |xs|
    ensures Distinct(xs[..i + 1]) <==> Distinct(xs[..i]) && xs[i] !in xs[..i]
  {
  }

  /** The loop over the modes. */
  method CollectMechanisms(spec: AuthSpec) returns (r: Result<set<string>, ValidationError>)
    ensures r.Ok? <==> forall i :: 0 <= i < |spec.modes| ==> ModeIsSound(spec.modes[i], spec.tlsEnabled)
    ensures r.Ok? ==> forall m :: m in r.value <==> m in AuthMechanisms(spec)
    ensures r.Err? ==> r.error.UnknownMode? || r.error.TlsRequired?
  {
    for i := 0 to |spec.modes|
      invariant forall k :: 0 <= k < i ==> ModeIsSound(spec.modes[k], spec.tlsEnabled)
    {
      var value := ConvertAuthModeToAuthMechanism(spec.modes[i]);
      if value == "" {
        return Err(UnknownMode);
      }
      if value == X509 && !spec.tlsEnabled {
        return Err(TlsRequired);
      }
    }
    var mechanisms := ExpectedMechanisms(spec);
    return Ok(mechanisms);
  }

  /** Accepts exactly the valid modes: known, not repeated under another label, and with the agent's mode among them. */
  method ValidateAuthModeSpec(spec: AuthSpec) returns (r: Result<(), ValidationError>)
    ensures r.Ok? <==> ValidModes(spec)
  {
    var collected := CollectMechanisms(spec);
    if collected.Err? {
      return Err(collected.error);
    }
    var mechanisms := collected.value;
    SetOfList(AuthMechanisms(spec), mechanisms);
    if |mechanisms| < |spec.modes| {
      return Err(RepeatedMode);
    }
    var agentMode := GetAgentAuthMode(spec);
    if agentMode == "" && |spec.modes| > 1 {
      return Err(AgentModeMissing);
    }
    if ConvertAuthModeToAuthMechanism(agentMode) !in mechanisms {
      return Err(AgentModeNotListed);
    }
    return Ok(());
  }

  /** The counts that a reconcile works with: there is always a member that is not an arbiter. */
  method ValidateArbiterSpec(members: int, arbiters: int) returns (r: Result<(), ValidationError>)
    ensures r.Ok? <==> 0 <= arbiters < members
    ensures r.Err? ==> r.error == if arbiters < 0 then NegativeArbiters else TooManyArbiters
  {
    if arbiters < 0 {
      return Err(NegativeArbiters);
    }
    if arbiters >= members {
      return Err(TooManyArbiters);
    }
    return Ok(());
  }

  // ---------------------------------------------------------------- what validation does and does not find

  /**
   * For users taken from a spec the checks reduce to the mechanism and the password's secret name: whether SCRAM users
   * name a credentials secret is never found out, because an absent name is completed to "-scram-credentials".
   */
  lemma UserIsSoundExactly(lower: char -> char, resourceName: string, namespace: string, u: SpecUser,
                           mechanisms: seq<string>)
    ensures UserProblem(AuthUser(lower, resourceName, namespace, u), mechanisms).None? <==>
            if Database(u) == EXTERNAL_DB then X509 in mechanisms
            else (SHA1 in mechanisms || SHA256 in mechanisms) && u.passwordName != ""
  {
    assert u.scramCredentialsSecretName + "-scram-credentials" != "" by {
      assert |u.scramCredentialsSecretName + "-scram-credentials"| >= 18;
    }
  }

  /**
   * At most one user of a valid spec is in the external database: all of them have the empty SCRAM secret name, so any
   * two of them count as a collision.
   */
  lemma ExternalUsersCollide(lower: char -> char, spec: AuthSpec, i: nat, j: nat)
    requires i < |spec.users| && j < |spec.users| && ValidUsers(lower, spec)
    requires Database(spec.users[i]) == EXTERNAL_DB && Database(spec.users[j]) == EXTERNAL_DB
    ensures i == j
  {
    var ss := ScramNames(AuthUsers(lower, spec));
    assert ss[i] == "" && ss[j] == "";
  }
}
