/**
 * What authentication promises to a user of a spec, in terms of the spec: which specs are valid, and that after enabling
 * every user is listed with its roles and can log in with its password.
 */
module AuthenticationPromise {
  import opened Authentication
  import opened AuthenticationProperties
  import opened AuthenticationSecrets
  import opened AuthTypes
  import opened NormalizeName
  import opened Scram
  import opened ScramCredentials
  import opened ScramLogin
  import opened Secrets
  import opened UserConversion
  import opened Validation
  import opened Wrappers

  // ---------------------------------------------------------------- users and options of a spec

  /** The database of a user, "admin" if none is named. */
  function DatabaseOf(u: SpecUser): string {
    if u.db == "" then "admin" else u.db
  }

  predicate IsExternal(u: SpecUser) {
    u.db == "$external"
  }

  /** Where its credentials are stored. */
  function CredentialsNameOf(u: SpecUser): string {
    u.scramCredentialsSecretName + "-scram-credentials"
  }

  function PasswordKeyOf(u: SpecUser): string {
    if u.passwordKey == "" then "password" else u.passwordKey
  }

  /** Every field of the user that a user of the spec becomes. */
  lemma UserOfSpec(lower: char -> char, resourceName: string, namespace: string, u: SpecUser)
    ensures var x := AuthUser(lower, resourceName, namespace, u);
            && x.username == u.name && x.database == DatabaseOf(u) && x.roles == u.roles
            && x.passwordSecretName == (if IsExternal(u) then "" else u.passwordName)
            && x.passwordSecretKey == (if IsExternal(u) then "" else PasswordKeyOf(u))
            && x.scramCredentialsSecretName == (if IsExternal(u) then "" else CredentialsNameOf(u))
            && x.connectionStringSecretName
               == (if u.connectionStringSecretName != "" then u.connectionStringSecretName
                   else Normalized(lower, resourceName + "-" + DatabaseOf(u) + "-" + u.name))
            && x.connectionStringSecretNamespace
               == (if u.connectionStringSecretNamespace != "" then u.connectionStringSecretNamespace else namespace)
            && x.connectionStringOptions == u.connectionStringOptions
  {
  }

  predicate AsksForSha256(spec: AuthSpec) {
    spec.modes == [] || "SCRAM" in spec.modes || "SCRAM-SHA-256" in spec.modes
  }

  /** The mechanism of a label of the spec. */
  predicate IsMechanismOf(mechanism: string, mode: string) {
    match mode
    case "SCRAM" => mechanism == "SCRAM-SHA-256"
    case "SCRAM-SHA-256" => mechanism == "SCRAM-SHA-256"
    case "SCRAM-SHA-1" => mechanism == "MONGODB-CR"
    case "X509" => mechanism == "MONGODB-X509"
    case _ => mechanism == ""
  }

  lemma MechanismsOfSpec(spec: AuthSpec)
    ensures var ms := AuthMechanisms(spec);
            && (spec.modes == [] ==> ms == ["SCRAM-SHA-256"])
            && (spec.modes != [] ==> |ms| == |spec.modes|
                                     && forall i :: 0 <= i < |spec.modes| ==> IsMechanismOf(ms[i], spec.modes[i]))
  {
  }

  /** The options that do not depend on the modes. */
  lemma OptionsOfSpec(spec: AuthSpec)
    ensures var o := AuthOptions(spec);
            && (o.authoritativeSet <==> spec.ignoreUnknownUsers == Some(false))
            && o.keyFile == "/var/lib/mongodb-mms-automation/authentication/keyfile" && o.agentName == "mms-automation"
            && o.authMechanisms == AuthMechanisms(spec)
  {
  }

  // ---------------------------------------------------------------- valid specs

  /** Which mechanisms the modes bring. */
  lemma MechanismsAmongExactly(spec: AuthSpec)
    ensures SHA256 in AuthMechanisms(spec) <==> AsksForSha256(spec)
    ensures SHA1 in AuthMechanisms(spec) <==> "SCRAM-SHA-1" in spec.modes
    ensures X509 in AuthMechanisms(spec) <==> "X509" in spec.modes
  {
    var ms := AuthMechanisms(spec);
    MechanismsOfSpec(spec);
    if spec.modes != [] {
      forall i | 0 <= i < |spec.modes|
        ensures (ms[i] == SHA256 <==> spec.modes[i] == "SCRAM" || spec.modes[i] == "SCRAM-SHA-256")
        ensures (ms[i] == SHA1 <==> spec.modes[i] == "SCRAM-SHA-1") && (ms[i] == X509 <==> spec.modes[i] == "X509")
      {
        assert IsMechanismOf(ms[i], spec.modes[i]);
      }
    }
  }

  /** Known labels, none of them twice, and not both labels of one mechanism. */
  predicate ModesAreKnownAndDifferent(modes: seq<string>) {
    && (forall i :: 0 <= i < |modes| ==> modes[i] in {"SCRAM", "SCRAM-SHA-256", "SCRAM-SHA-1", "X509"})
    && (forall i, j :: 0 <= i < j < |modes| ==> modes[i] != modes[j])
    && !("SCRAM" in modes && "SCRAM-SHA-256" in modes)
  }

  /** The agent's mode is one of the modes, or without one there is no choice, or the choice is between the SCRAM modes. */
  predicate AgentModeIsClear(spec: AuthSpec) {
    if spec.agentMode == "" then |spec.modes| <= 1
        || (|spec.modes| == 2 && AsksForSha256(spec) && "SCRAM-SHA-1" in spec.modes)
    else || (spec.agentMode in {"SCRAM", "SCRAM-SHA-256"} && AsksForSha256(spec))
         || (spec.agentMode in {"SCRAM-SHA-1", "X509"} && spec.agentMode in spec.modes)
  }

  lemma DistinctMechanismsExactly(spec: AuthSpec)
    requires forall i :: 0 <= i < |spec.modes| ==> spec.modes[i] in {"SCRAM", "SCRAM-SHA-256", "SCRAM-SHA-1", "X509"}
    ensures Distinct(AuthMechanisms(spec)) <==>
            (forall i, j :: 0 <= i < j < |spec.modes| ==> spec.modes[i] != spec.modes[j])
            && !("SCRAM" in spec.modes && "SCRAM-SHA-256" in spec.modes)
  {
    var ms := AuthMechanisms(spec);
    MechanismsOfSpec(spec);
    if spec.modes != [] {
      forall i | 0 <= i < |spec.modes|
        ensures IsMechanismOf(ms[i], spec.modes[i])
      {
      }
      if "SCRAM" in spec.modes && "SCRAM-SHA-256" in spec.modes {
        var i, j :| 0 <= i < |spec.modes| && 0 <= j < |spec.modes| && spec.modes[i] == "SCRAM"
            && spec.modes[j] == "SCRAM-SHA-256";
        assert ms[i] == ms[j] && i != j;
      }
    }
  }

  lemma SoundModesExactly(spec: AuthSpec)
    ensures (forall i :: 0 <= i < |spec.modes| ==> ModeIsSound(spec.modes[i], spec.tlsEnabled)) <==>
            (forall i :: 0 <= i < |spec.modes| ==> spec.modes[i] in {"SCRAM", "SCRAM-SHA-256", "SCRAM-SHA-1", "X509"})
            && ("X509" in spec.modes ==> spec.tlsEnabled)
  {
  }

  lemma AgentModeIsClearExactly(spec: AuthSpec)
    requires ModesAreKnownAndDifferent(spec.modes)
    ensures ConvertAuthModeToAuthMechanism(GetAgentAuthMode(spec)) in AuthMechanisms(spec) <==> AgentModeIsClear(spec)
  {
    MechanismsAmongExactly(spec);
    forall m | m in AuthMechanisms(spec)
      ensures m != ""
    {
      MechanismsOfSpec(spec);
      if spec.modes != [] {
        var i :| 0 <= i < |spec.modes| && AuthMechanisms(spec)[i] == m;
        assert IsMechanismOf(m, spec.modes[i]);
      }
    }
    if |spec.modes| == 1 {
      assert AuthMechanisms(spec)[0] == ConvertAuthModeToAuthMechanism(spec.modes[0]);
    }
  }

  /** Which modes are accepted. */
  lemma ValidModesExactly(spec: AuthSpec)
    ensures ValidModes(spec) <==>
            ModesAreKnownAndDifferent(spec.modes) && ("X509" in spec.modes ==> spec.tlsEnabled)
                && AgentModeIsClear(spec)
  {
    SoundModesExactly(spec);
    if forall i :: 0 <= i < |spec.modes| ==> spec.modes[i] in {"SCRAM", "SCRAM-SHA-256", "SCRAM-SHA-1", "X509"} {
      DistinctMechanismsExactly(spec);
      if ModesAreKnownAndDifferent(spec.modes) {
        AgentModeIsClearExactly(spec);
      }
    }
  }

  /** A user that can be served: one of the external database with X.509, or one with a password secret and SCRAM. */
  predicate UserCanBeServed(u: SpecUser, spec: AuthSpec) {
    if IsExternal(u) then "X509" in spec.modes
    else (AsksForSha256(spec) || "SCRAM-SHA-1" in spec.modes) && u.passwordName != ""
  }

  /** The name of the secret of a user's connection string. */
  function ConnectionNameOf(lower: char -> char, spec: AuthSpec, u: SpecUser): string {
    if u.connectionStringSecretName != "" then u.connectionStringSecretName
    else Normalized(lower, spec.resourceName + "-" + DatabaseOf(u) + "-" + u.name)
  }

  /** Two users whose secrets would be the same. */
  predicate Clash(lower: char -> char, spec: AuthSpec, u: SpecUser, v: SpecUser) {
    || ConnectionNameOf(lower, spec, u) == ConnectionNameOf(lower, spec, v)
    || (IsExternal(u) && IsExternal(v))
    || (!IsExternal(u) && !IsExternal(v) && u.scramCredentialsSecretName == v.scramCredentialsSecretName)
  }

  lemma ClashExactly(lower: char -> char, spec: AuthSpec, i: nat, j: nat)
    requires i < |spec.users| && j < |spec.users|
    ensures var us := AuthUsers(lower, spec);
            ConnectionNames(us)[i] == ConnectionNames(us)[j] || ScramNames(us)[i] == ScramNames(us)[j] <==>
            Clash(lower, spec, spec.users[i], spec.users[j])
  {
    UserOfSpec(lower, spec.resourceName, spec.namespace, spec.users[i]);
    UserOfSpec(lower, spec.resourceName, spec.namespace, spec.users[j]);
    SuffixIsInjective(spec.users[i].scramCredentialsSecretName, spec.users[j].scramCredentialsSecretName);
  }

  lemma SuffixIsInjective(a: string, b: string)
    ensures a + "-scram-credentials" == b + "-scram-credentials" <==> a == b
    ensures a + "-scram-credentials" != ""
  {
    var x, y := a + "-scram-credentials", b + "-scram-credentials";
    assert x[..|a|] == a && y[..|b|] == b && |x| == |a| + 18;
  }

  /** Which users are accepted. */
  lemma ValidUsersExactly(lower: char -> char, spec: AuthSpec)
    ensures ValidUsers(lower, spec) <==>
            && (forall i :: 0 <= i < |spec.users| ==> UserCanBeServed(spec.users[i], spec))
            && (forall i, j :: 0 <= i < j < |spec.users| ==> !Clash(lower, spec, spec.users[i], spec.users[j]))
  {
    var us := AuthUsers(lower, spec);
    MechanismsAmongExactly(spec);
    forall i | 0 <= i < |us|
      ensures UserProblem(us[i], AuthMechanisms(spec)).None? <==> UserCanBeServed(spec.users[i], spec)
    {
      UserIsSoundExactly(lower, spec.resourceName, spec.namespace, spec.users[i], AuthMechanisms(spec));
    }
    DistinctInOrder(ConnectionNames(us));
    DistinctInOrder(ScramNames(us));
    forall i: nat, j: nat | i < |us| && j < |us|
      ensures ConnectionNames(us)[i] == ConnectionNames(us)[j] || ScramNames(us)[i] == ScramNames(us)[j] <==>
              Clash(lower, spec, spec.users[i], spec.users[j])
    {
      ClashExactly(lower, spec, i, j);
    }
  }

  /** Which problem is reported about a single user of a spec; the other checks never fire. */
  lemma ReportedProblemExactly(lower: char -> char, spec: AuthSpec, i: nat)
    requires i < |spec.users|
    ensures var u := spec.users[i];
            UserProblem(AuthUsers(lower, spec)[i], AuthMechanisms(spec)) ==
            if UserCanBeServed(u, spec) then None
            else if IsExternal(u) then Some(X509NotEnabled)
            else if !AsksForSha256(spec) && "SCRAM-SHA-1" !in spec.modes then Some(ScramNotEnabled)
            else Some(MissingPasswordName)
  {
    UserOfSpec(lower, spec.resourceName, spec.namespace, spec.users[i]);
    MechanismsAmongExactly(spec);
    SuffixIsInjective(spec.users[i].scramCredentialsSecretName, "");
  }

  lemma DistinctInOrder<T>(xs: seq<T>)
    ensures Distinct(xs) <==> forall i, j :: 0 <= i < j < |xs| ==> xs[i] != xs[j]
  {
  }

  // ---------------------------------------------------------------- the promise

  /** The users that a spec asks for, without credentials. */
  function AskedUsers(spec: AuthSpec): (r: seq<AcUser>)
    ensures |r| == |spec.users|
  {
    seq(|spec.users|, i requires 0 <= i < |spec.users| =>
      AcUser(spec.users[i].name, DatabaseOf(spec.users[i]), spec.users[i].roles, None))
  }

  lemma AskedUsersAreIdentities(lower: char -> char, spec: AuthSpec)
    ensures AskedUsers(spec) == Identities(AuthUsers(lower, spec))
  {
  }

  /** The user is listed, with credentials that its secret holds and its password belongs to as long as it is there. */
  ghost predicate CanLogInAs(env: Env, u: SpecUser, a: AuthConfig, store: Store)
    requires ValidCrypto(env.crypto)
  {
    exists pair ::
      && AcUser(u.name, DatabaseOf(u), u.roles, Some(pair)) in a.users
      && CredentialsNameOf(u) in store && FieldOf(store[CredentialsNameOf(u)], "sha256-salt") == pair.sha256.salt
      && (u.passwordName in store && PasswordKeyOf(u) in store[u.passwordName] ==>
            UserLogsIn(env.crypto, u.name, store[u.passwordName][PasswordKeyOf(u)], pair))
  }

  lemma EstablishedLogsIn(c: Crypto, user: User, store: Store, pair: CredentialPair, password: string)
    requires ValidCrypto(c) && Established(c, user, store, pair) && HoldsPassword(store, user, password)
    ensures UserLogsIn(c, user.username, password, pair)
  {
    ReusedBelongsToPassword(c, user, password, store);
    var s1: seq<bv8>, s256: seq<bv8> :| PairOf(c, user.username, password, s1, s256).Ok?
                                        && PairOf(c, user.username, password, s1, s256).value
                                           == ReadExisting(store, user.scramCredentialsSecretName, false).value;
    PairLogsIn(c, user.username, password, s1, s256);
  }

  lemma HasCredentialsLogsIn(env: Env, lower: char -> char, spec: AuthSpec, i: nat, a: AuthConfig, store: Store)
    requires ValidCrypto(env.crypto) && i < |spec.users| && !IsExternal(spec.users[i])
    requires HasCredentials(env.crypto, AuthUsers(lower, spec)[i], a, store)
    ensures CanLogInAs(env, spec.users[i], a, store)
  {
    var u, x := spec.users[i], AuthUsers(lower, spec)[i];
    UserOfSpec(lower, spec.resourceName, spec.namespace, u);
    var pair :| Identity(x).(creds := Some(pair)) in a.users && Established(env.crypto, x, store, pair);
    assert AcUser(u.name, DatabaseOf(u), u.roles, Some(pair)) in a.users;
    assert ReadExisting(store, x.scramCredentialsSecretName, false) == Ok(pair);
    if u.passwordName in store && PasswordKeyOf(u) in store[u.passwordName] {
      EstablishedLogsIn(env.crypto, x, store, pair, store[u.passwordName][PasswordKeyOf(u)]);
    }
  }

  lemma {:induction false} ScramUserIsAmong(us: seq<User>, i: nat) returns (k: nat)
    requires i < |us| && us[i].database != EXTERNAL_DB
    ensures k < |ScramUsers(us)| && ScramUsers(us)[k] == us[i]
  {
    var front := us[..|us| - 1];
    if i < |front| {
      k := ScramUserIsAmong(front, i);
    } else {
      k := |ScramUsers(front)|;
    }
  }

  /** The agent's part of the section. */
  ghost predicate AgentIsConfigured(env: Env, spec: AuthSpec, a: AuthConfig, store: Store) {
    && !a.disabled && (a.authoritativeSet <==> spec.ignoreUnknownUsers == Some(false))
    && a.keyFile == "/var/lib/mongodb-mms-automation/authentication/keyfile"
    && a.keyFileWindows == "%SystemDrive%\\MMSAutomation\\versions\\keyfile"
    && spec.resourceName + "-keyfile" in store && FieldOf(store[spec.resourceName + "-keyfile"], "keyfile") == a.key
    && (if a.autoAuthMechanism == "MONGODB-X509" then
          a.autoPwd == "" && forall x :: x in a.autoAuthMechanisms <==> x == "MONGODB-X509"
        else && a.autoUser == "mms-automation" && spec.resourceName + "-agent-password" in store
             && FieldOf(store[spec.resourceName + "-agent-password"], "password") == a.autoPwd
             && (forall x :: x in a.autoAuthMechanisms <==>
                             (x == "SCRAM-SHA-256" && AsksForSha256(spec))
                                 || (x == "MONGODB-CR" && "SCRAM-SHA-1" in spec.modes)))
  }

  lemma AgentOfSpec(env: Env, spec: AuthSpec, a: AuthConfig, store: Store)
    requires AgentReady(a, AuthOptions(spec)) && AgentCanLogIn(env, spec.resourceName, AuthOptions(spec), a, store)
    requires IsScram(AuthOptions(spec).autoAuthMechanism) || AuthOptions(spec).autoAuthMechanism == X509
    ensures AgentIsConfigured(env, spec, a, store)
  {
    OptionsOfSpec(spec);
    MechanismsAmongExactly(spec);
  }

  /** No password, credentials secret or agent secret of this spec is another one of them. */
  predicate SecretsAreApart(env: Env, spec: AuthSpec) {
    && (forall i :: 0 <= i < |spec.users| && !IsExternal(spec.users[i]) ==>
          var u := spec.users[i];
          && u.passwordName !in {spec.resourceName + "-agent-password", spec.resourceName + "-keyfile", env.certSecret}
          && CredentialsNameOf(u) !in {spec.resourceName + "-agent-password", spec.resourceName + "-keyfile", env.certSecret})
    && (forall i, j :: 0 <= i < |spec.users| && 0 <= j < |spec.users| && !IsExternal(spec.users[i]) && !IsExternal(spec.users[j])
          ==> spec.users[i].passwordName != CredentialsNameOf(spec.users[j]))
    && env.certSecret != ""
  }

  lemma AgentSecretNames(env: Env, resourceName: string)
    requires env.certSecret != ""
    ensures AgentSecrets(env, resourceName) == {resourceName + "-agent-password", resourceName + "-keyfile", env.certSecret}
    ensures "" !in AgentSecrets(env, resourceName)
  {
    assert |resourceName + "-agent-password"| >= 8 && |resourceName + "-keyfile"| >= 8;
  }

  lemma SpecIsApartFromAgent(env: Env, lower: char -> char, spec: AuthSpec)
    requires SecretsAreApart(env, spec)
    ensures ApartFromAgent(env, spec.resourceName, AuthUsers(lower, spec))
  {
    var us := AuthUsers(lower, spec);
    AgentSecretNames(env, spec.resourceName);
    forall i | 0 <= i < |us|
      ensures us[i].passwordSecretName !in AgentSecrets(env, spec.resourceName)
      ensures us[i].scramCredentialsSecretName !in AgentSecrets(env, spec.resourceName)
    {
      UserOfSpec(lower, spec.resourceName, spec.namespace, spec.users[i]);
    }
  }

  lemma SpecKeepsPasswordsApart(env: Env, lower: char -> char, spec: AuthSpec)
    requires SecretsAreApart(env, spec) && ValidUsers(lower, spec)
    ensures PasswordsApart(AuthUsers(lower, spec))
  {
    var us := AuthUsers(lower, spec);
    ValidUsersExactly(lower, spec);
    forall i: nat, j: nat | i < |us| && j < |us| && us[i].database != EXTERNAL_DB
      ensures us[i].passwordSecretName != us[j].scramCredentialsSecretName
    {
      UserOfSpec(lower, spec.resourceName, spec.namespace, spec.users[i]);
      UserOfSpec(lower, spec.resourceName, spec.namespace, spec.users[j]);
      assert UserCanBeServed(spec.users[i], spec);
    }
  }

  lemma UsersCanLogInAs(env: Env, lower: char -> char, spec: AuthSpec, a: AuthConfig, store: Store, i: nat)
    requires ValidCrypto(env.crypto) && i < |spec.users| && !IsExternal(spec.users[i])
    requires var us := ScramUsers(AuthUsers(lower, spec));
             forall k :: 0 <= k < |us| ==> HasCredentials(env.crypto, us[k], a, store)
    ensures CanLogInAs(env, spec.users[i], a, store)
  {
    UserOfSpec(lower, spec.resourceName, spec.namespace, spec.users[i]);
    var k := ScramUserIsAmong(AuthUsers(lower, spec), i);
    HasCredentialsLogsIn(env, lower, spec, i, a, store);
  }

  /** What the section is like: the users with their roles, the mechanisms, who can log in, and the agent. */
  ghost predicate Honoured(env: Env, spec: AuthSpec, a: AuthConfig, store: Store)
    requires ValidCrypto(env.crypto)
  {
    && multiset(Bare(a.users)) == multiset(AskedUsers(spec))
    && (forall i :: 0 <= i < |spec.users| && !IsExternal(spec.users[i]) ==> CanLogInAs(env, spec.users[i], a, store))
    && Distinct(a.deploymentAuthMechanisms)
    && (forall x :: x in a.deploymentAuthMechanisms <==>
                    || (x == "SCRAM-SHA-256" && AsksForSha256(spec))
                       || (x == "MONGODB-CR" && "SCRAM-SHA-1" in spec.modes)
                    || (x == "MONGODB-X509" && "X509" in spec.modes))
    && AgentIsConfigured(env, spec, a, store)
  }

  lemma DeployedOfSpec(spec: AuthSpec, x: string)
    requires ValidModes(spec)
    ensures x in AuthMechanisms(spec) <==>
            || (x == "SCRAM-SHA-256" && AsksForSha256(spec)) || (x == "MONGODB-CR" && "SCRAM-SHA-1" in spec.modes)
            || (x == "MONGODB-X509" && "X509" in spec.modes)
  {
    MechanismsAmongExactly(spec);
    KnownMechanisms(spec);
  }

  /**
   * For every valid spec, whatever its modes, the secrets, random values and failures: if enabling on an empty section
   * succeeds, every user is listed once, with its database and roles; every user with a password can log in with it; exactly
   * the mechanisms of the modes are deployed; and the agent is configured with what its secrets hold.
   */
  lemma ValidSpecIsHonoured(env: Env, lower: char -> char, spec: AuthSpec, store: Store)
    requires ValidCrypto(env.crypto) && ValidUsers(lower, spec) && ValidModes(spec) && SecretsAreApart(env, spec)
    requires EnableSpec(env, lower, spec, EMPTY_AUTH, store).result.Ok?
    ensures var e := EnableSpec(env, lower, spec, EMPTY_AUTH, store); Honoured(env, spec, e.auth, e.store)
  {
    var e, us := EnableSpec(env, lower, spec, EMPTY_AUTH, store), AuthUsers(lower, spec);
    SpecIsApartFromAgent(env, lower, spec);
    SpecKeepsPasswordsApart(env, lower, spec);
    ValidatedSpecCanLogIn(env, lower, spec, store);
    AskedUsersAreIdentities(lower, spec);
    KnownMechanisms(spec);
    AgentOfSpec(env, spec, e.auth, e.store);
    forall x: string
      ensures x in AuthMechanisms(spec) <==>
              || (x == "SCRAM-SHA-256" && AsksForSha256(spec)) || (x == "MONGODB-CR" && "SCRAM-SHA-1" in spec.modes)
              || (x == "MONGODB-X509" && "X509" in spec.modes)
    {
      DeployedOfSpec(spec, x);
    }
    forall i | 0 <= i < |spec.users| && !IsExternal(spec.users[i])
      ensures CanLogInAs(env, spec.users[i], e.auth, e.store)
    {
      UsersCanLogInAs(env, lower, spec, e.auth, e.store, i);
    }
  }
}
