/** Turning the users of a spec into users of the config, with their SCRAM credentials from the secret store. */
module UserConversion {
  import opened AuthTypes
  import opened Base64
  import opened Scram
  import opened ScramCredentials
  import opened Secrets
  import opened Wrappers

  /** A user of the config; users of the external database have no SCRAM credentials. */
  datatype AcUser = AcUser(username: string, database: string, roles: seq<Role>, creds: Option<CredentialPair>)

  datatype AgentFaults = AgentFaults(random: bool, passwordGet: bool, passwordCreate: bool, keyGet: bool, keyCreate: bool,
                                     certRead: bool)

  /**
   * What comes from outside: fresh random values, which calls fail, and the certificate parser.  `certSubject` answers
   * the subject of a certificate, if there is a valid one.
   */
  datatype Env = Env(crypto: Crypto, sha1Salts: nat -> Bytes, sha256Salts: nat -> Bytes, userFaults: nat -> ScramFaults,
                     password: string, keyFile: string, faults: AgentFaults, certSecret: string,
                     certSubject: string -> Option<string>)

  datatype AuthError = UserFailed(ensureError: EnsureError) | AgentSecretFailed(secretError: SecretError) | NoRandom
                     | NoSubject | InvalidOptions

  // ---------------------------------------------------------------- users of one kind

  function ScramUsers(us: seq<User>): (r: seq<User>)
    ensures forall i :: 0 <= i < |r| ==> r[i].database != EXTERNAL_DB
  {
    if us == [] then []
    else ScramUsers(us[..|us| - 1]) + if us[|us| - 1].database != EXTERNAL_DB then [us[|us| - 1]] else []
  }

  function ExternalUsers(us: seq<User>): (r: seq<User>)
    ensures forall i :: 0 <= i < |r| ==> r[i].database == EXTERNAL_DB
  {
    if us == [] then []
    else ExternalUsers(us[..|us| - 1]) + if us[|us| - 1].database == EXTERNAL_DB then [us[|us| - 1]] else []
  }

  /** Who a user is, apart from credentials. */
  function Identity(u: User): AcUser {
    AcUser(u.username, u.database, u.roles, None)
  }

  function Identities(us: seq<User>): (r: seq<AcUser>)
    ensures |r| == |us|
  {
    seq(|us|, i requires 0 <= i < |us| => Identity(us[i]))
  }

  function Bare(us: seq<AcUser>): (r: seq<AcUser>)
    ensures |r| == |us|
  {
    seq(|us|, i requires 0 <= i < |us| => us[i].(creds := None))
  }

  /** No credentials secret of one user serves another one, or holds a password. */
  predicate Unshared(us: seq<User>) {
    && (forall i, j :: 0 <= i < |us| && 0 <= j < |us| && i != j ==>
          us[i].scramCredentialsSecretName != us[j].scramCredentialsSecretName)
    && (forall i, j :: 0 <= i < |us| && 0 <= j < |us| ==> us[i].passwordSecretName != us[j].scramCredentialsSecretName)
  }

  /** These are the users with their stored credentials. */
  ghost predicate Converted(c: Crypto, us: seq<User>, store: Store, r: seq<AcUser>)
    requires ValidCrypto(c)
  {
    && |r| == |us|
    && (forall i :: 0 <= i < |us| ==> r[i].creds.Some? && r[i] == Identity(us[i]).(creds := r[i].creds))
    && (Unshared(us) ==> forall i :: 0 <= i < |us| ==> r[i].creds.Some? && Established(c, us[i], store, r[i].creds.value))
  }

  /** A call for one user leaves the credentials of the others alone. */
  lemma OtherUsersStayEstablished(c: Crypto, user: User, pair: CredentialPair, other: User, store: Store, store': Store)
    requires ValidCrypto(c) && Established(c, user, store, pair)
    requires other.scramCredentialsSecretName != user.scramCredentialsSecretName
             && other.scramCredentialsSecretName != user.passwordSecretName
    requires store' - {other.scramCredentialsSecretName} == store - {other.scramCredentialsSecretName}
    ensures Established(c, user, store', pair)
  {
    var name, password := user.scramCredentialsSecretName, user.passwordSecretName;
    assert name in store' <==> name in store' - {other.scramCredentialsSecretName};
    assert password in store' <==> password in store' - {other.scramCredentialsSecretName};
    assert password in store <==> password in store - {other.scramCredentialsSecretName};
    EnvironmentKeepsEstablished(c, user, store, store', pair);
  }

  /** A call writes no other secret than the one of its user. */
  lemma CallWritesOwnSecret(c: Crypto, user: User, store: Store, sha1Salt: Bytes, sha256Salt: Bytes, f: ScramFaults)
    requires ValidCrypto(c)
    ensures var store' := EnsureSpec(c, user, store, sha1Salt, sha256Salt, f).store;
            store' - {user.scramCredentialsSecretName} == store - {user.scramCredentialsSecretName}
  {
  }

  lemma ConvertedExtends(c: Crypto, us: seq<User>, u: User, store: Store, r: seq<AcUser>, sha1Salt: Bytes,
                         sha256Salt: Bytes, f: ScramFaults)
    requires ValidCrypto(c) && Converted(c, us, store, r)
    requires EnsureSpec(c, u, store, sha1Salt, sha256Salt, f).result.Ok?
    ensures var e := EnsureSpec(c, u, store, sha1Salt, sha256Salt, f);
            Converted(c, us + [u], e.store, r + [Identity(u).(creds := Some(e.result.value))])
  {
    var e := EnsureSpec(c, u, store, sha1Salt, sha256Salt, f);
    var all, r' := us + [u], r + [Identity(u).(creds := Some(e.result.value))];
    if Unshared(all) {
      assert all[|us|] == u && forall i :: 0 <= i < |us| ==> all[i] == us[i];
      assert Unshared(us);
      SuccessEstablishes(c, u, store, sha1Salt, sha256Salt, f);
      CallWritesOwnSecret(c, u, store, sha1Salt, sha256Salt, f);
      forall i | 0 <= i < |us|
        ensures Established(c, us[i], e.store, r[i].creds.value)
      {
        OtherUsersStayEstablished(c, us[i], r[i].creds.value, u, store, e.store);
      }
    }
  }

  // ---------------------------------------------------------------- the conversion

  /** The store and the converted users, or the error of the first one that failed. */
  datatype Converting = Converting(store: Store, result: Result<seq<AcUser>, AuthError>)

  ghost function ConvertSpec(env: Env, us: seq<User>, store: Store): Converting
    requires ValidCrypto(env.crypto)
  {
    if us == [] then Converting(store, Ok([])) else
    var i := |us| - 1;
    var before := ConvertSpec(env, us[..i], store);
    if before.result.Err? || us[i].database == EXTERNAL_DB then before else
    var e := EnsureSpec(env.crypto, us[i], before.store, env.sha1Salts(i), env.sha256Salts(i), env.userFaults(i));
    match e.result
    case Err(error) => Converting(e.store, Err(UserFailed(error)))
    case Ok(pair) => Converting(e.store, Ok(before.result.value + [Identity(us[i]).(creds := Some(pair))]))
  }

  /** The first failure ends it. */
  lemma {:induction false} ConvertStops(env: Env, us: seq<User>, store: Store, k: nat)
    requires ValidCrypto(env.crypto) && k <= |us| && ConvertSpec(env, us[..k], store).result.Err?
    ensures ConvertSpec(env, us, store) == ConvertSpec(env, us[..k], store)
  {
    if k == |us| {
      assert us[..k] == us;
    } else {
      assert us[..|us| - 1][..k] == us[..k];
      ConvertStops(env, us[..|us| - 1], store, k);
    }
  }

  /** A conversion that succeeds lists every SCRAM user in order, each with credentials that are stored in the end. */
  lemma {:induction false} ConversionEstablishes(env: Env, us: seq<User>, store: Store)
    requires ValidCrypto(env.crypto) && ConvertSpec(env, us, store).result.Ok?
    ensures var e := ConvertSpec(env, us, store); Converted(env.crypto, ScramUsers(us), e.store, e.result.value)
  {
    if us != [] {
      var i := |us| - 1;
      var before := ConvertSpec(env, us[..i], store);
      ConversionEstablishes(env, us[..i], store);
      if us[i].database != EXTERNAL_DB {
        ConvertedExtends(env.crypto, ScramUsers(us[..i]), us[i], before.store, before.result.value,
                         env.sha1Salts(i), env.sha256Salts(i), env.userFaults(i));
      } else {
        assert ScramUsers(us) == ScramUsers(us[..i]);
      }
    }
  }

  ghost predicate CallSucceeds(env: Env, us: seq<User>, store: Store, i: nat)
    requires ValidCrypto(env.crypto) && i < |us|
  {
    EnsureSpec(env.crypto, us[i], ConvertSpec(env, us[..i], store).store, env.sha1Salts(i), env.sha256Salts(i),
               env.userFaults(i)).result.Ok?
  }

  ghost predicate CallsSucceed(env: Env, us: seq<User>, store: Store)
    requires ValidCrypto(env.crypto)
  {
    forall i: nat :: i < |us| && us[i].database != EXTERNAL_DB ==> CallSucceeds(env, us, store, i)
  }

  lemma EarlierCallsAreTheSame(env: Env, us: seq<User>, store: Store, i: nat)
    requires ValidCrypto(env.crypto) && i < |us| - 1
    ensures CallSucceeds(env, us, store, i) <==> CallSucceeds(env, us[..|us| - 1], store, i)
  {
    assert us[..|us| - 1][..i] == us[..i];
  }

  lemma OneMoreCall(env: Env, us: seq<User>, store: Store)
    requires ValidCrypto(env.crypto) && us != []
    ensures var i := |us| - 1;
            CallsSucceed(env, us, store) <==>
            CallsSucceed(env, us[..i], store) && (us[i].database == EXTERNAL_DB || CallSucceeds(env, us, store, i))
  {
    forall i: nat | i < |us| - 1
      ensures CallSucceeds(env, us, store, i) <==> CallSucceeds(env, us[..|us| - 1], store, i)
    {
      EarlierCallsAreTheSame(env, us, store, i);
    }
  }

  /** It succeeds exactly when the call of each SCRAM user does, on the store that the calls before it leave. */
  lemma {:induction false} ConversionSucceedsExactly(env: Env, us: seq<User>, store: Store)
    requires ValidCrypto(env.crypto)
    ensures ConvertSpec(env, us, store).result.Ok? <==> CallsSucceed(env, us, store)
  {
    if us != [] {
      OneMoreCall(env, us, store);
      ConversionSucceedsExactly(env, us[..|us| - 1], store);
    }
  }

  /** The conversion of the first k users succeeds, and the call for the next one fails with this error. */
  ghost predicate FailsAt(env: Env, us: seq<User>, store: Store, k: nat, error: EnsureError)
    requires ValidCrypto(env.crypto)
  {
    && k < |us| && us[k].database != EXTERNAL_DB && ConvertSpec(env, us[..k], store).result.Ok?
    && EnsureSpec(env.crypto, us[k], ConvertSpec(env, us[..k], store).store, env.sha1Salts(k), env.sha256Salts(k),
                  env.userFaults(k)).result == Err(error)
  }

  lemma FailedCallWritesNothing(c: Crypto, user: User, store: Store, sha1Salt: Bytes, sha256Salt: Bytes, f: ScramFaults)
    requires ValidCrypto(c) && EnsureSpec(c, user, store, sha1Salt, sha256Salt, f).result.Err?
    ensures EnsureSpec(c, user, store, sha1Salt, sha256Salt, f).store == store
  {
  }

  /** A conversion that fails reports its first failure, and keeps what the calls before it have stored. */
  lemma {:induction false} FailedConversionExactly(env: Env, us: seq<User>, store: Store) returns (k: nat)
    requires ValidCrypto(env.crypto) && ConvertSpec(env, us, store).result.Err?
    ensures var e := ConvertSpec(env, us, store);
            && e.result.error.UserFailed? && FailsAt(env, us, store, k, e.result.error.ensureError)
            && e.store == ConvertSpec(env, us[..k], store).store
  {
    var i := |us| - 1;
    if ConvertSpec(env, us[..i], store).result.Err? {
      k := FailedConversionExactly(env, us[..i], store);
      assert us[..i][..k] == us[..k];
    } else {
      k := i;
      FailedCallWritesNothing(env.crypto, us[i], ConvertSpec(env, us[..i], store).store, env.sha1Salts(i),
                              env.sha256Salts(i), env.userFaults(i));
    }
  }

  /** No other secrets are written than those of the SCRAM users. */
  lemma {:induction false} ConversionWritesOwnSecrets(env: Env, us: seq<User>, store: Store, name: string)
    requires ValidCrypto(env.crypto) && forall i :: 0 <= i < |us| ==> us[i].scramCredentialsSecretName != name
    ensures var e := ConvertSpec(env, us, store);
            (name in e.store <==> name in store) && (name in store ==> e.store[name] == store[name])
  {
    if us != [] {
      var i := |us| - 1;
      var before := ConvertSpec(env, us[..i], store).store;
      ConversionWritesOwnSecrets(env, us[..i], store, name);
      CallWritesOwnSecret(env.crypto, us[i], before, env.sha1Salts(i), env.sha256Salts(i), env.userFaults(i));
      var after := EnsureSpec(env.crypto, us[i], before, env.sha1Salts(i), env.sha256Salts(i), env.userFaults(i)).store;
      var own := us[i].scramCredentialsSecretName;
      assert name in after <==> name in after - {own};
      assert name in before <==> name in before - {own};
    }
  }

  /** Converts the SCRAM users in their order; the first one that fails ends it. */
  method ConvertScramUsers(s: SecretStore, us: seq<User>, env: Env) returns (r: Result<seq<AcUser>, AuthError>)
    requires ValidCrypto(env.crypto)
    modifies s
    ensures Converting(s.secrets, r) == ConvertSpec(env, us, old(s.secrets))
  {
    var wanted: seq<AcUser> := [];
    for i := 0 to |us|
      invariant Converting(s.secrets, Ok(wanted)) == ConvertSpec(env, us[..i], old(s.secrets))
    {
      assert us[..i + 1][..i] == us[..i];
      if us[i].database != EXTERNAL_DB {
        var creds := EnsureScramCredentials(env.crypto, s, us[i], env.sha1Salts(i), env.sha256Salts(i), env.userFaults(i));
        if creds.Err? {
          ConvertStops(env, us, old(s.secrets), i + 1);
          return Err(UserFailed(creds.error));
        }
        wanted := wanted + [AcUser(us[i].username, us[i].database, us[i].roles, Some(creds.value))];
      }
    }
    assert us[..|us|] == us;
    return Ok(wanted);
  }

  method ConvertExternalUsers(us: seq<User>) returns (r: seq<AcUser>)
    ensures r == Identities(ExternalUsers(us))
  {
    r := [];
    for i := 0 to |us|
      invariant r == Identities(ExternalUsers(us[..i]))
    {
      assert us[..i + 1][..i] == us[..i];
      if us[i].database == EXTERNAL_DB {
        r := r + [AcUser(us[i].username, us[i].database, us[i].roles, None)];
      }
    }
    assert us[..|us|] == us;
  }
}
