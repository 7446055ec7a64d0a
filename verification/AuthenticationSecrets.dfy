/** What enabling authentication leaves in the secret store: enough for every user and for the agent to log in. */
module AuthenticationSecrets {
  import opened Authentication
  import opened AuthenticationProperties
  import opened AuthTypes
  import opened Scram
  import opened ScramCredentials
  import opened Secrets
  import opened UserConversion
  import opened Validation
  import opened Wrappers

  // ---------------------------------------------------------------- the pass, seen through what it resolved

  /** A step that succeeds resolves what the properties of the section are about. */
  lemma MechanismResolves(env: Env, resourceName: string, opts: Options, us: seq<User>, k: nat, a: AuthConfig,
                          store: Store)
    returns (r: Resolved)
    requires ValidCrypto(env.crypto) && k < |opts.authMechanisms|
    requires EnableMechanismSpec(env, resourceName, opts, us, k, a, store).result.Ok?
    ensures EnableMechanismSpec(env, resourceName, opts, us, k, a, store).auth == EnableStep(a, opts, k, r)
    ensures ResolvesStep(opts, us, k, r)
  {
    var m := opts.authMechanisms[k];
    r := Resolved([], "", "", "");
    if IsScram(m) && !ScramAmong(opts.authMechanisms[..k]) {
      var converted := ConvertSpec(env, us, store);
      ConversionEstablishes(env, us, store);
      assert Bare(converted.result.value) == Identities(ScramUsers(us));
      if IsScram(opts.autoAuthMechanism) {
        r := FindScramAgent(env, resourceName, converted.store).result.value;
      }
      r := r.(users := converted.result.value);
    } else if m == X509 {
      if opts.autoAuthMechanism == X509 {
        r := FindX509Agent(env, resourceName, store).result.value;
      }
      r := r.(users := Identities(ExternalUsers(us)));
      assert Bare(r.users) == r.users;
    }
  }

  lemma OneMoreResolves(opts: Options, us: seq<User>, a: AuthConfig, rs: seq<Resolved>, r: Resolved)
    requires |rs| < |opts.authMechanisms| && Resolves(opts, us, rs) && ResolvesStep(opts, us, |rs|, r)
    ensures Resolves(opts, us, rs + [r])
    ensures Enabled(a, opts, rs + [r]) == EnableStep(Enabled(a, opts, rs), opts, |rs|, r)
  {
    assert (rs + [r])[..|rs|] == rs;
  }

  lemma {:induction false} PassResolves(env: Env, resourceName: string, opts: Options, us: seq<User>, k: nat,
                                        a: AuthConfig, store: Store)
    returns (rs: seq<Resolved>)
    requires ValidCrypto(env.crypto) && k <= |opts.authMechanisms|
    requires EnableUpTo(env, resourceName, opts, us, k, a, store).result.Ok?
    ensures |rs| == k && Resolves(opts, us, rs)
    ensures EnableUpTo(env, resourceName, opts, us, k, a, store).auth == Enabled(a, opts, rs)
  {
    rs := [];
    if k > 0 {
      var before := EnableUpTo(env, resourceName, opts, us, k - 1, a, store);
      rs := PassResolves(env, resourceName, opts, us, k - 1, a, store);
      var r := MechanismResolves(env, resourceName, opts, us, k - 1, before.auth, before.store);
      OneMoreResolves(opts, us, a, rs, r);
      rs := rs + [r];
    }
  }

  // ---------------------------------------------------------------- fields that stay

  predicate HasField(store: Store, name: string, key: string, value: string) {
    name in store && FieldOf(store[name], key) == value
  }

  /** A secret that is ensured has the field, and no other secret changes. */
  lemma EnsuredHasField(store: Store, name: string, key: string, value: string, getFails: bool, createFails: bool)
    ensures var e := EnsureKeySpec(store, name, key, value, getFails, createFails);
            && (e.result.Ok? ==> HasField(e.store, name, key, e.result.value))
            && (forall n :: n in store ==> n in e.store && e.store[n] == store[n])
            && (forall n :: n in e.store && n !in store ==> n == name)
  {
  }

  /** The users' credentials stay, if the ensured secret is not where a password is expected. */
  lemma EnsuredKeepsConverted(c: Crypto, us: seq<User>, store: Store, xs: seq<AcUser>, name: string, key: string,
                              value: string, getFails: bool, createFails: bool)
    requires ValidCrypto(c) && Converted(c, us, store, xs)
    requires forall i :: 0 <= i < |us| ==> us[i].passwordSecretName != name
    ensures Converted(c, us, EnsureKeySpec(store, name, key, value, getFails, createFails).store, xs)
  {
    var after := EnsureKeySpec(store, name, key, value, getFails, createFails).store;
    if Unshared(us) {
      forall i | 0 <= i < |us|
        ensures Established(c, us[i], after, xs[i].creds.value)
      {
        EnvironmentKeepsEstablished(c, us[i], store, after, xs[i].creds.value);
      }
    }
  }

  // ---------------------------------------------------------------- what the agent needs

  /** The secrets that the agent's login is made of. */
  function AgentSecrets(env: Env, resourceName: string): set<string> {
    {PasswordSecret(resourceName), KeyfileSecret(resourceName), env.certSecret}
  }

  /** No user keeps a password or credentials in them. */
  predicate ApartFromAgent(env: Env, resourceName: string, us: seq<User>) {
    forall i :: 0 <= i < |us| ==>
      && us[i].passwordSecretName !in AgentSecrets(env, resourceName)
      && us[i].scramCredentialsSecretName !in AgentSecrets(env, resourceName)
  }

  /** The section carries what the secrets hold: password and keyfile, or keyfile and the certificate's subject. */
  ghost predicate AgentCanLogIn(env: Env, resourceName: string, opts: Options, a: AuthConfig, store: Store) {
    && HasField(store, KeyfileSecret(resourceName), AGENT_KEYFILE_KEY, a.key)
    && (if IsScram(opts.autoAuthMechanism) then
          a.autoUser == opts.agentName && HasField(store, PasswordSecret(resourceName), AGENT_PASSWORD_KEY, a.autoPwd)
        else
          a.autoPwd == "" && exists cert: string :: CertificateIs(env, store, cert, a.autoUser))
  }

  predicate CertificateIs(env: Env, store: Store, cert: string, subject: string) {
    ReadKeySpec(store, env.certSecret, CERT_KEY, false) == Ok(cert) && env.certSubject(cert) == Some(subject)
  }

  /** Two sections that agree on the agent. */
  predicate SameAgent(a: AuthConfig, b: AuthConfig) {
    b == a.(users := b.users, deploymentAuthMechanisms := b.deploymentAuthMechanisms)
  }

  lemma AgentStays(env: Env, resourceName: string, opts: Options, a: AuthConfig, store: Store, b: AuthConfig,
                   after: Store)
    requires AgentCanLogIn(env, resourceName, opts, a, store) && SameAgent(a, b)
    requires forall n :: n in AgentSecrets(env, resourceName) && n in store ==> n in after && after[n] == store[n]
    ensures AgentCanLogIn(env, resourceName, opts, b, after)
  {
    if !IsScram(opts.autoAuthMechanism) {
      var cert :| CertificateIs(env, store, cert, a.autoUser);
      assert CertificateIs(env, after, cert, b.autoUser);
    }
  }

  lemma FoundScramAgentCanLogIn(env: Env, resourceName: string, opts: Options, a: AuthConfig, store: Store)
    requires IsScram(opts.autoAuthMechanism) && FindScramAgent(env, resourceName, store).result.Ok?
    ensures var found := FindScramAgent(env, resourceName, store);
            AgentCanLogIn(env, resourceName, opts,
                          WithScramAgent(a, opts, found.result.value.password, found.result.value.key), found.store)
  {
    var password := EnsureKeySpec(store, PasswordSecret(resourceName), AGENT_PASSWORD_KEY, env.password,
                                  env.faults.passwordGet, env.faults.passwordCreate);
    EnsuredHasField(store, PasswordSecret(resourceName), AGENT_PASSWORD_KEY, env.password,
                    env.faults.passwordGet, env.faults.passwordCreate);
    EnsuredHasField(password.store, KeyfileSecret(resourceName), AGENT_KEYFILE_KEY, env.keyFile,
                    env.faults.keyGet, env.faults.keyCreate);
  }

  lemma FoundX509AgentCanLogIn(env: Env, resourceName: string, opts: Options, a: AuthConfig, store: Store)
    requires opts.autoAuthMechanism == X509 && FindX509Agent(env, resourceName, store).result.Ok?
    ensures var found := FindX509Agent(env, resourceName, store);
            AgentCanLogIn(env, resourceName, opts,
                          WithX509Agent(a, opts, found.result.value.subject, found.result.value.key), found.store)
  {
    var found := FindX509Agent(env, resourceName, store);
    EnsuredHasField(store, KeyfileSecret(resourceName), AGENT_KEYFILE_KEY, env.keyFile, env.faults.keyGet, env.faults.keyCreate);
    var cert := ReadKeySpec(found.store, env.certSecret, CERT_KEY, env.faults.certRead).value;
    assert CertificateIs(env, found.store, cert, found.result.value.subject);
  }

  /** The agent's mechanism alone says whether its search succeeds: which calls fail, and what is missing. */
  lemma ScramAgentIsFoundExactly(env: Env, resourceName: string, store: Store)
    ensures FindScramAgent(env, resourceName, store).result.Ok? <==>
            && !env.faults.random && !env.faults.passwordGet && !env.faults.keyGet
            && (PasswordSecret(resourceName) in store || !env.faults.passwordCreate)
            && (KeyfileSecret(resourceName) in store || !env.faults.keyCreate)
  {
    var n := |resourceName|;
    assert PasswordSecret(resourceName)[n + 1] == 'a' && KeyfileSecret(resourceName)[n + 1] == 'k';
  }

  // ---------------------------------------------------------------- what the users need

  /** Every SCRAM user is listed with credentials that are stored. */
  ghost predicate UsersCanLogIn(c: Crypto, us: seq<User>, a: AuthConfig, store: Store)
    requires ValidCrypto(c)
  {
    exists xs :: Converted(c, ScramUsers(us), store, xs) && forall i :: 0 <= i < |xs| ==> xs[i] in a.users
  }

  lemma {:induction false} ScramUsersAreUsers(us: seq<User>, i: nat)
    requires i < |ScramUsers(us)|
    ensures ScramUsers(us)[i] in us
  {
    var front := us[..|us| - 1];
    assert us == front + [us[|us| - 1]];
    if i < |ScramUsers(front)| {
      ScramUsersAreUsers(front, i);
    }
  }

  /** The SCRAM users' passwords are apart from the agent's secrets. */
  lemma PasswordsAreApart(env: Env, resourceName: string, us: seq<User>, name: string)
    requires ApartFromAgent(env, resourceName, us) && name in AgentSecrets(env, resourceName)
    ensures forall i :: 0 <= i < |ScramUsers(us)| ==> ScramUsers(us)[i].passwordSecretName != name
  {
    forall i: nat | i < |ScramUsers(us)|
      ensures ScramUsers(us)[i].passwordSecretName != name
    {
      ScramUsersAreUsers(us, i);
    }
  }

  /** Finding the agent's secrets leaves the users' credentials alone. */
  lemma ScramFindingKeepsConverted(env: Env, resourceName: string, us: seq<User>, store: Store, xs: seq<AcUser>)
    requires ValidCrypto(env.crypto) && ApartFromAgent(env, resourceName, us)
    requires Converted(env.crypto, ScramUsers(us), store, xs)
    ensures Converted(env.crypto, ScramUsers(us), FindScramAgent(env, resourceName, store).store, xs)
  {
    var password := EnsureKeySpec(store, PasswordSecret(resourceName), AGENT_PASSWORD_KEY, env.password,
                                  env.faults.passwordGet, env.faults.passwordCreate);
    PasswordsAreApart(env, resourceName, us, PasswordSecret(resourceName));
    PasswordsAreApart(env, resourceName, us, KeyfileSecret(resourceName));
    EnsuredKeepsConverted(env.crypto, ScramUsers(us), store, xs, PasswordSecret(resourceName), AGENT_PASSWORD_KEY,
                          env.password, env.faults.passwordGet, env.faults.passwordCreate);
    EnsuredKeepsConverted(env.crypto, ScramUsers(us), password.store, xs, KeyfileSecret(resourceName), AGENT_KEYFILE_KEY,
                          env.keyFile, env.faults.keyGet, env.faults.keyCreate);
  }

  lemma X509FindingWritesKeyfile(env: Env, resourceName: string, store: Store)
    ensures var found := FindX509Agent(env, resourceName, store).store;
            found == store || found == EnsureKeySpec(store, KeyfileSecret(resourceName), AGENT_KEYFILE_KEY, env.keyFile,
                                                     env.faults.keyGet, env.faults.keyCreate).store
  {
  }

  lemma X509FindingKeepsConverted(env: Env, resourceName: string, us: seq<User>, store: Store, xs: seq<AcUser>)
    requires ValidCrypto(env.crypto) && ApartFromAgent(env, resourceName, us)
    requires Converted(env.crypto, ScramUsers(us), store, xs)
    ensures Converted(env.crypto, ScramUsers(us), FindX509Agent(env, resourceName, store).store, xs)
  {
    X509FindingWritesKeyfile(env, resourceName, store);
    PasswordsAreApart(env, resourceName, us, KeyfileSecret(resourceName));
    EnsuredKeepsConverted(env.crypto, ScramUsers(us), store, xs, KeyfileSecret(resourceName), AGENT_KEYFILE_KEY,
                          env.keyFile, env.faults.keyGet, env.faults.keyCreate);
  }

  // ---------------------------------------------------------------- the pass

  /** One of the first k mechanisms is the one at which the agent is configured. */
  predicate AgentIsSet(opts: Options, k: nat)
    requires k <= |opts.authMechanisms|
  {
    exists j :: 0 <= j < k && SetsAgent(opts, j)
  }

  /** After k mechanisms: users from the first SCRAM mechanism on, and the agent from its own mechanism on. */
  ghost predicate CanLogIn(env: Env, resourceName: string, opts: Options, us: seq<User>, k: nat, a: AuthConfig,
                           store: Store)
    requires ValidCrypto(env.crypto) && k <= |opts.authMechanisms|
  {
    && (ScramAmong(opts.authMechanisms[..k]) ==> UsersCanLogIn(env.crypto, us, a, store))
    && (AgentIsSet(opts, k) ==> AgentCanLogIn(env, resourceName, opts, a, store))
  }

  /** The users and the store of a first SCRAM step that succeeds. */
  lemma ScramStepShape(env: Env, resourceName: string, opts: Options, us: seq<User>, a: AuthConfig, store: Store)
    requires ValidCrypto(env.crypto) && EnableScramSpec(env, resourceName, opts, us, a, store).result.Ok?
    ensures var e, converted := EnableScramSpec(env, resourceName, opts, us, a, store), ConvertSpec(env, us, store);
            && converted.result.Ok? && e.auth.users == a.users + converted.result.value
            && e.store == if IsScram(opts.autoAuthMechanism) then FindScramAgent(env, resourceName, converted.store).store
                          else converted.store
  {
  }

  lemma ConvertedAreListed(c: Crypto, us: seq<User>, a: AuthConfig, before: seq<AcUser>, xs: seq<AcUser>, store: Store)
    requires ValidCrypto(c) && Converted(c, ScramUsers(us), store, xs) && a.users == before + xs
    ensures UsersCanLogIn(c, us, a, store)
  {
    assert forall i :: 0 <= i < |xs| ==> xs[i] == a.users[|before| + i];
  }

  /** The users are listed, with credentials that the agent's secrets do not disturb. */
  lemma ScramStepListsUsers(env: Env, resourceName: string, opts: Options, us: seq<User>, a: AuthConfig, store: Store)
    requires ValidCrypto(env.crypto) && ApartFromAgent(env, resourceName, us)
    requires EnableScramSpec(env, resourceName, opts, us, a, store).result.Ok?
    ensures var e := EnableScramSpec(env, resourceName, opts, us, a, store);
            UsersCanLogIn(env.crypto, us, e.auth, e.store)
  {
    var e, converted := EnableScramSpec(env, resourceName, opts, us, a, store), ConvertSpec(env, us, store);
    var xs := converted.result.value;
    ScramStepShape(env, resourceName, opts, us, a, store);
    ConversionEstablishes(env, us, store);
    if IsScram(opts.autoAuthMechanism) {
      ScramFindingKeepsConverted(env, resourceName, us, converted.store, xs);
    }
    ConvertedAreListed(env.crypto, us, e.auth, a.users, xs, e.store);
  }

  /** The first SCRAM mechanism sets the agent if its mechanism is SCRAM, and leaves it alone otherwise. */
  lemma ScramStepSetsAgent(env: Env, resourceName: string, opts: Options, us: seq<User>, a: AuthConfig, store: Store,
                           isSet: bool)
    requires ValidCrypto(env.crypto) && ApartFromAgent(env, resourceName, us)
    requires EnableScramSpec(env, resourceName, opts, us, a, store).result.Ok?
    requires isSet && !IsScram(opts.autoAuthMechanism) ==> AgentCanLogIn(env, resourceName, opts, a, store)
    ensures var e := EnableScramSpec(env, resourceName, opts, us, a, store);
            isSet || IsScram(opts.autoAuthMechanism) ==> AgentCanLogIn(env, resourceName, opts, e.auth, e.store)
  {
    var e, converted := EnableScramSpec(env, resourceName, opts, us, a, store), ConvertSpec(env, us, store);
    if IsScram(opts.autoAuthMechanism) {
      var found := FindScramAgent(env, resourceName, converted.store);
      FoundScramAgentCanLogIn(env, resourceName, opts, a, converted.store);
      AgentStays(env, resourceName, opts, WithScramAgent(a, opts, found.result.value.password, found.result.value.key),
                 found.store, e.auth, e.store);
    } else if isSet {
      ConversionKeepsAgent(env, resourceName, us, store);
      AgentStays(env, resourceName, opts, a, store, e.auth, e.store);
    }
  }

  lemma ConversionKeepsAgent(env: Env, resourceName: string, us: seq<User>, store: Store)
    requires ValidCrypto(env.crypto) && ApartFromAgent(env, resourceName, us)
    ensures var after := ConvertSpec(env, us, store).store;
            forall n :: n in AgentSecrets(env, resourceName) && n in store ==> n in after && after[n] == store[n]
  {
    forall n | n in AgentSecrets(env, resourceName)
      ensures var after := ConvertSpec(env, us, store).store; n in store ==> n in after && after[n] == store[n]
    {
      ConversionWritesOwnSecrets(env, us, store, n);
    }
  }

  /** An X.509 mechanism leaves the users' credentials alone, and sets the agent if its mechanism is X.509. */
  lemma X509StepCanLogIn(env: Env, resourceName: string, opts: Options, us: seq<User>, a: AuthConfig, store: Store,
                         listed: bool, isSet: bool)
    requires ValidCrypto(env.crypto) && ApartFromAgent(env, resourceName, us)
    requires EnableX509Spec(env, resourceName, opts, us, a, store).result.Ok?
    requires listed ==> UsersCanLogIn(env.crypto, us, a, store)
    requires isSet && opts.autoAuthMechanism != X509 ==> AgentCanLogIn(env, resourceName, opts, a, store)
    ensures var e := EnableX509Spec(env, resourceName, opts, us, a, store);
            && (listed ==> UsersCanLogIn(env.crypto, us, e.auth, e.store))
            && (isSet || opts.autoAuthMechanism == X509 ==> AgentCanLogIn(env, resourceName, opts, e.auth, e.store))
  {
    var e := EnableX509Spec(env, resourceName, opts, us, a, store);
    if opts.autoAuthMechanism == X509 {
      var found := FindX509Agent(env, resourceName, store);
      FoundX509AgentCanLogIn(env, resourceName, opts, a, store);
      AgentStays(env, resourceName, opts, WithX509Agent(a, opts, found.result.value.subject, found.result.value.key),
                 found.store, e.auth, e.store);
    } else if isSet {
      AgentStays(env, resourceName, opts, a, store, e.auth, e.store);
    }
    if listed {
      var xs :| Converted(env.crypto, ScramUsers(us), store, xs) && forall i :: 0 <= i < |xs| ==> xs[i] in a.users;
      X509FindingKeepsConverted(env, resourceName, us, store, xs);
      assert Converted(env.crypto, ScramUsers(us), e.store, xs);
      assert forall i :: 0 <= i < |xs| ==> xs[i] in e.auth.users;
    }
  }

  lemma AgentIsSetStep(opts: Options, k: nat)
    requires 0 < k <= |opts.authMechanisms|
    ensures AgentIsSet(opts, k) <==> AgentIsSet(opts, k - 1) || SetsAgent(opts, k - 1)
  {
  }

  /** A SCRAM mechanism that is not the first one does nothing, and neither does it set the agent. */
  lemma LaterScramSetsNothing(opts: Options, k: nat)
    requires k < |opts.authMechanisms| && IsScram(opts.authMechanisms[k]) && ScramAmong(opts.authMechanisms[..k])
    ensures SetsAgent(opts, k) ==> AgentIsSet(opts, k)
  {
    var j :| 0 <= j < k && IsScram(opts.authMechanisms[..k][j]);
    assert SetsAgent(opts, k) ==> SetsAgent(opts, j);
  }

  lemma ScramMechanismCanLogIn(env: Env, resourceName: string, opts: Options, us: seq<User>, k: nat, a: AuthConfig,
                               store: Store)
    requires ValidCrypto(env.crypto) && k < |opts.authMechanisms| && ApartFromAgent(env, resourceName, us)
    requires CanLogIn(env, resourceName, opts, us, k, a, store)
    requires IsScram(opts.authMechanisms[k]) && !ScramAmong(opts.authMechanisms[..k])
    requires EnableScramSpec(env, resourceName, opts, us, a, store).result.Ok?
    ensures var e := EnableScramSpec(env, resourceName, opts, us, a, store);
            CanLogIn(env, resourceName, opts, us, k + 1, e.auth, e.store)
  {
    AgentIsSetStep(opts, k + 1);
    ScramStepListsUsers(env, resourceName, opts, us, a, store);
    ScramStepSetsAgent(env, resourceName, opts, us, a, store, AgentIsSet(opts, k));
  }

  /** An X.509 mechanism converts no SCRAM user, and sets the agent exactly if its mechanism is X.509. */
  lemma X509IsNoScram(opts: Options, k: nat)
    requires k < |opts.authMechanisms| && opts.authMechanisms[k] == X509
    ensures ScramAmong(opts.authMechanisms[..k + 1]) <==> ScramAmong(opts.authMechanisms[..k])
    ensures AgentIsSet(opts, k + 1) <==> AgentIsSet(opts, k) || opts.autoAuthMechanism == X509
  {
    assert opts.authMechanisms[..k + 1] == opts.authMechanisms[..k] + [X509];
    AgentIsSetStep(opts, k + 1);
  }

  lemma X509MechanismCanLogIn(env: Env, resourceName: string, opts: Options, us: seq<User>, k: nat, a: AuthConfig,
                              store: Store)
    requires ValidCrypto(env.crypto) && k < |opts.authMechanisms| && ApartFromAgent(env, resourceName, us)
    requires CanLogIn(env, resourceName, opts, us, k, a, store) && opts.authMechanisms[k] == X509
    requires EnableX509Spec(env, resourceName, opts, us, a, store).result.Ok?
    ensures var e := EnableX509Spec(env, resourceName, opts, us, a, store);
            CanLogIn(env, resourceName, opts, us, k + 1, e.auth, e.store)
  {
    X509IsNoScram(opts, k);
    X509StepCanLogIn(env, resourceName, opts, us, a, store, ScramAmong(opts.authMechanisms[..k]), AgentIsSet(opts, k));
  }

  /** A mechanism that does nothing: another SCRAM one, or one that is not known. */
  lemma OtherMechanismCanLogIn(env: Env, resourceName: string, opts: Options, us: seq<User>, k: nat, a: AuthConfig,
                               store: Store)
    requires ValidCrypto(env.crypto) && k < |opts.authMechanisms| && CanLogIn(env, resourceName, opts, us, k, a, store)
    requires var m := opts.authMechanisms[k]; if IsScram(m) then ScramAmong(opts.authMechanisms[..k]) else m != X509
    ensures CanLogIn(env, resourceName, opts, us, k + 1, a, store)
  {
    assert opts.authMechanisms[..k + 1] == opts.authMechanisms[..k] + [opts.authMechanisms[k]];
    AgentIsSetStep(opts, k + 1);
    if IsScram(opts.authMechanisms[k]) {
      LaterScramSetsNothing(opts, k);
    }
  }

  lemma MechanismCanLogIn(env: Env, resourceName: string, opts: Options, us: seq<User>, k: nat, a: AuthConfig,
                          store: Store)
    requires ValidCrypto(env.crypto) && k < |opts.authMechanisms| && ApartFromAgent(env, resourceName, us)
    requires CanLogIn(env, resourceName, opts, us, k, a, store)
    requires EnableMechanismSpec(env, resourceName, opts, us, k, a, store).result.Ok?
    ensures var e := EnableMechanismSpec(env, resourceName, opts, us, k, a, store);
            CanLogIn(env, resourceName, opts, us, k + 1, e.auth, e.store)
  {
    var m := opts.authMechanisms[k];
    if IsScram(m) && !ScramAmong(opts.authMechanisms[..k]) {
      ScramMechanismCanLogIn(env, resourceName, opts, us, k, a, store);
    } else if m == X509 {
      X509MechanismCanLogIn(env, resourceName, opts, us, k, a, store);
    } else {
      OtherMechanismCanLogIn(env, resourceName, opts, us, k, a, store);
    }
  }

  lemma {:induction false} PassCanLogIn(env: Env, resourceName: string, opts: Options, us: seq<User>, k: nat,
                                        a: AuthConfig, store: Store)
    requires ValidCrypto(env.crypto) && k <= |opts.authMechanisms| && ApartFromAgent(env, resourceName, us)
    requires EnableUpTo(env, resourceName, opts, us, k, a, store).result.Ok?
    ensures var e := EnableUpTo(env, resourceName, opts, us, k, a, store);
            CanLogIn(env, resourceName, opts, us, k, e.auth, e.store)
  {
    if k > 0 {
      var before := EnableUpTo(env, resourceName, opts, us, k - 1, a, store);
      PassCanLogIn(env, resourceName, opts, us, k - 1, a, store);
      MechanismCanLogIn(env, resourceName, opts, us, k - 1, before.auth, before.store);
    }
  }

  // ---------------------------------------------------------------- the promise to a validated spec

  /** For sound options, as a validated spec leads to. */
  lemma SoundPassCanLogIn(env: Env, resourceName: string, opts: Options, us: seq<User>, store: Store)
    requires ValidCrypto(env.crypto) && SoundOptions(opts) && AllSound(us, opts.authMechanisms)
    requires ApartFromAgent(env, resourceName, us)
    requires EnableUpTo(env, resourceName, opts, us, |opts.authMechanisms|, EMPTY_AUTH, store).result.Ok?
    ensures var e := EnableUpTo(env, resourceName, opts, us, |opts.authMechanisms|, EMPTY_AUTH, store);
            && EnabledAsPromised(e.auth, opts, us)
            && (ScramAmong(opts.authMechanisms) ==> UsersCanLogIn(env.crypto, us, e.auth, e.store))
            && AgentCanLogIn(env, resourceName, opts, e.auth, e.store)
  {
    var n := |opts.authMechanisms|;
    var rs := PassResolves(env, resourceName, opts, us, n, EMPTY_AUTH, store);
    SoundOptionsAreEnabled(opts, us, rs);
    PassCanLogIn(env, resourceName, opts, us, n, EMPTY_AUTH, store);
    assert opts.authMechanisms[..n] == opts.authMechanisms;
    var k :| 0 <= k < n && opts.authMechanisms[k] == opts.autoAuthMechanism;
    assert SetsAgent(opts, k);
  }

  /** No user's password secret is a user's credentials secret. */
  predicate PasswordsApart(us: seq<User>) {
    forall i, j :: 0 <= i < |us| && 0 <= j < |us| && us[i].database != EXTERNAL_DB ==>
      us[i].passwordSecretName != us[j].scramCredentialsSecretName
  }

  lemma {:induction false} ValidScramUsersAreUnshared(us: seq<User>)
    requires Distinct(ScramNames(us)) && PasswordsApart(us)
    ensures Unshared(ScramUsers(us))
  {
    var scram := ScramUsers(us);
    forall i: nat, j: nat | i < |scram| && j < |scram|
      ensures scram[i].passwordSecretName != scram[j].scramCredentialsSecretName
    {
      ScramUsersAreUsers(us, i);
      ScramUsersAreUsers(us, j);
    }
    ScramNamesStayDistinct(us);
    forall i: nat, j: nat | i < |scram| && j < |scram| && i != j
      ensures scram[i].scramCredentialsSecretName != scram[j].scramCredentialsSecretName
    {
      assert ScramNames(scram)[i] != ScramNames(scram)[j];
    }
  }

  lemma {:induction false} ScramNamesStayDistinct(us: seq<User>)
    requires Distinct(ScramNames(us))
    ensures Distinct(ScramNames(ScramUsers(us)))
  {
    if us != [] {
      var front, last := us[..|us| - 1], us[|us| - 1];
      assert ScramNames(front) == ScramNames(us)[..|front|];
      ScramNamesStayDistinct(front);
      forall i: nat | i < |ScramUsers(front)|
        ensures ScramUsers(front)[i].scramCredentialsSecretName != last.scramCredentialsSecretName
      {
        ScramUsersAreUsers(front, i);
        var k :| 0 <= k < |front| && front[k] == ScramUsers(front)[i];
        assert ScramNames(us)[k] != ScramNames(us)[|us| - 1];
      }
      var names := ScramNames(ScramUsers(front));
      if last.database != EXTERNAL_DB {
        assert ScramNames(ScramUsers(us)) == names + [last.scramCredentialsSecretName];
        assert forall i :: 0 <= i < |names| ==> names[i] == ScramUsers(front)[i].scramCredentialsSecretName;
      } else {
        assert ScramUsers(us) == ScramUsers(front);
      }
    }
  }

  /** The user is listed with credentials that are stored, and belong to the password as long as there is one. */
  ghost predicate HasCredentials(c: Crypto, u: User, a: AuthConfig, store: Store)
    requires ValidCrypto(c)
  {
    exists pair :: Identity(u).(creds := Some(pair)) in a.users && Established(c, u, store, pair)
  }

  lemma ListedUsersHaveCredentials(c: Crypto, us: seq<User>, a: AuthConfig, store: Store)
    requires ValidCrypto(c) && UsersCanLogIn(c, us, a, store) && Unshared(ScramUsers(us))
    ensures forall i :: 0 <= i < |ScramUsers(us)| ==> HasCredentials(c, ScramUsers(us)[i], a, store)
  {
    var xs: seq<AcUser> :| Converted(c, ScramUsers(us), store, xs) && forall i :: 0 <= i < |xs| ==> xs[i] in a.users;
    forall i: nat | i < |ScramUsers(us)|
      ensures HasCredentials(c, ScramUsers(us)[i], a, store)
    {
      var u := ScramUsers(us)[i];
      assert xs[i] == Identity(u).(creds := Some(xs[i].creds.value));
      assert Established(c, u, store, xs[i].creds.value);
    }
  }

  /**
   * For every validated spec, whatever its modes, the secrets, random values and failures: if enabling on an empty
   * section succeeds, then every user of the spec is listed exactly as often as in the spec, exactly the mechanisms of
   * the modes are deployed, every SCRAM user is listed with credentials that are in the store, and the agent's part of
   * the section is what the agent's secrets hold.  Passwords, credentials and the agent's secrets only have to be in
   * different secrets, which validation does not check.
   */
  lemma ValidatedSpecCanLogIn(env: Env, lower: char -> char, spec: AuthSpec, store: Store)
    requires ValidCrypto(env.crypto) && ValidUsers(lower, spec) && ValidModes(spec)
    requires ApartFromAgent(env, spec.resourceName, AuthUsers(lower, spec)) && PasswordsApart(AuthUsers(lower, spec))
    requires EnableSpec(env, lower, spec, EMPTY_AUTH, store).result.Ok?
    ensures var e, opts, us := EnableSpec(env, lower, spec, EMPTY_AUTH, store), AuthOptions(spec), AuthUsers(lower, spec);
            && EnabledAsPromised(e.auth, opts, us)
            && (forall i :: 0 <= i < |ScramUsers(us)| ==> HasCredentials(env.crypto, ScramUsers(us)[i], e.auth, e.store))
            && AgentCanLogIn(env, spec.resourceName, opts, e.auth, e.store)
  {
    KnownMechanisms(spec);
    SoundUsersHaveCredentials(env, spec.resourceName, AuthOptions(spec), AuthUsers(lower, spec), store);
  }

  lemma SoundUsersHaveCredentials(env: Env, resourceName: string, opts: Options, us: seq<User>, store: Store)
    requires ValidCrypto(env.crypto) && SoundOptions(opts) && AllSound(us, opts.authMechanisms)
    requires Distinct(ScramNames(us)) && ApartFromAgent(env, resourceName, us) && PasswordsApart(us)
    requires EnableUpTo(env, resourceName, opts, us, |opts.authMechanisms|, EMPTY_AUTH, store).result.Ok?
    ensures var e := EnableUpTo(env, resourceName, opts, us, |opts.authMechanisms|, EMPTY_AUTH, store);
            && EnabledAsPromised(e.auth, opts, us)
            && (forall i :: 0 <= i < |ScramUsers(us)| ==> HasCredentials(env.crypto, ScramUsers(us)[i], e.auth, e.store))
            && AgentCanLogIn(env, resourceName, opts, e.auth, e.store)
  {
    var e := EnableUpTo(env, resourceName, opts, us, |opts.authMechanisms|, EMPTY_AUTH, store);
    SoundPassCanLogIn(env, resourceName, opts, us, store);
    if ScramAmong(opts.authMechanisms) {
      ValidScramUsersAreUnshared(us);
      ListedUsersHaveCredentials(env.crypto, us, e.auth, e.store);
    } else {
      KindsNeedMechanisms(us, opts.authMechanisms);
    }
  }
}
