/**
 * Enabling authentication: one pass over the mechanisms of the modes, which configures SCRAM at most once, and X.509
 * each time it is listed.
 */
module Authentication {
  import opened AuthTypes
  import opened ScramCredentials
  import opened Secrets
  import opened UserConversion
  import opened Wrappers

  const CERT_KEY := "tls.crt"

  /** The authentication section of the config. */
  datatype AuthConfig = AuthConfig(
    users: seq<AcUser>, disabled: bool, authoritativeSet: bool, autoAuthMechanisms: seq<string>, autoAuthMechanism: string,
    deploymentAuthMechanisms: seq<string>, autoUser: string, key: string, keyFile: string, keyFileWindows: string,
    autoPwd: string)

  const EMPTY_AUTH := AuthConfig([], false, false, [], "", [], "", "", "", "", "")

  // ---------------------------------------------------------------- specification of the pass

  /** What a step found outside: converted users, agent password and key, subject of the agent's certificate. */
  datatype Resolved = Resolved(users: seq<AcUser>, password: string, key: string, subject: string)

  predicate IsScram(mechanism: string) {
    mechanism == SHA1 || mechanism == SHA256
  }

  /** Some of the mechanisms is a SCRAM mechanism. */
  predicate ScramAmong(mechanisms: seq<string>) {
    SHA1 in mechanisms || SHA256 in mechanisms
  }

  function ScramMechanisms(mechanisms: seq<string>): seq<string> {
    (if SHA256 in mechanisms then [SHA256] else []) + (if SHA1 in mechanisms then [SHA1] else [])
  }

  function WithAgent(a: AuthConfig, opts: Options, mechanisms: seq<string>, user: string, mechanism: string,
                     pwd: string, key: string):
    AuthConfig
  {
    a.(disabled := false, authoritativeSet := opts.authoritativeSet, autoAuthMechanisms := mechanisms,
       autoAuthMechanism := mechanism,
       autoUser := user, key := key, keyFile := opts.keyFile, keyFileWindows := WINDOWS_KEY_FILE_PATH, autoPwd := pwd)
  }

  function AddMechanism(ms: seq<string>, m: string): seq<string> {
    if m in ms then ms else ms + [m]
  }

  function WithScramAgent(a: AuthConfig, opts: Options, pwd: string, key: string): AuthConfig {
    WithAgent(a, opts, ScramMechanisms(opts.authMechanisms), opts.agentName, opts.autoAuthMechanism, pwd, key)
  }

  function WithX509Agent(a: AuthConfig, opts: Options, subject: string, key: string): AuthConfig {
    WithAgent(a, opts, [X509], subject, X509, "", key)
  }

  function WithScramClients(a: AuthConfig, opts: Options, users: seq<AcUser>): AuthConfig {
    var deployed := a.deploymentAuthMechanisms;
    var sha256 := if SHA256 in opts.authMechanisms then AddMechanism(deployed, SHA256) else deployed;
    var all := if SHA1 in opts.authMechanisms then AddMechanism(sha256, SHA1) else sha256;
    a.(deploymentAuthMechanisms := all, users := a.users + users)
  }

  function WithX509Clients(a: AuthConfig, users: seq<AcUser>): AuthConfig {
    a.(deploymentAuthMechanisms := AddMechanism(a.deploymentAuthMechanisms, X509), users := a.users + users)
  }

  function WithScram(a: AuthConfig, opts: Options, r: Resolved): AuthConfig {
    WithScramClients(if IsScram(opts.autoAuthMechanism) then WithScramAgent(a, opts, r.password, r.key) else a, opts, r.users)
  }

  function WithX509(a: AuthConfig, opts: Options, r: Resolved): AuthConfig {
    WithX509Clients(if opts.autoAuthMechanism == X509 then WithX509Agent(a, opts, r.subject, r.key) else a, r.users)
  }

  /** One mechanism of the pass; SCRAM is configured by the first of its mechanisms. */
  function EnableStep(a: AuthConfig, opts: Options, k: nat, r: Resolved): AuthConfig
    requires k < |opts.authMechanisms|
  {
    var m := opts.authMechanisms[k];
    if IsScram(m) then if ScramAmong(opts.authMechanisms[..k]) then a else WithScram(a, opts, r)
    else if m == X509 then WithX509(a, opts, r) else a
  }

  /** The section after the first |rs| mechanisms. */
  function Enabled(a: AuthConfig, opts: Options, rs: seq<Resolved>): AuthConfig
    requires |rs| <= |opts.authMechanisms|
  {
    if rs == [] then a else EnableStep(Enabled(a, opts, rs[..|rs| - 1]), opts, |rs| - 1, rs[|rs| - 1])
  }

  /** A step has converted the users of its kind. */
  predicate ResolvesStep(opts: Options, us: seq<User>, k: nat, r: Resolved)
    requires k < |opts.authMechanisms|
  {
    var m := opts.authMechanisms[k];
    && (IsScram(m) && !ScramAmong(opts.authMechanisms[..k]) ==> Bare(r.users) == Identities(ScramUsers(us)))
    && (m == X509 ==> Bare(r.users) == Identities(ExternalUsers(us)))
  }

  predicate Resolves(opts: Options, us: seq<User>, rs: seq<Resolved>) {
    |rs| <= |opts.authMechanisms| && forall k :: 0 <= k < |rs| ==> ResolvesStep(opts, us, k, rs[k])
  }

  // ---------------------------------------------------------------- what the pass finds outside, and how it fails

  /** The secrets of the agent. */
  function PasswordSecret(resourceName: string): string {
    resourceName + "-agent-password"
  }

  function KeyfileSecret(resourceName: string): string {
    resourceName + "-keyfile"
  }

  /** The store, and what was found in it or generated into it. */
  datatype Finding = Finding(store: Store, result: Result<Resolved, AuthError>)

  /** Password and keyfile: read back, or generated into new secrets. */
  function FindScramAgent(env: Env, resourceName: string, store: Store): Finding {
    if env.faults.random then Finding(store, Err(AuthError.NoRandom)) else
    var password := EnsureKeySpec(store, PasswordSecret(resourceName), AGENT_PASSWORD_KEY, env.password,
                                  env.faults.passwordGet, env.faults.passwordCreate);
    if password.result.Err? then Finding(password.store, Err(AgentSecretFailed(password.result.error))) else
    var key := EnsureKeySpec(password.store, KeyfileSecret(resourceName), AGENT_KEYFILE_KEY, env.keyFile,
                             env.faults.keyGet, env.faults.keyCreate);
    if key.result.Err? then Finding(key.store, Err(AgentSecretFailed(key.result.error)))
    else Finding(key.store, Ok(Resolved([], password.result.value, key.result.value, "")))
  }

  /** Keyfile as before, and the subject of the agent's certificate. */
  function FindX509Agent(env: Env, resourceName: string, store: Store): Finding {
    if env.faults.random then Finding(store, Err(AuthError.NoRandom)) else
    var key := EnsureKeySpec(store, KeyfileSecret(resourceName), AGENT_KEYFILE_KEY, env.keyFile,
                             env.faults.keyGet, env.faults.keyCreate);
    if key.result.Err? then Finding(key.store, Err(AgentSecretFailed(key.result.error))) else
    var cert := ReadKeySpec(key.store, env.certSecret, CERT_KEY, env.faults.certRead);
    if cert.Err? then Finding(key.store, Err(AgentSecretFailed(cert.error)))
    else if env.certSubject(cert.value).None? then Finding(key.store, Err(NoSubject))
    else Finding(key.store, Ok(Resolved([], "", key.result.value, env.certSubject(cert.value).value)))
  }

  predicate ScramAgentOptions(opts: Options) {
    opts.autoAuthMechanism != "" && opts.agentName != "" && opts.keyFile != ""
  }

  /** The section, the store, and whether it failed. */
  datatype Enabling = Enabling(auth: AuthConfig, store: Store, result: Result<(), AuthError>)

  /** The last half of a step: the clients, unless there is no mechanism at all. */
  function WithClients(before: AuthConfig, after: AuthConfig, opts: Options, store: Store): Enabling {
    if |opts.authMechanisms| == 0 then Enabling(before, store, Err(InvalidOptions)) else Enabling(after, store, Ok(()))
  }

  ghost function EnableScramSpec(env: Env, resourceName: string, opts: Options, us: seq<User>, a: AuthConfig,
                                 store: Store): Enabling
    requires ValidCrypto(env.crypto)
  {
    var converted := ConvertSpec(env, us, store);
    if converted.result.Err? then Enabling(a, converted.store, Err(converted.result.error))
    else if !IsScram(opts.autoAuthMechanism) then
      WithClients(a, WithScramClients(a, opts, converted.result.value), opts, converted.store)
    else
      var found := FindScramAgent(env, resourceName, converted.store);
      if found.result.Err? then Enabling(a, found.store, Err(found.result.error))
      else if !ScramAgentOptions(opts) then Enabling(a, found.store, Err(InvalidOptions))
      else
        var b := WithScramAgent(a, opts, found.result.value.password, found.result.value.key);
        WithClients(b, WithScramClients(b, opts, converted.result.value), opts, found.store)
  }

  function EnableX509Spec(env: Env, resourceName: string, opts: Options, us: seq<User>, a: AuthConfig,
                          store: Store): Enabling {
    var users := Identities(ExternalUsers(us));
    if opts.autoAuthMechanism != X509 then WithClients(a, WithX509Clients(a, users), opts, store) else
    var found := FindX509Agent(env, resourceName, store);
    if found.result.Err? then Enabling(a, found.store, Err(found.result.error))
    else
      var b := WithX509Agent(a, opts, found.result.value.subject, found.result.value.key);
      WithClients(b, WithX509Clients(b, users), opts, found.store)
  }

  ghost function EnableMechanismSpec(env: Env, resourceName: string, opts: Options, us: seq<User>, k: nat,
                                     a: AuthConfig, store: Store):
    Enabling
    requires ValidCrypto(env.crypto) && k < |opts.authMechanisms|
  {
    var m := opts.authMechanisms[k];
    if IsScram(m) then
      if ScramAmong(opts.authMechanisms[..k]) then Enabling(a, store, Ok(()))
      else EnableScramSpec(env, resourceName, opts, us, a, store)
    else if m == X509 then EnableX509Spec(env, resourceName, opts, us, a, store) else Enabling(a, store, Ok(()))
  }

  /** The first k mechanisms; the first failure ends it. */
  ghost function EnableUpTo(env: Env, resourceName: string, opts: Options, us: seq<User>, k: nat, a: AuthConfig,
                            store: Store):
    Enabling
    requires ValidCrypto(env.crypto) && k <= |opts.authMechanisms|
  {
    if k == 0 then Enabling(a, store, Ok(())) else
    var before := EnableUpTo(env, resourceName, opts, us, k - 1, a, store);
    if before.result.Err? then before
    else EnableMechanismSpec(env, resourceName, opts, us, k - 1, before.auth, before.store)
  }

  ghost function EnableSpec(env: Env, lower: char -> char, spec: AuthSpec, a: AuthConfig, store: Store): Enabling
    requires ValidCrypto(env.crypto)
  {
    var opts := AuthOptions(spec);
    EnableUpTo(env, spec.resourceName, opts, AuthUsers(lower, spec), |opts.authMechanisms|, a, store)
  }

  lemma {:induction false} EnableStops(env: Env, resourceName: string, opts: Options, us: seq<User>, k: nat, n: nat,
                                       a: AuthConfig, store: Store)
    requires ValidCrypto(env.crypto) && k <= n <= |opts.authMechanisms|
    requires EnableUpTo(env, resourceName, opts, us, k, a, store).result.Err?
    ensures EnableUpTo(env, resourceName, opts, us, n, a, store) == EnableUpTo(env, resourceName, opts, us, k, a, store)
  {
    if k < n {
      EnableStops(env, resourceName, opts, us, k, n - 1, a, store);
    }
  }

  // ---------------------------------------------------------------- the imperative pass

  class Auth {
    var users: seq<AcUser>
    var disabled: bool
    var authoritativeSet: bool
    var autoAuthMechanisms: seq<string>
    var autoAuthMechanism: string
    var deploymentAuthMechanisms: seq<string>
    var autoUser: string
    var key: string
    var keyFile: string
    var keyFileWindows: string
    var autoPwd: string

    constructor ()
      ensures Value() == EMPTY_AUTH
    {
      users, disabled, authoritativeSet, autoAuthMechanisms, autoAuthMechanism := [], false, false, [], "";
      deploymentAuthMechanisms, autoUser, key, keyFile, keyFileWindows, autoPwd := [], "", "", "", "", "";
    }

    function Value(): AuthConfig
      reads this
    {
      AuthConfig(users, disabled, authoritativeSet, autoAuthMechanisms, autoAuthMechanism, deploymentAuthMechanisms,
                 autoUser, key, keyFile, keyFileWindows, autoPwd)
    }

    /** Both ways of authenticating the agent set the same fields. */
    method SetAgent(opts: Options, mechanisms: seq<string>, user: string, mechanism: string, pwd: string,
                    agentKeyFile: string)
      modifies this
      ensures Value() == WithAgent(old(Value()), opts, mechanisms, user, mechanism, pwd, agentKeyFile)
    {
      disabled := false;
      authoritativeSet := opts.authoritativeSet;
      keyFile := opts.keyFile;
      keyFileWindows := WINDOWS_KEY_FILE_PATH;
      autoAuthMechanisms := mechanisms;
      autoUser := user;
      autoAuthMechanism := mechanism;
      autoPwd := pwd;
      key := agentKeyFile;
    }

    method EnableScramAgent(opts: Options, agentPassword: string, agentKeyFile: string)
      returns (r: Result<(), AuthError>)
      modifies this
      ensures r == if ScramAgentOptions(opts) then Ok(()) else Err(InvalidOptions)
      ensures Value() == if r.Err? then old(Value()) else WithScramAgent(old(Value()), opts, agentPassword, agentKeyFile)
    {
      if opts.autoAuthMechanism == "" || opts.agentName == "" || opts.keyFile == "" {
        return Err(InvalidOptions);
      }
      var mechanisms: seq<string> := [];
      if SHA256 in opts.authMechanisms {
        mechanisms := mechanisms + [SHA256];
      }
      if SHA1 in opts.authMechanisms {
        mechanisms := mechanisms + [SHA1];
      }
      SetAgent(opts, mechanisms, opts.agentName, opts.autoAuthMechanism, agentPassword, agentKeyFile);
      return Ok(());
    }

    method EnableScramClients(opts: Options, wanted: seq<AcUser>) returns (r: Result<(), AuthError>)
      modifies this`deploymentAuthMechanisms, this`users
      ensures r == if |opts.authMechanisms| > 0 then Ok(()) else Err(InvalidOptions)
      ensures Value() == if r.Err? then old(Value()) else WithScramClients(old(Value()), opts, wanted)
    {
      if |opts.authMechanisms| == 0 {
        return Err(InvalidOptions);
      }
      if SHA256 !in deploymentAuthMechanisms && SHA256 in opts.authMechanisms {
        deploymentAuthMechanisms := deploymentAuthMechanisms + [SHA256];
      }
      if SHA1 !in deploymentAuthMechanisms && SHA1 in opts.authMechanisms {
        deploymentAuthMechanisms := deploymentAuthMechanisms + [SHA1];
      }
      users := users + wanted;
      return Ok(());
    }

    method EnableX509Agent(opts: Options, agentKeyFile: string, subject: string) returns (r: Result<(), AuthError>)
      modifies this
      ensures r == if opts.autoAuthMechanism != "" then Ok(()) else Err(InvalidOptions)
      ensures Value() == if r.Err? then old(Value()) else WithX509Agent(old(Value()), opts, subject, agentKeyFile)
    {
      if opts.autoAuthMechanism == "" {
        return Err(InvalidOptions);
      }
      SetAgent(opts, [X509], subject, X509, "", agentKeyFile);
      return Ok(());
    }

    method EnableX509Clients(opts: Options, wanted: seq<AcUser>) returns (r: Result<(), AuthError>)
      modifies this`deploymentAuthMechanisms, this`users
      ensures r == if |opts.authMechanisms| > 0 then Ok(()) else Err(InvalidOptions)
      ensures Value() == if r.Err? then old(Value()) else WithX509Clients(old(Value()), wanted)
    {
      if |opts.authMechanisms| == 0 {
        return Err(InvalidOptions);
      }
      if X509 !in deploymentAuthMechanisms {
        deploymentAuthMechanisms := deploymentAuthMechanisms + [X509];
      }
      users := users + wanted;
      return Ok(());
    }

    /** The agent's password and keyfile are generated once and read back ever after. */
    method EnsureScramAgent(s: SecretStore, resourceName: string, opts: Options, env: Env)
      returns (r: Result<(), AuthError>)
      modifies this, s
      ensures var found := FindScramAgent(env, resourceName, old(s.secrets));
              && s.secrets == found.store
              && r == (if found.result.Err? then Err(found.result.error)
                       else if ScramAgentOptions(opts) then Ok(()) else Err(InvalidOptions))
              && Value() == if r.Err? then old(Value())
                            else WithScramAgent(old(Value()), opts, found.result.value.password, found.result.value.key)
    {
      if env.faults.random {
        return Err(AuthError.NoRandom);
      }
      var password := s.EnsureSecretWithKey(resourceName + "-agent-password", AGENT_PASSWORD_KEY, env.password,
                                            env.faults.passwordGet, env.faults.passwordCreate);
      if password.Err? {
        return Err(AgentSecretFailed(password.error));
      }
      var keyFile := s.EnsureSecretWithKey(resourceName + "-keyfile", AGENT_KEYFILE_KEY, env.keyFile,
                                           env.faults.keyGet, env.faults.keyCreate);
      if keyFile.Err? {
        return Err(AgentSecretFailed(keyFile.error));
      }
      r := EnableScramAgent(opts, password.value, keyFile.value);
    }

    method EnsureX509Agent(s: SecretStore, resourceName: string, opts: Options, env: Env)
      returns (r: Result<(), AuthError>)
      requires opts.autoAuthMechanism == X509
      modifies this, s
      ensures var found := FindX509Agent(env, resourceName, old(s.secrets));
              && s.secrets == found.store
              && r == (if found.result.Err? then Err(found.result.error) else Ok(()))
              && Value() == if r.Err? then old(Value())
                            else WithX509Agent(old(Value()), opts, found.result.value.subject, found.result.value.key)
    {
      if env.faults.random {
        return Err(AuthError.NoRandom);
      }
      var keyFile := s.EnsureSecretWithKey(resourceName + "-keyfile", AGENT_KEYFILE_KEY, env.keyFile,
                                           env.faults.keyGet, env.faults.keyCreate);
      if keyFile.Err? {
        return Err(AgentSecretFailed(keyFile.error));
      }
      var cert := s.ReadKey(env.certSecret, CERT_KEY, env.faults.certRead);
      if cert.Err? {
        return Err(AgentSecretFailed(cert.error));
      }
      var subject := env.certSubject(cert.value);
      if subject.None? {
        return Err(NoSubject);
      }
      r := EnableX509Agent(opts, keyFile.value, subject.value);
    }

    method EnableScram(s: SecretStore, resourceName: string, opts: Options, us: seq<User>, env: Env)
      returns (r: Result<(), AuthError>)
      requires ValidCrypto(env.crypto)
      modifies this, s
      ensures Enabling(Value(), s.secrets, r)
              == EnableScramSpec(env, resourceName, opts, us, old(Value()), old(s.secrets))
    {
      var wanted := ConvertScramUsers(s, us, env);
      if wanted.Err? {
        return Err(wanted.error);
      }
      if opts.autoAuthMechanism == SHA256 || opts.autoAuthMechanism == SHA1 {
        r := EnsureScramAgent(s, resourceName, opts, env);
        if r.Err? {
          return;
        }
      }
      r := EnableScramClients(opts, wanted.value);
    }

    method EnableX509(s: SecretStore, resourceName: string, opts: Options, us: seq<User>, env: Env)
      returns (r: Result<(), AuthError>)
      modifies this, s
      ensures Enabling(Value(), s.secrets, r)
              == EnableX509Spec(env, resourceName, opts, us, old(Value()), old(s.secrets))
    {
      var wanted := ConvertExternalUsers(us);
      if opts.autoAuthMechanism == X509 {
        r := EnsureX509Agent(s, resourceName, opts, env);
        if r.Err? {
          return;
        }
      }
      r := EnableX509Clients(opts, wanted);
    }

    /** One round of the pass; the flag lets SCRAM through once. */
    method EnableMechanism(s: SecretStore, resourceName: string, opts: Options, us: seq<User>, env: Env, k: nat,
                           scramEnabled: bool)
      returns (r: Result<(), AuthError>)
      requires ValidCrypto(env.crypto) && k < |opts.authMechanisms|
               && scramEnabled == ScramAmong(opts.authMechanisms[..k])
      modifies this, s
      ensures Enabling(Value(), s.secrets, r)
              == EnableMechanismSpec(env, resourceName, opts, us, k, old(Value()), old(s.secrets))
    {
      r := Ok(());
      var m := opts.authMechanisms[k];
      if m == SHA1 || m == SHA256 {
        if !scramEnabled {
          r := EnableScram(s, resourceName, opts, us, env);
        }
      } else if m == X509 {
        r := EnableX509(s, resourceName, opts, us, env);
      }
    }

    /** The pass over the mechanisms: the whole section, the whole store, and every error. */
    method Enable(s: SecretStore, lower: char -> char, spec: AuthSpec, env: Env) returns (r: Result<(), AuthError>)
      requires ValidCrypto(env.crypto)
      modifies this, s
      ensures Enabling(Value(), s.secrets, r) == EnableSpec(env, lower, spec, old(Value()), old(s.secrets))
    {
      var opts := GetAuthOptions(spec);
      var us := GetAuthUsers(lower, spec);
      r := EnableAll(s, spec.resourceName, opts, us, env);
    }

    method EnableAll(s: SecretStore, resourceName: string, opts: Options, us: seq<User>, env: Env)
      returns (r: Result<(), AuthError>)
      requires ValidCrypto(env.crypto)
      modifies this, s
      ensures Enabling(Value(), s.secrets, r)
              == EnableUpTo(env, resourceName, opts, us, |opts.authMechanisms|, old(Value()), old(s.secrets))
    {
      var scramEnabled := false;
      for k := 0 to |opts.authMechanisms|
        invariant Enabling(Value(), s.secrets, Ok(()))
                  == EnableUpTo(env, resourceName, opts, us, k, old(Value()), old(s.secrets))
        invariant scramEnabled == ScramAmong(opts.authMechanisms[..k])
      {
        var m := opts.authMechanisms[k];
        assert opts.authMechanisms[..k + 1] == opts.authMechanisms[..k] + [m];
        r := EnableMechanism(s, resourceName, opts, us, env, k, scramEnabled);
        if r.Err? {
          EnableStops(env, resourceName, opts, us, k + 1, |opts.authMechanisms|, old(Value()), old(s.secrets));
          return;
        }
        scramEnabled := scramEnabled || IsScram(m);
      }
      r := Ok(());
    }
  }
}
