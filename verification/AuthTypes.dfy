/** What a resource says about authentication, and the options and users derived from it. */
module AuthTypes {
  import opened NormalizeName
  import opened Wrappers

  const EXTERNAL_DB := "$external"
  const SHA256 := "SCRAM-SHA-256"
  const SHA1 := "MONGODB-CR"
  const X509 := "MONGODB-X509"
  const KEY_FILE_PATH := "/var/lib/mongodb-mms-automation/authentication/keyfile"
  const WINDOWS_KEY_FILE_PATH := "%SystemDrive%\\MMSAutomation\\versions\\keyfile"
  const AGENT_NAME := "mms-automation"
  const AGENT_PASSWORD_KEY := "password"
  const AGENT_KEYFILE_KEY := "keyfile"
  const DEFAULT_DB := "admin"
  const DEFAULT_PASSWORD_KEY := "password"
  const DEFAULT_MODE := "SCRAM-SHA-256"

  datatype Role = Role(name: string, database: string)

  /**
   * A user of the spec.  The password reference is a secret name and a key in it; the options are those of its own
   * connection string.
   */
  datatype SpecUser = SpecUser(name: string, db: string, passwordName: string, passwordKey: string, roles: seq<Role>,
                               scramCredentialsSecretName: string, connectionStringSecretName: string,
                               connectionStringSecretNamespace: string, connectionStringOptions: map<string, string>)

  datatype AuthSpec = AuthSpec(resourceName: string, namespace: string, modes: seq<string>, agentMode: string,
                               ignoreUnknownUsers: Option<bool>, users: seq<SpecUser>, tlsEnabled: bool)

  datatype User = User(username: string, database: string, roles: seq<Role>, passwordSecretKey: string,
                       passwordSecretName: string, scramCredentialsSecretName: string, connectionStringSecretName: string,
                       connectionStringSecretNamespace: string, connectionStringOptions: map<string, string>)

  datatype Options = Options(authoritativeSet: bool, keyFile: string, authMechanisms: seq<string>, agentName: string,
                             autoAuthMechanism: string)

  /** Two labels stand for the same mechanism; an unknown label for none. */
  function ConvertAuthModeToAuthMechanism(mode: string): string {
    if mode == "SCRAM" || mode == "SCRAM-SHA-256" then SHA256
    else if mode == "SCRAM-SHA-1" then SHA1
    else if mode == "X509" then X509 else ""
  }

  function GetAgentAuthMode(spec: AuthSpec): string {
    if spec.agentMode != "" then spec.agentMode
    else if |spec.modes| == 0 then DEFAULT_MODE
    else if |spec.modes| == 1 then spec.modes[0]
    else if |spec.modes| == 2 && ("SCRAM" in spec.modes || "SCRAM-SHA-256" in spec.modes) && "SCRAM-SHA-1" in spec.modes
    then DEFAULT_MODE else ""
  }

  function AuthMechanisms(spec: AuthSpec): seq<string> {
    if |spec.modes| == 0 then [ConvertAuthModeToAuthMechanism(DEFAULT_MODE)]
    else seq(|spec.modes|, i requires 0 <= i < |spec.modes| => ConvertAuthModeToAuthMechanism(spec.modes[i]))
  }

  function AuthOptions(spec: AuthSpec): Options {
    var auto := ConvertAuthModeToAuthMechanism(GetAgentAuthMode(spec));
    Options(!(if spec.ignoreUnknownUsers.Some? then spec.ignoreUnknownUsers.value else true), KEY_FILE_PATH,
            AuthMechanisms(spec), AGENT_NAME, if auto == "" then ConvertAuthModeToAuthMechanism(DEFAULT_MODE) else auto)
  }

  method GetAuthOptions(spec: AuthSpec) returns (r: Options)
    ensures r == AuthOptions(spec)
  {
    var ignoreUnknownUsers := true;
    if spec.ignoreUnknownUsers.Some? {
      ignoreUnknownUsers := spec.ignoreUnknownUsers.value;
    }
    var defaultAuthMechanism := ConvertAuthModeToAuthMechanism(DEFAULT_MODE);
    var autoAuthMechanism := ConvertAuthModeToAuthMechanism(GetAgentAuthMode(spec));
    var authMechanisms := new string[|spec.modes|](_ => "");
    if autoAuthMechanism == "" {
      autoAuthMechanism := defaultAuthMechanism;
    }
    if |spec.modes| == 0 {
      authMechanisms := new string[1](_ => defaultAuthMechanism);
    } else {
      for i := 0 to |spec.modes|
        invariant authMechanisms.Length == |spec.modes|
        invariant forall k :: 0 <= k < i ==> authMechanisms[k] == ConvertAuthModeToAuthMechanism(spec.modes[k])
        invariant forall k :: i <= k < |spec.modes| ==> authMechanisms[k] == ""
      {
        if ConvertAuthModeToAuthMechanism(spec.modes[i]) != "" {
          authMechanisms[i] := ConvertAuthModeToAuthMechanism(spec.modes[i]);
        }
      }
    }
    assert authMechanisms[..] == AuthMechanisms(spec);
    return Options(!ignoreUnknownUsers, KEY_FILE_PATH, authMechanisms[..], AGENT_NAME, autoAuthMechanism);
  }

  // ---------------------------------------------------------------- users

  function Database(u: SpecUser): string {
    if u.db == "" then DEFAULT_DB else u.db
  }

  function ConnectionStringSecretName(lower: char -> char, resourceName: string, u: SpecUser): string {
    if u.connectionStringSecretName != "" then u.connectionStringSecretName
    else Normalized(lower, resourceName + "-" + Database(u) + "-" + u.name)
  }

  /** A user in the external database has no password and no SCRAM credentials. */
  function AuthUser(lower: char -> char, resourceName: string, namespace: string, u: SpecUser): User {
    var external := Database(u) == EXTERNAL_DB;
    User(u.name, Database(u), u.roles,
         if external then "" else if u.passwordKey == "" then DEFAULT_PASSWORD_KEY else u.passwordKey,
         if external then "" else u.passwordName,
         if external then "" else u.scramCredentialsSecretName + "-scram-credentials",
         ConnectionStringSecretName(lower, resourceName, u),
         if u.connectionStringSecretNamespace != "" then u.connectionStringSecretNamespace else namespace,
         u.connectionStringOptions)
  }

  function AuthUsers(lower: char -> char, spec: AuthSpec): (r: seq<User>)
    ensures |r| == |spec.users|
  {
    seq(|spec.users|, i requires 0 <= i < |spec.users| => AuthUser(lower, spec.resourceName, spec.namespace, spec.users[i]))
  }

  method GetConnectionStringSecretName(lower: char -> char, resourceName: string, u: SpecUser) returns (r: string)
    ensures r == ConnectionStringSecretName(lower, resourceName, u)
  {
    if u.connectionStringSecretName != "" {
      return u.connectionStringSecretName;
    }
    r := Normalize(lower, resourceName + "-" + Database(u) + "-" + u.name);
  }

  /** The SCRAM fields are filled in afterwards, and only for users of a database of the deployment. */
  method ConvertUser(lower: char -> char, resourceName: string, namespace: string, u: SpecUser) returns (r: User)
    ensures r == AuthUser(lower, resourceName, namespace, u)
  {
    var connectionStringSecretName := GetConnectionStringSecretName(lower, resourceName, u);
    var connectionStringSecretNamespace := namespace;
    if u.connectionStringSecretNamespace != "" {
      connectionStringSecretNamespace := u.connectionStringSecretNamespace;
    }
    r := User(u.name, Database(u), u.roles, "", "", "", connectionStringSecretName, connectionStringSecretNamespace,
              u.connectionStringOptions);
    if r.database != EXTERNAL_DB {
      r := r.(scramCredentialsSecretName := u.scramCredentialsSecretName + "-scram-credentials",
              passwordSecretKey := if u.passwordKey == "" then DEFAULT_PASSWORD_KEY else u.passwordKey,
              passwordSecretName := u.passwordName);
    }
  }

  method GetAuthUsers(lower: char -> char, spec: AuthSpec) returns (r: seq<User>)
    ensures r == AuthUsers(lower, spec)
  {
    var users := new User[|spec.users|](_ => User("", "", [], "", "", "", "", "", map[]));
    ghost var all := AuthUsers(lower, spec);
    for i := 0 to |spec.users|
      invariant forall k :: 0 <= k < i ==> users[k] == all[k]
    {
      users[i] := ConvertUser(lower, spec.resourceName, spec.namespace, spec.users[i]);
    }
    return users[..];
  }

  /**
   * The agent mode is left open exactly for several modes without an agent mode, unless they are the two SCRAM modes.
   */
  lemma AgentModeIsOpenExactly(spec: AuthSpec)
    requires forall i :: 0 <= i < |spec.modes| ==> ConvertAuthModeToAuthMechanism(spec.modes[i]) != ""
    ensures GetAgentAuthMode(spec) == "" <==>
            spec.agentMode == "" && |spec.modes| > 1
            && !(|spec.modes| == 2 && SHA256 in AuthMechanisms(spec) && SHA1 in AuthMechanisms(spec))
  {
    var ms := AuthMechanisms(spec);
    if |spec.modes| == 2 {
      assert ms == [ConvertAuthModeToAuthMechanism(spec.modes[0]), ConvertAuthModeToAuthMechanism(spec.modes[1])];
      assert spec.modes == [spec.modes[0], spec.modes[1]];
    }
  }
}
