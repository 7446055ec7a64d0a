/** What enabling authentication gives for a validated spec. */
module AuthenticationProperties {
  import opened Authentication
  import opened AuthTypes
  import opened UserConversion
  import opened Validation
  import opened Wrappers

  // ---------------------------------------------------------------- users

  lemma IdentitiesExtend(us: seq<User>, u: User)
    ensures Identities(us + [u]) == Identities(us) + [Identity(u)]
  {
  }

  /** The users of both kinds together are all users. */
  lemma {:induction false} KindsPartitionUsers(us: seq<User>)
    ensures multiset(Identities(ScramUsers(us))) + multiset(Identities(ExternalUsers(us))) == multiset(Identities(us))
  {
    if us == [] {
      assert Identities([]) == [];
    } else {
      var front, last := us[..|us| - 1], us[|us| - 1];
      KindsPartitionUsers(front);
      assert us == front + [last];
      IdentitiesExtend(front, last);
      if last.database != EXTERNAL_DB {
        IdentitiesExtend(ScramUsers(front), last);
        assert ExternalUsers(us) == ExternalUsers(front);
      } else {
        IdentitiesExtend(ExternalUsers(front), last);
        assert ScramUsers(us) == ScramUsers(front);
      }
    }
  }

  /** Valid users of a kind exist only when a mechanism of that kind does. */
  lemma {:induction false} KindsNeedMechanisms(us: seq<User>, mechanisms: seq<string>)
    requires AllSound(us, mechanisms)
    ensures !ScramAmong(mechanisms) ==> ScramUsers(us) == []
    ensures X509 !in mechanisms ==> ExternalUsers(us) == []
  {
    if us != [] {
      var last := us[|us| - 1];
      assert UserProblem(last, mechanisms).None?;
      KindsNeedMechanisms(us[..|us| - 1], mechanisms);
    }
  }

  /** The identities that the first mechanisms have listed. */
  function Listed(us: seq<User>, mechanisms: seq<string>): multiset<AcUser> {
    (if ScramAmong(mechanisms) then multiset(Identities(ScramUsers(us))) else multiset{})
    + (if X509 in mechanisms then multiset(Identities(ExternalUsers(us))) else multiset{})
  }

  lemma BareConcat(xs: seq<AcUser>, ys: seq<AcUser>)
    ensures Bare(xs + ys) == Bare(xs) + Bare(ys)
  {
  }

  /** One mechanism more. */
  lemma ListedExtends(us: seq<User>, mechanisms: seq<string>, m: string)
    requires m !in mechanisms
    ensures Listed(us, mechanisms + [m]) == Listed(us, mechanisms)
            + (if IsScram(m) && !ScramAmong(mechanisms) then multiset(Identities(ScramUsers(us)))
               else if m == X509 then multiset(Identities(ExternalUsers(us))) else multiset{})
  {
  }

  /** One step lists the users of its kind, and only the first step of that kind does. */
  lemma StepLists(a: AuthConfig, opts: Options, us: seq<User>, k: nat, r: Resolved)
    requires k < |opts.authMechanisms| && Distinct(opts.authMechanisms) && ResolvesStep(opts, us, k, r)
    requires multiset(Bare(a.users)) == Listed(us, opts.authMechanisms[..k])
    ensures multiset(Bare(EnableStep(a, opts, k, r).users)) == Listed(us, opts.authMechanisms[..k + 1])
  {
    assert opts.authMechanisms[..k + 1] == opts.authMechanisms[..k] + [opts.authMechanisms[k]];
    BareConcat(a.users, r.users);
    ListedExtends(us, opts.authMechanisms[..k], opts.authMechanisms[k]);
  }

  lemma {:induction false} StepsList(opts: Options, us: seq<User>, rs: seq<Resolved>)
    requires Distinct(opts.authMechanisms) && Resolves(opts, us, rs)
    ensures multiset(Bare(Enabled(EMPTY_AUTH, opts, rs).users)) == Listed(us, opts.authMechanisms[..|rs|])
  {
    if rs == [] {
      assert Bare(EMPTY_AUTH.users) == [];
    } else {
      StepsList(opts, us, rs[..|rs| - 1]);
      assert ResolvesStep(opts, us, |rs| - 1, rs[|rs| - 1]);
      StepLists(Enabled(EMPTY_AUTH, opts, rs[..|rs| - 1]), opts, us, |rs| - 1, rs[|rs| - 1]);
    }
  }

  // ---------------------------------------------------------------- mechanisms

  /** No duplicates, and of the mechanisms so far exactly these: SCRAM brings all its mechanisms at once. */
  ghost predicate Deployed(ms: seq<string>, mechanisms: seq<string>, k: nat)
    requires k <= |mechanisms|
  {
    Distinct(ms)
    && forall m :: m in ms <==> (IsScram(m) && m in mechanisms && ScramAmong(mechanisms[..k]))
                                || (m == X509 && X509 in mechanisms[..k])
  }

  /** Adding a mechanism keeps a list without duplicates so, and adds at most this mechanism. */
  lemma AddKeepsDistinct(ms: seq<string>, m: string)
    requires Distinct(ms)
    ensures Distinct(AddMechanism(ms, m)) && forall x :: x in AddMechanism(ms, m) <==> x in ms || x == m
  {
  }

  lemma ScramDeploys(a: AuthConfig, opts: Options, r: Resolved)
    requires Distinct(a.deploymentAuthMechanisms)
    ensures var ms := WithScram(a, opts, r).deploymentAuthMechanisms;
            Distinct(ms) && forall x :: x in ms <==> x in a.deploymentAuthMechanisms
                                                     || (IsScram(x) && x in opts.authMechanisms)
  {
    var ms := a.deploymentAuthMechanisms;
    AddKeepsDistinct(ms, SHA256);
    var sha256 := if SHA256 in opts.authMechanisms then AddMechanism(ms, SHA256) else ms;
    AddKeepsDistinct(sha256, SHA1);
  }

  lemma StepDeploys(a: AuthConfig, opts: Options, k: nat, r: Resolved)
    requires k < |opts.authMechanisms| && Deployed(a.deploymentAuthMechanisms, opts.authMechanisms, k)
    ensures Deployed(EnableStep(a, opts, k, r).deploymentAuthMechanisms, opts.authMechanisms, k + 1)
  {
    assert opts.authMechanisms[..k + 1] == opts.authMechanisms[..k] + [opts.authMechanisms[k]];
    ScramDeploys(a, opts, r);
    AddKeepsDistinct(a.deploymentAuthMechanisms, X509);
  }

  lemma {:induction false} StepsDeploy(opts: Options, rs: seq<Resolved>)
    requires |rs| <= |opts.authMechanisms|
    ensures Deployed(Enabled(EMPTY_AUTH, opts, rs).deploymentAuthMechanisms, opts.authMechanisms, |rs|)
  {
    if rs != [] {
      StepsDeploy(opts, rs[..|rs| - 1]);
      StepDeploys(Enabled(EMPTY_AUTH, opts, rs[..|rs| - 1]), opts, |rs| - 1, rs[|rs| - 1]);
    }
  }

  // ---------------------------------------------------------------- the agent

  /** The agent can log in: its mechanism is set, and it is one that it may use and that the deployment has. */
  ghost predicate AgentReady(a: AuthConfig, opts: Options) {
    && !a.disabled && a.autoAuthMechanism == opts.autoAuthMechanism && a.autoAuthMechanism in a.autoAuthMechanisms
    && (forall m :: m in a.autoAuthMechanisms ==> m in opts.authMechanisms)
    && a.authoritativeSet == opts.authoritativeSet && a.keyFile == opts.keyFile
       && a.keyFileWindows == WINDOWS_KEY_FILE_PATH
    && forall m :: m in a.autoAuthMechanisms <==>
                   if opts.autoAuthMechanism == X509 then m == X509 else IsScram(m) && m in opts.authMechanisms
  }

  /** The mechanism at which the agent is configured: the first of the kind of its own mechanism. */
  predicate SetsAgent(opts: Options, k: nat)
    requires k < |opts.authMechanisms|
  {
    if IsScram(opts.autoAuthMechanism) then IsScram(opts.authMechanisms[k])
    else opts.authMechanisms[k] == opts.autoAuthMechanism == X509
  }

  lemma StepSetsAgent(a: AuthConfig, opts: Options, k: nat, r: Resolved)
    requires k < |opts.authMechanisms| && opts.autoAuthMechanism in opts.authMechanisms
    requires (exists j :: 0 <= j < k && SetsAgent(opts, j)) ==> AgentReady(a, opts)
    ensures (exists j :: 0 <= j < k + 1 && SetsAgent(opts, j)) ==> AgentReady(EnableStep(a, opts, k, r), opts)
  {
    var m, before := opts.authMechanisms[k], opts.authMechanisms[..k];
    if IsScram(m) && ScramAmong(before) && SetsAgent(opts, k) {
      var j :| 0 <= j < k && IsScram(before[j]);
      assert SetsAgent(opts, j);
    }
    assert m in opts.authMechanisms;
  }

  lemma {:induction false} StepsSetAgent(opts: Options, rs: seq<Resolved>)
    requires |rs| <= |opts.authMechanisms| && opts.autoAuthMechanism in opts.authMechanisms
    ensures (exists j :: 0 <= j < |rs| && SetsAgent(opts, j)) ==> AgentReady(Enabled(EMPTY_AUTH, opts, rs), opts)
  {
    if rs != [] {
      StepsSetAgent(opts, rs[..|rs| - 1]);
      StepSetsAgent(Enabled(EMPTY_AUTH, opts, rs[..|rs| - 1]), opts, |rs| - 1, rs[|rs| - 1]);
    }
  }

  // ---------------------------------------------------------------- the promise to a validated spec

  /** Every user once, the mechanisms of the modes without duplicates, and an agent that can log in. */
  ghost predicate EnabledAsPromised(a: AuthConfig, opts: Options, us: seq<User>) {
    && multiset(Bare(a.users)) == multiset(Identities(us))
    && Distinct(a.deploymentAuthMechanisms)
    && (forall m :: m in a.deploymentAuthMechanisms <==> m in opts.authMechanisms)
    && AgentReady(a, opts)
  }

  /** The options that a validated spec leads to. */
  ghost predicate SoundOptions(opts: Options) {
    && Distinct(opts.authMechanisms) && opts.autoAuthMechanism in opts.authMechanisms
    && forall m :: m in opts.authMechanisms ==> IsScram(m) || m == X509
  }

  lemma SoundOptionsAreEnabled(opts: Options, us: seq<User>, rs: seq<Resolved>)
    requires SoundOptions(opts) && AllSound(us, opts.authMechanisms)
    requires |rs| == |opts.authMechanisms| && Resolves(opts, us, rs)
    ensures EnabledAsPromised(Enabled(EMPTY_AUTH, opts, rs), opts, us)
  {
    assert opts.authMechanisms[..|rs|] == opts.authMechanisms;
    StepsList(opts, us, rs);
    KindsPartitionUsers(us);
    KindsNeedMechanisms(us, opts.authMechanisms);
    StepsDeploy(opts, rs);
    StepsSetAgent(opts, rs);
    var k :| 0 <= k < |opts.authMechanisms| && opts.authMechanisms[k] == opts.autoAuthMechanism;
    assert SetsAgent(opts, k);
  }

  /**
   * For every validated spec, whatever its modes, secrets and random values: enabling on an empty section lists every
   * user of the spec exactly as often as the spec does, deploys exactly the mechanisms of the modes without duplicates,
   * and leaves the agent with the mechanism asked for, which is one it may use.
   */
  lemma ValidatedSpecIsEnabled(lower: char -> char, spec: AuthSpec, rs: seq<Resolved>)
    requires ValidUsers(lower, spec) && ValidModes(spec)
    requires |rs| == |AuthMechanisms(spec)| && Resolves(AuthOptions(spec), AuthUsers(lower, spec), rs)
    ensures EnabledAsPromised(Enabled(EMPTY_AUTH, AuthOptions(spec), rs), AuthOptions(spec), AuthUsers(lower, spec))
    ensures AuthOptions(spec).autoAuthMechanism == ConvertAuthModeToAuthMechanism(GetAgentAuthMode(spec))
  {
    KnownMechanisms(spec);
    SoundOptionsAreEnabled(AuthOptions(spec), AuthUsers(lower, spec), rs);
  }

  lemma KnownMechanisms(spec: AuthSpec)
    requires ValidModes(spec)
    ensures SoundOptions(AuthOptions(spec))
    ensures AuthOptions(spec).autoAuthMechanism == ConvertAuthModeToAuthMechanism(GetAgentAuthMode(spec))
  {
    var ms := AuthMechanisms(spec);
    forall m | m in ms
      ensures m != "" && (IsScram(m) || m == X509)
    {
      var i :| 0 <= i < |ms| && ms[i] == m;
      if |spec.modes| > 0 {
        assert ModeIsSound(spec.modes[i], spec.tlsEnabled);
      }
    }
  }
}
