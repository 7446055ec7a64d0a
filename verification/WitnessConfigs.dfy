/** Builds and publications that do not do what is written about them, on inputs that the operator can receive. */
module WitnessConfigs {
  import opened AgentReadiness
  import opened Config
  import opened ConfigBuilder
  import opened ConfigBuilderProperties
  import opened ConfigFcv
  import opened ConfigStore
  import opened ConfigStoreProperties
  import opened Controller
  import opened Names
  import opened Placement
  import opened PortProgress
  import opened Resource
  import opened Runs
  import opened Versions
  import opened WitnessDeployment
  import opened Wrappers
  import Ordering

  // ---------------------------------------------------------------- versions without a series

  lemma ThreeTwoZero()
    ensures Make("3.2.0") == Some(Semver(3, 2, 0, []))
  {
    FcvRoundTrip(3, 2);
    assert Digits(3) == "3" && Digits(2) == "2";
    assert FormatFcv(3, 2) + ".0" == "3.2.0";
  }

  /** A version that was released before 3.4, and one that is no version at all. */
  lemma UnsupportedVersions()
    ensures !IsSupported("3.2.0") && !IsSupported("latest")
  {
    ThreeTwoZero();
    assert '.' !in "latest";
    NoDotNoVersion("latest");
  }

  lemma NoDotNoVersion(s: string)
    requires '.' !in s
    ensures Make(s).None?
  {
    assert IndexOf(s, '.') == |s|;
  }

  /** A pass without an FCV and with one of them publishes once; after that every pass without an FCV fails. */
  lemma UnsupportedPublishesOnce(first: Pass, later: seq<Pass>)
    requires first.settings.mongodbVersion == "3.2.0" || first.settings.mongodbVersion == "latest"
    requires first.fcv == "" && first.settings.members > 0
    requires !first.faults.read && !first.faults.write
    requires forall i :: 0 <= i < |later| ==> later[i].fcv == ""
    ensures PublishesFcv(AfterPasses([first]), "") && AfterPasses([first] + later) == AfterPasses([first])
  {
    UnsupportedVersions();
    SupportedExactly(first.settings.mongodbVersion);
    FirstFcv("", first.settings.mongodbVersion);
    assert [first][..0] == [];
    PassPublishesFcv(Missing, first, "");
    assert ([first] + later)[..1] == [first];
    NoFcvIsFinal([first] + later, 1);
  }

  // ---------------------------------------------------------------- an edit of the override only

  lemma MergeWithNothing(ac: AutomationConfig)
    ensures Merge(ac, []) == ac
  {
    assert Merge(ac, []).processes == ac.processes;
  }

  /** An override that turns the first process off, or on again if it is off. */
  function Toggle(ac: AutomationConfig): seq<ProcessOverride>
    requires |ac.processes| > 0
  {
    [ProcessOverride(ac.processes[0].name, !ac.processes[0].disabled, None)]
  }

  lemma ToggleChanges(ac: AutomationConfig)
    requires |ac.processes| > 0
    ensures Merge(ac, Toggle(ac)) != ac
  {
    var o, first := Toggle(ac), ac.processes[0];
    assert IndexByName(ac.processes, first.name) == Some(0);
    assert LastOverride(o, first.name) == Some(OverrideToProcess(o[0]));
    assert Merge(ac, o).processes[0].disabled != first.disabled;
  }

  /** A pass that writes nothing, without an override, has built just what is stored. */
  lemma IdlePassBuildsStored(ac: AutomationConfig, p: Pass)
    requires p.overrides == [] && Publish(Stored(ac), p).result.Ok? && Publish(Stored(ac), p).secret == Stored(ac)
    ensures BuildSpec(p.settings, p.modifications, p.fcv, [], ac) == Ok(ac)
  {
    PublishSucceedsWhenBuilt(ac, p);
    var built := BuildSpec(p.settings, p.modifications, p.fcv, [], ac).value;
    MergeWithNothing(built);
    PublishStores(ac, p, built);
    BuiltSkeleton(p.settings, p.modifications, p.fcv, [], ac);
  }

  /** The same pass with the override stores other contents under the same version. */
  lemma ToggledPassIsSilent(ac: AutomationConfig, p: Pass)
    requires |ac.processes| > 0 && BuildSpec(p.settings, p.modifications, p.fcv, [], ac) == Ok(ac)
    requires p.overrides == Toggle(ac) && !p.faults.read && !p.faults.write
    ensures var e := Publish(Stored(ac), p); e.secret.Stored? && e.secret.ac.version == ac.version && e.secret.ac != ac
  {
    ToggleChanges(ac);
    SilentChangeExactly(Stored(ac), p);
    PublishStores(ac, p, ac);
  }

  lemma NoOverrideInPass(m: ValidResource, ac: AutomationConfig, pods: Pods)
    ensures PassFor(m, ac, pods, NO_FAULTS.acStore).overrides == m.spec.overrides
  {
  }

  lemma QuietPassBuildsStored(m: ValidResource, ac: AutomationConfig, pods: Pods)
    requires Quiet(m, Stored(ac)) && m.spec.overrides == [] && PortInputsReadable(m, pods)
    ensures var p := PassFor(m, ac, pods, NO_FAULTS.acStore);
            BuildSpec(p.settings, p.modifications, p.fcv, [], ac) == Ok(ac)
  {
    PublicationIsIdle(m, ac, pods);
    UndisturbedPublishes(m, ac, Round(pods, NO_FAULTS));
    NoOverrideInPass(m, ac, pods);
    IdlePassBuildsStored(ac, PassFor(m, ac, pods, NO_FAULTS.acStore));
  }

  lemma OverrideIsOnlyInPass(m: ValidResource, ac: AutomationConfig, pods: Pods, overrides: seq<ProcessOverride>)
    ensures var edited: ValidResource := m.(spec := m.spec.(overrides := overrides));
            PassFor(edited, ac, pods, NO_FAULTS.acStore) == PassFor(m, ac, pods, NO_FAULTS.acStore).(overrides := overrides)
  {
  }

  lemma EditedPass(m: ValidResource, ac: AutomationConfig, pods: Pods, overrides: seq<ProcessOverride>)
    requires PortInputsReadable(m, pods)
    ensures var edited: ValidResource := m.(spec := m.spec.(overrides := overrides));
            EnsureAutomationConfig(edited, Stored(ac), pods, NO_FAULTS)
            == Publish(Stored(ac), PassFor(m, ac, pods, NO_FAULTS.acStore).(overrides := overrides))
  {
    OverrideIsOnlyInPass(m, ac, pods, overrides);
  }

  lemma OverrideEditIsSilentPublication(m: ValidResource, ac: AutomationConfig, pods: Pods)
    requires Quiet(m, Stored(ac)) && m.spec.overrides == [] && PortInputsReadable(m, pods) && |ac.processes| > 0
    ensures var edited: ValidResource := m.(spec := m.spec.(overrides := Toggle(ac)));
            var e := EnsureAutomationConfig(edited, Stored(ac), pods, NO_FAULTS);
            e.secret.Stored? && e.secret.ac.version == ac.version && e.secret.ac != ac
  {
    QuietPassBuildsStored(m, ac, pods);
    EditedPass(m, ac, pods, Toggle(ac));
    ToggledPassIsSilent(ac, PassFor(m, ac, pods, NO_FAULTS.acStore).(overrides := Toggle(ac)));
  }

  /** A new resource without an override is deployed, and gets one then: the next reconcile changes the config silently. */
  lemma OverrideEditIsSilent(c: Cluster)
    requires New(c) && c.mdb.spec.overrides == []
    ensures var d := After(c, Deployment(c));
            && d.world.secret.Stored? && |d.world.secret.ac.processes| > 0
            && var e := After(c, Deployment(c) + [Edit(c.mdb.spec.(overrides := Toggle(d.world.secret.ac)))] + [RECONCILE]);
               e.world.secret.Stored? && e.world.secret.ac.version == d.world.secret.ac.version
               && e.world.secret.ac != d.world.secret.ac
  {
    var d := After(c, Deployment(c));
    DeploymentSettles(c);
    PortCount(d.mdb, d.world.secret.ac);
    var edit := Edit(c.mdb.spec.(overrides := Toggle(d.world.secret.ac)));
    AfterOneMore(c, Deployment(c), edit);
    AfterOneMore(c, Deployment(c) + [edit], RECONCILE);
    HealthyEditPublishes(d, c.mdb.spec.members, Toggle(d.world.secret.ac));
    PodsAtAreReadable(d.mdb, d.mdb.spec.members, d.world.secret.ac.version);
    OverrideEditIsSilentPublication(d.mdb, d.world.secret.ac, d.world.pods);
  }

  lemma HealthyEditPublishes(d: Cluster, n: nat, overrides: seq<ProcessOverride>)
    requires Healthy(d, n)
    ensures var e := Step(d, Edit(d.mdb.spec.(overrides := overrides)));
            ValidCounts(e.mdb.spec) && Reconcile(e, NO_FAULTS).world.secret
                                       == EnsureAutomationConfig(e.mdb, d.world.secret, d.world.pods, NO_FAULTS).secret
  {
    var e := Step(d, Edit(d.mdb.spec.(overrides := overrides)));
    Ordering.ReconcilePublishesExactly(e, NO_FAULTS);
    SettledReconcilesPublish(e, NO_FAULTS);
  }

  // ---------------------------------------------------------------- ids and votes

  /** With 101 members and an arbiter the 101st member has the id of the arbiter. */
  lemma HundredMembersAndAnArbiter(s: Settings)
    requires s.members == 101 && s.arbiters == 1
    ensures MemberAt(s, 100).id == MemberAt(s, 101).id && MemberAt(s, 100).host != MemberAt(s, 101).host
  {
    ArbiterNamesDiffer(s.name, 0, 100);
  }

  /** Nine members and eight arbiters have eight votes, one more than the servers allow. */
  lemma EightArbitersVote(s: Settings)
    requires s.members == 9 && s.arbiters == 8 && s.memberOptions == []
    ensures TotalVotes(Members(s)) == 8
  {
    CountVotes(s, 17);
    assert Members(s)[..17] == Members(s);
  }
}
