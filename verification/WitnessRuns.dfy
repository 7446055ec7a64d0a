/** Runs of a cluster, from a resource that was just created, into the states in which the ordering fails. */
module WitnessRuns {
  import opened AgentReadiness
  import opened Config
  import opened ConfigBuilder
  import opened ConfigBuilderProperties
  import opened ConfigStore
  import opened ConfigStoreProperties
  import opened Controller
  import opened Functions
  import opened Ordering
  import opened Placement
  import opened PortProgress
  import opened PortProperties
  import opened Resource
  import opened Runs
  import opened WitnessDeployment
  import opened Wrappers
  import PortService

  /** At some moment of the next reconcile a published member has no place. */
  ghost predicate Misplaces(c: Cluster) {
    !(forall f: Faults, k :: 0 <= k < 4 ==> PlacedAt(Moments(c, f)[k]))
  }

  /** The first and the last but one of n pods. */
  lemma LastPodIsMissing(name: string, n: nat, k: nat, version: int)
    requires 0 < k < n
    ensures SomePodsMissing(PodsAt(name, k, version), name, n)
  {
    PodsAtNames(name, k, version, 0);
    PodsAtNames(name, k, version, n - 1);
  }

  // ---------------------------------------------------------------- raising the members during the first deployment

  /** The first of three pods runs, and the spec is corrected to five members. */
  function RaiseRun(c: Cluster): seq<Event>
    requires New(c)
  {
    [RECONCILE] + [PodsRun(After(c, [RECONCILE]), 1, 1)] + [Edit(c.mdb.spec.(members := 5))]
  }

  lemma RaiseRunEnds(c: Cluster)
    requires New(c) && c.mdb.spec.members == 3
    ensures var events := [RECONCILE] + [PodsRun(After(c, [RECONCILE]), 1, 1)];
            var before := After(c, events);
            && Ordered(before.mdb, before.world) && WellNamed(before.world.secret, c.mdb.name) && before.mdb == c.mdb
            && before.mdb.status.stsMembers == 0 && before.world.sts.Some? && Replicas(before.world) == 3
            && SomePodsMissing(before.world.pods, c.mdb.name, 5) && before.world.secret.Stored?
            && After(c, RaiseRun(c)) == Step(before, Edit(c.mdb.spec.(members := 5)))
    ensures PlausibleRun(c, RaiseRun(c))
  {
    var events := [RECONCILE] + [PodsRun(After(c, [RECONCILE]), 1, 1)];
    PodsRunAfterCreation(c, 1);
    RunKeepsOrder(c, events);
    RunKeepsNames(c, events);
    LastPodIsMissing(c.mdb.name, 5, 1, After(c, events).world.secret.ac.version);
    AfterOneMore(c, events, Edit(c.mdb.spec.(members := 5)));
    EditStaysPlausible(After(c, events), c.mdb.spec.(members := 5));
    PlausibleOneMore(c, events, Edit(c.mdb.spec.(members := 5)));
  }

  lemma EditStaysPlausible(c: Cluster, spec: Spec)
    requires Plausible(c)
    ensures Plausible(Step(c, Edit(spec)))
  {
  }

  /** The next reconcile publishes five members for a stateful set of three, and no number of reconciles finishes. */
  lemma RaisingDuringDeploymentIsStuck(c: Cluster, events: seq<Event>)
    requires New(c) && c.mdb.spec.members == 3 && NobodyHelps(events, c.mdb.name, 5)
    ensures var d := After(c, RaiseRun(c));
            && PlausibleRun(c, RaiseRun(c)) && Misplaces(d)
            && Replicas(After(d, events).world) == 3 && !After(d, events).mdb.status.phase.Running?
  {
    var before := After(c, [RECONCILE] + [PodsRun(After(c, [RECONCILE]), 1, 1)]);
    var spec := c.mdb.spec.(members := 5);
    RaiseRunEnds(c);
    EditNeverFinishes(before, spec, events);
    RaisedIsPublishable(c, before);
    EditIsUnsafeExactly(before, spec);
    EditIsSafeExactly(before, spec);
  }

  lemma RaisedIsPublishable(c: Cluster, before: Cluster)
    requires New(c) && c.mdb.spec.members == 3
    requires before == After(c, [RECONCILE] + [PodsRun(After(c, [RECONCILE]), 1, 1)])
    ensures var d := Step(before, Edit(c.mdb.spec.(members := 5))); Publishable(d.mdb, d.world)
  {
    PodsRunAfterCreation(c, 1);
    var d := Step(before, Edit(c.mdb.spec.(members := 5)));
    PodsAtAreReadable(d.mdb, 1, before.world.secret.ac.version);
    GivenFcvIsPublishable(d.mdb, d.world);
  }

  // ---------------------------------------------------------------- removing members while adding arbiters

  /** Three members are deployed, and edited to two members and an arbiter: the next reconcile is unsafe. */
  lemma ShrinkingWhileAddingArbiters(c: Cluster)
    requires New(c) && c.mdb.spec.members == 3
    ensures var run := Deployment(c) + [Edit(c.mdb.spec.(members := 2, arbiters := 1))];
            PlausibleRun(c, run) && Misplaces(After(c, run))
  {
    var spec := c.mdb.spec.(members := 2, arbiters := 1);
    DeploymentSettles(c);
    DeployedIsOrdered(c);
    AfterOneMore(c, Deployment(c), Edit(spec));
    EditStaysPlausible(After(c, Deployment(c)), spec);
    PlausibleOneMore(c, Deployment(c), Edit(spec));
    SettledEditIsSafeExactly(After(c, Deployment(c)), spec);
  }

  // ---------------------------------------------------------------- back during a shrink

  /** A cluster that was healthy with three members and is to have two: its config may list three or two. */
  ghost predicate Shrinking(c: Cluster) {
    && Deployable(c.mdb.spec) && c.mdb.spec.members == 2 && AimsAtSpec(c.mdb)
    && c.mdb.status == Status(3, 3, 0, 0, c.mdb.status.phase) && c.mdb.lastVersion == c.mdb.spec.version
    && c.world.secret.Stored? && PortService.AllAre(Ports(c.world.secret.ac), ExpectedPort(c.mdb.spec))
    && c.world.sts == Some(StatefulSet(3, 1, 1, 3, 3, false, true))
    && c.world.pods == PodsAt(c.mdb.name, 3, c.world.secret.ac.version)
  }

  lemma EditedIsShrinking(c: Cluster)
    requires Healthy(c, 3)
    ensures Shrinking(Step(c, Edit(c.mdb.spec.(members := 2))))
  {
  }

  /** A build with other counts than the stored config has the next version. */
  lemma OtherCountsBumpVersion(m: ValidResource, ac: AutomationConfig, pods: Pods)
    requires EnsureAutomationConfig(m, Stored(ac), pods, NO_FAULTS).result.Ok?
    requires |ac.processes| != AutomationConfigMembersThisReconciliation(m) + ConfiguredArbiters(m)
    ensures EnsureAutomationConfig(m, Stored(ac), pods, NO_FAULTS).result.value.version == ac.version + 1
  {
    PassBumpsVersionOnOtherCounts(ac, PassFor(m, ac, pods, NO_FAULTS.acStore));
  }

  lemma PassBumpsVersionOnOtherCounts(ac: AutomationConfig, p: Pass)
    requires Publish(Stored(ac), p).result.Ok? && |ac.processes| != p.settings.members + p.settings.arbiters
    ensures Publish(Stored(ac), p).result.value.version == ac.version + 1
  {
    PublishSucceedsWhenBuilt(ac, p);
    var built := BuildSpec(p.settings, p.modifications, p.fcv, [], ac).value;
    BuiltSkeleton(p.settings, p.modifications, p.fcv, [], ac);
    assert |built.processes| == |ProcessNames(built.processes)|;
    PublishStores(ac, p, built);
    MergeKeeps(built, p.overrides);
    DifferentSizes(ac, built);
    DifferentSizes(Merge(built, p.overrides), ac);
  }

  lemma DifferentSizes(a: AutomationConfig, b: AutomationConfig)
    requires |a.processes| != |b.processes|
    ensures !AreEqual(a, b)
  {
  }

  /** The same resource, but for the phase. */
  function Waiting(m: Resource): Resource {
    m.(status := m.status.(phase := Pending))
  }

  /** The end of a reconcile whose stages have to wait. */
  lemma WaitingReconcile(c: Cluster, v: World)
    requires ValidCounts(c.mdb.spec) && SecondStage(c.mdb, c.world, NO_FAULTS) == (v, NotReady)
    ensures Reconcile(c, NO_FAULTS) == Cluster(Waiting(c.mdb), v)
  {
    StagesOfReconcile(c.mdb, c.world, NO_FAULTS);
  }

  lemma ShrinkPublication(m: ValidResource, w: World)
    requires Shrinking(Cluster(m, w)) && |w.secret.ac.processes| == 3
    ensures var e := EnsureAutomationConfig(m, w.secret, w.pods, NO_FAULTS);
            && Quiet(m, e.secret) && e.result == Ok(e.secret.ac) && e.secret.ac.version == w.secret.ac.version + 1
            && AgentsOutcome(m, w.pods, e.secret.ac.version) == NotReady
  {
    var v := w.secret.ac.version;
    PodsAtAreReadable(m, 3, v);
    PublicationIsQuiet(m, w.secret, w.pods);
    OtherCountsBumpVersion(m, w.secret.ac, w.pods);
    PodsAtOutcome(m, 3, v, v + 1);
  }

  /** First the config with two members is published; the agents have not seen it yet. */
  lemma ShrinkPublishes(c: Cluster)
    requires Shrinking(c) && |c.world.secret.ac.processes| == 3
    ensures var d := Reconcile(c, NO_FAULTS);
            && d == Cluster(Waiting(c.mdb), c.world.(secret := d.world.secret))
            && Quiet(c.mdb, d.world.secret) && d.world.secret.ac.version == c.world.secret.ac.version + 1
  {
    ShrinkPublication(c.mdb, c.world);
    ShrinkingSts(c.mdb, c.world);
    ConfigStageEnds(c.mdb, c.world);
    WaitingReconcile(c, FirstStage(c.mdb, c.world, NO_FAULTS).0);
  }

  /** What a config stage that comes first leaves behind when it has to wait. */
  lemma ConfigStageEnds(m: ValidResource, w: World)
    requires ConfigFirst(m) && !m.spec.tlsEnabled && w.sts.Some? && w.sts.value.readinessProbe
    requires var e := EnsureAutomationConfig(m, w.secret, w.pods, NO_FAULTS);
             e.result.Ok? && AgentsOutcome(m, w.pods, e.result.value.version) == NotReady
    ensures FirstStage(m, w, NO_FAULTS)
            == (w.(secret := EnsureAutomationConfig(m, w.secret, w.pods, NO_FAULTS).secret), NotReady)
  {
  }

  /** Then, with the agents at that version, the stateful set is told to run two. */
  lemma ShrinkHappens(c: Cluster)
    requires Shrinking(c) && Quiet(c.mdb, c.world.secret)
    ensures var d := Reconcile(c, NO_FAULTS);
            && d == Cluster(Waiting(c.mdb),
                            c.world.(sts := Some(StatefulSet(2, 2, 1, 3, 3, false, true)), arbiterSts := d.world.arbiterSts))
  {
    var m: ValidResource := c.mdb;
    IdleConfigStage(m, c.world, 3);
    ShrinkingSts(m, c.world);
    StagesOfReconcile(m, c.world, NO_FAULTS);
  }

  lemma ShrinkingSts(m: ValidResource, w: World)
    requires Shrinking(Cluster(m, w))
    ensures ConfigFirst(m)
    ensures var (u, outcome) := DeployStatefulSet(m, w, NO_FAULTS);
            && outcome == NotReady
            && u == w.(sts := Some(StatefulSet(2, 2, 1, 3, 3, false, true)), arbiterSts := u.arbiterSts)
  {
  }

  /** The config with two members is published. */
  function ShrinkPublished(c: Cluster): seq<Event>
    requires New(c)
  {
    Deployment(c) + [Edit(c.mdb.spec.(members := 2))] + [RECONCILE]
  }

  /** The agents follow, and the stateful set is told to run two. */
  function Shrunk(c: Cluster): seq<Event>
    requires New(c)
  {
    ShrinkPublished(c) + [PodsRun(After(c, ShrinkPublished(c)), 1, 3)] + [RECONCILE]
  }

  /** It does, and the spec goes back to three. */
  function BackRun(c: Cluster): seq<Event>
    requires New(c)
  {
    Shrunk(c) + [PodsRun(After(c, Shrunk(c)), 2, 2)] + [Edit(c.mdb.spec)]
  }

  lemma ShrinkPublishedRun(c: Cluster)
    requires New(c) && c.mdb.spec.members == 3
    ensures var d := After(c, ShrinkPublished(c));
            && Quiet(d.mdb, d.world.secret) && d.mdb.spec == c.mdb.spec.(members := 2) && d.mdb.name == c.mdb.name
            && Shrinking(Step(d, PodsRun(d, 1, 3)))
    ensures Possible(c, ShrinkPublished(c))
  {
    var edit := Edit(c.mdb.spec.(members := 2));
    DeploymentSettles(c);
    var healthy := After(c, Deployment(c));
    AfterOneMore(c, Deployment(c), edit);
    EditedIsShrinking(healthy);
    HealthyHasItsProcesses(healthy, 3);
    HealthyIsPlausible(healthy, 3);
    EditStaysPlausible(healthy, edit.spec);
    PossibleOneMore(c, Deployment(c), edit);
    var edited := Step(healthy, edit);
    ShrinkPublishes(edited);
    AfterOneMore(c, Deployment(c) + [edit], RECONCILE);
    NextVersionIsPlausible(edited, Reconcile(edited, NO_FAULTS));
    PossibleOneMore(c, Deployment(c) + [edit], RECONCILE);
    PublishedKeepsShrinking(edited, Reconcile(edited, NO_FAULTS));
  }

  lemma HealthyHasItsProcesses(c: Cluster, n: nat)
    requires Healthy(c, n)
    ensures |c.world.secret.ac.processes| == n
  {
    PortCount(c.mdb, c.world.secret.ac);
  }

  /** A new version of the config is no reason for agents to have reported it. */
  lemma NextVersionIsPlausible(c: Cluster, d: Cluster)
    requires Plausible(c) && c.world.secret.Stored? && d.world.secret.Stored? && d.mdb.name == c.mdb.name
    requires d.world == c.world.(secret := d.world.secret) && c.world.secret.ac.version <= d.world.secret.ac.version
    ensures Plausible(d)
  {
  }

  lemma PublishedKeepsShrinking(c: Cluster, d: Cluster)
    requires Shrinking(c) && Quiet(c.mdb, d.world.secret)
    requires d == Cluster(Waiting(c.mdb), c.world.(secret := d.world.secret))
    ensures Quiet(d.mdb, d.world.secret) && Shrinking(Step(d, PodsRun(d, 1, 3)))
  {
    InUseDependsOnRequest(c.mdb, d.mdb, d.world.secret.ac);
  }

  lemma ShrunkRun(c: Cluster)
    requires New(c) && c.mdb.spec.members == 3
    ensures var d := After(c, Shrunk(c));
            && d.mdb.spec == c.mdb.spec.(members := 2) && d.mdb.name == c.mdb.name
               && d.mdb.lastVersion == c.mdb.spec.version
            && d.mdb.status == Status(3, 3, 0, 0, Pending) && d.world.secret.Stored?
            && d.world.sts == Some(StatefulSet(2, 2, 1, 3, 3, false, true))
    ensures Possible(c, Shrunk(c))
  {
    var p := After(c, ShrinkPublished(c));
    var env := PodsRun(p, 1, 3);
    ShrinkPublishedRun(c);
    AfterOneMore(c, ShrinkPublished(c), env);
    PodsArePlausible(p, 1, 3);
    PossibleOneMore(c, ShrinkPublished(c), env);
    var q := Step(p, env);
    ShrinkHappens(q);
    AfterOneMore(c, ShrinkPublished(c) + [env], RECONCILE);
    NextStsIsPlausible(q, Reconcile(q, NO_FAULTS));
    PossibleOneMore(c, ShrinkPublished(c) + [env], RECONCILE);
  }

  /** Telling the stateful set something new does not change what it has reported. */
  lemma NextStsIsPlausible(c: Cluster, d: Cluster)
    requires Plausible(c) && c.world.sts.Some? && d.world.sts.Some? && d.mdb.name == c.mdb.name
    requires d.world.secret == c.world.secret && d.world.pods == c.world.pods
    requires var s, t := c.world.sts.value, d.world.sts.value;
             s.generation <= t.generation && t.observedGeneration == s.observedGeneration
             && t.updatedReplicas == s.updatedReplicas && t.readyReplicas == s.readyReplicas
    ensures Plausible(d)
  {
  }

  lemma BackIsAhead(s: Cluster, spec: Spec)
    requires Deployable(spec) && spec.members == 3 && s.mdb.lastVersion == spec.version
    requires s.mdb.status == Status(3, 3, 0, 0, Pending) && s.world.secret.Stored?
    requires s.world.sts.Some? && s.world.sts.value.replicas == 2
    ensures var before := Step(s, PodsRun(s, 2, 2));
            && ConfigRunsAhead(before, spec) && SomePodsMissing(before.world.pods, s.mdb.name, 3)
            && Replicas(before.world) == 2 && before.mdb == s.mdb
  {
    LastPodIsMissing(s.mdb.name, 3, 2, s.world.secret.ac.version);
  }

  lemma BackRunEnds(c: Cluster)
    requires New(c) && c.mdb.spec.members == 3
    ensures var events := Shrunk(c) + [PodsRun(After(c, Shrunk(c)), 2, 2)];
            var before := After(c, events);
            && Ordered(before.mdb, before.world) && ConfigRunsAhead(before, c.mdb.spec)
            && SomePodsMissing(before.world.pods, c.mdb.name, 3) && before.mdb.name == c.mdb.name
            && before.mdb.status.phase.Pending? && Replicas(before.world) == 2
            && After(c, BackRun(c)) == Step(before, Edit(c.mdb.spec))
    ensures PlausibleRun(c, BackRun(c))
  {
    var s := After(c, Shrunk(c));
    var env := PodsRun(s, 2, 2);
    ShrunkRun(c);
    AfterOneMore(c, Shrunk(c), env);
    PodsArePlausible(s, 2, 2);
    PossibleOneMore(c, Shrunk(c), env);
    RunKeepsOrder(c, Shrunk(c) + [env]);
    BackIsAhead(s, c.mdb.spec);
    AfterOneMore(c, Shrunk(c) + [env], Edit(c.mdb.spec));
    EditStaysPlausible(Step(s, env), c.mdb.spec);
    PlausibleOneMore(c, Shrunk(c) + [env], Edit(c.mdb.spec));
  }

  /** That run ends in a cluster which no number of reconciles finishes. */
  lemma BackDuringShrinkIsStuck(c: Cluster, events: seq<Event>)
    requires New(c) && c.mdb.spec.members == 3 && NobodyHelps(events, c.mdb.name, 3)
    ensures var d := After(c, BackRun(c));
            && PlausibleRun(c, BackRun(c))
            && Replicas(After(d, events).world) == 2 && !After(d, events).mdb.status.phase.Running?
  {
    BackRunEnds(c);
    EditNeverFinishes(After(c, Shrunk(c) + [PodsRun(After(c, Shrunk(c)), 2, 2)]), c.mdb.spec, events);
  }

  // ---------------------------------------------------------------- back during a growth, with another version

  /** A cluster that grows from three to four members, before and after its stateful set; the config still lists three. */
  ghost predicate Growing(c: Cluster) {
    && Deployable(c.mdb.spec) && c.mdb.spec.members == 4 && AimsAtSpec(c.mdb)
    && c.mdb.status == Status(3, 3, 0, 0, c.mdb.status.phase) && c.mdb.lastVersion == c.mdb.spec.version
    && c.world.secret.Stored? && |c.world.secret.ac.processes| == 3
    && PortService.AllAre(Ports(c.world.secret.ac), ExpectedPort(c.mdb.spec))
  }

  lemma EditedIsGrowing(c: Cluster)
    requires Healthy(c, 3)
    ensures Growing(Step(c, Edit(c.mdb.spec.(members := 4))))
  {
    HealthyHasItsProcesses(c, 3);
  }

  lemma GrowingSts(m: ValidResource, w: World)
    requires Growing(Cluster(m, w)) && w.sts == Some(StatefulSet(3, 1, 1, 3, 3, false, true))
    ensures !ConfigFirst(m)
    ensures var (u, outcome) := DeployStatefulSet(m, w, NO_FAULTS);
            && outcome == NotReady
            && u == w.(sts := Some(StatefulSet(4, 2, 1, 3, 3, false, true)), arbiterSts := u.arbiterSts)
  {
  }

  lemma GrowthStartsWithSts(c: Cluster)
    requires Growing(c) && c.world.sts == Some(StatefulSet(3, 1, 1, 3, 3, false, true))
    ensures var d := Reconcile(c, NO_FAULTS);
            && d == Cluster(Waiting(c.mdb),
                            c.world.(sts := Some(StatefulSet(4, 2, 1, 3, 3, false, true)), arbiterSts := d.world.arbiterSts))
  {
    GrowingSts(c.mdb, c.world);
    StagesOfReconcile(c.mdb, c.world, NO_FAULTS);
  }

  lemma GrownPublication(m: ValidResource, u: World)
    requires Growing(Cluster(m, u)) && u.pods == PodsAt(m.name, 4, u.secret.ac.version)
    ensures var e := EnsureAutomationConfig(m, u.secret, u.pods, NO_FAULTS);
            && e.result.Ok? && e.secret == Stored(e.result.value) && e.result.value.version == u.secret.ac.version + 1
            && DataMembers(e.secret) == 4 && AgentsOutcome(m, u.pods, e.result.value.version) == NotReady
  {
    PodsAtAreReadable(m, 4, u.secret.ac.version);
    GivenFcvIsPublishable(m, u);
    PublishesTarget(m, u.secret, u.pods, NO_FAULTS);
    OtherCountsBumpVersion(m, u.secret.ac, u.pods);
    PodsAtOutcome(m, 4, u.secret.ac.version, u.secret.ac.version + 1);
  }

  /** With four ready replicas the config with four members is published; the agents have not seen it yet. */
  lemma GrowthPublishes(c: Cluster)
    requires Growing(c) && c.world.sts == Some(StatefulSet(4, 2, 2, 4, 4, false, true))
    requires c.world.pods == PodsAt(c.mdb.name, 4, c.world.secret.ac.version)
    ensures var d := Reconcile(c, NO_FAULTS);
            && d.mdb == Waiting(c.mdb) && d.world.sts == c.world.sts && d.world.pods == c.world.pods
            && d.world.secret.Stored? && d.world.secret.ac.version == c.world.secret.ac.version + 1
            && DataMembers(d.world.secret) == 4
  {
    GrownSts(c.mdb, c.world);
    var u := DeployStatefulSet(c.mdb, c.world, NO_FAULTS).0;
    GrownPublication(c.mdb, u);
    SecondConfigStageEnds(c.mdb, c.world, u);
    StagesOfReconcile(c.mdb, c.world, NO_FAULTS);
  }

  lemma GrownSts(m: ValidResource, w: World)
    requires Growing(Cluster(m, w)) && w.sts == Some(StatefulSet(4, 2, 2, 4, 4, false, true))
    ensures !ConfigFirst(m)
    ensures var (u, outcome) := DeployStatefulSet(m, w, NO_FAULTS);
            outcome == Ready && u == w.(arbiterSts := u.arbiterSts)
  {
    ReadySts(m, w);
  }

  lemma SecondConfigStageEnds(m: ValidResource, w: World, u: World)
    requires !ConfigFirst(m) && !m.spec.tlsEnabled && DeployStatefulSet(m, w, NO_FAULTS) == (u, Ready)
    requires u.sts.Some? && u.sts.value.readinessProbe
    requires var e := EnsureAutomationConfig(m, u.secret, u.pods, NO_FAULTS);
             e.result.Ok? && AgentsOutcome(m, u.pods, e.result.value.version) == NotReady
    ensures SecondStage(m, w, NO_FAULTS)
            == (u.(secret := EnsureAutomationConfig(m, u.secret, u.pods, NO_FAULTS).secret), NotReady)
  {
  }

  /** The stateful set is told to run four. */
  function GrowthStarted(c: Cluster): seq<Event>
    requires New(c)
  {
    Deployment(c) + [Edit(c.mdb.spec.(members := 4))] + [RECONCILE]
  }

  /** It does, and the config with four members is published. */
  function Growth(c: Cluster): seq<Event>
    requires New(c)
  {
    GrowthStarted(c) + [PodsRun(After(c, GrowthStarted(c)), 2, 4)] + [RECONCILE]
  }

  lemma GrowthStartedRun(c: Cluster)
    requires New(c) && c.mdb.spec.members == 3
    ensures var d := After(c, GrowthStarted(c));
            && Growing(d) && d.mdb.spec == c.mdb.spec.(members := 4) && d.mdb.name == c.mdb.name
            && d.world.sts == Some(StatefulSet(4, 2, 1, 3, 3, false, true))
    ensures Possible(c, GrowthStarted(c))
  {
    var edit := Edit(c.mdb.spec.(members := 4));
    DeploymentSettles(c);
    var healthy := After(c, Deployment(c));
    AfterOneMore(c, Deployment(c), edit);
    EditedIsGrowing(healthy);
    HealthyIsPlausible(healthy, 3);
    EditStaysPlausible(healthy, edit.spec);
    PossibleOneMore(c, Deployment(c), edit);
    var edited := Step(healthy, edit);
    GrowthStartsWithSts(edited);
    AfterOneMore(c, Deployment(c) + [edit], RECONCILE);
    NextStsIsPlausible(edited, Reconcile(edited, NO_FAULTS));
    PossibleOneMore(c, Deployment(c) + [edit], RECONCILE);
  }

  lemma GrowthRun(c: Cluster)
    requires New(c) && c.mdb.spec.members == 3
    ensures var d := After(c, Growth(c));
            && d.mdb.spec == c.mdb.spec.(members := 4) && d.mdb.name == c.mdb.name
               && d.mdb.lastVersion == c.mdb.spec.version
            && d.mdb.status == Status(3, 3, 0, 0, Pending) && DataMembers(d.world.secret) == 4
    ensures Possible(c, Growth(c))
  {
    var s := After(c, GrowthStarted(c));
    var env := PodsRun(s, 2, 4);
    GrowthStartedRun(c);
    AfterOneMore(c, GrowthStarted(c), env);
    PodsArePlausible(s, 2, 4);
    PossibleOneMore(c, GrowthStarted(c), env);
    var q := Step(s, env);
    GrowthPublishes(q);
    AfterOneMore(c, GrowthStarted(c) + [env], RECONCILE);
    GrownIsPlausible(q, Reconcile(q, NO_FAULTS));
    PossibleOneMore(c, GrowthStarted(c) + [env], RECONCILE);
  }

  lemma GrownIsPlausible(c: Cluster, d: Cluster)
    requires Plausible(c) && c.world.secret.Stored? && d.world.secret.Stored? && d.mdb.name == c.mdb.name
    requires d.world.sts == c.world.sts && d.world.pods == c.world.pods
    requires c.world.secret.ac.version <= d.world.secret.ac.version
    ensures Plausible(d)
  {
  }

  /**
   * Config and stateful set are at four members, and the spec is edited back to three together with another version: the
   * next reconcile shrinks the stateful set first, under a config that still lists four members.
   */
  lemma BackDuringGrowthIsUnsafe(c: Cluster, version: string)
    requires New(c) && c.mdb.spec.members == 3 && version != c.mdb.spec.version
    ensures var run := Growth(c) + [Edit(c.mdb.spec.(version := version))];
            PlausibleRun(c, run) && Misplaces(After(c, run))
  {
    var spec := c.mdb.spec.(version := version);
    var d := After(c, Growth(c));
    GrowthRun(c);
    RunKeepsOrder(c, Growth(c));
    RunKeepsNames(c, Growth(c));
    AfterOneMore(c, Growth(c), Edit(spec));
    EditStaysPlausible(d, spec);
    PlausibleOneMore(c, Growth(c), Edit(spec));
    EditIsUnsafeExactly(d, spec);
    EditIsSafeExactly(d, spec);
  }
}
