/** The first deployment of a replica set, step by step, through clusters as one read of the API server can show them. */
module WitnessDeployment {
  import opened AgentReadiness
  import opened Config
  import opened ConfigBuilder
  import opened ConfigStore
  import opened ConfigStoreProperties
  import opened Controller
  import opened Functions
  import opened Names
  import opened Ordering
  import opened Placement
  import opened PortManager
  import opened PortProgress
  import opened PortProperties
  import opened PortService
  import opened Resource
  import opened Runs
  import opened Wrappers

  // ---------------------------------------------------------------- pods

  const NO_PODS: Pods := map[]

  /** The first n data-bearing pods, with agents that have reported this version. */
  function PodsAt(name: string, n: nat, version: int): Pods {
    map p | p in AllNames(name, n, 0) :: Found(Pod(Some(version)))
  }

  lemma PodsAtNames(name: string, n: nat, version: int, i: nat)
    ensures ProcessName(name, i, false) in PodsAt(name, n, version) <==> i < n
  {
    NamedExactly(name, n, 0, i, false);
  }

  lemma PodsAtAreReadable(m: ValidResource, n: nat, version: int)
    ensures PortInputsReadable(m, PodsAt(m.name, n, version))
  {
  }

  lemma PodsAtState(name: string, n: nat, version: int, k: nat, target: int, i: nat)
    requires i < k <= n
    ensures var s := PodStates(PodsAt(name, n, version), name, k, 0, target)[i];
            s.found && (s.reachedGoalState <==> version == target)
  {
    PodsAtNames(name, n, version, i);
  }

  /** The operator waits for the agents exactly if they have reported another version than the stored one. */
  lemma PodsAtOutcome(m: ValidResource, n: nat, version: int, target: int)
    requires 0 < StatefulSetReplicasThisReconciliation(m) <= n
    ensures AgentsOutcome(m, PodsAt(m.name, n, version), target) == if version == target then Ready else NotReady
  {
    var k := StatefulSetReplicasThisReconciliation(m);
    forall i: nat | i < k
      ensures var s := PodStates(PodsAt(m.name, n, version), m.name, k, 0, target)[i];
              s.found && (s.reachedGoalState <==> version == target)
    {
      PodsAtState(m.name, n, version, k, target, i);
    }
    assert PodStates(PodsAt(m.name, n, version), m.name, k, 0, target)[0].found;
  }

  // ---------------------------------------------------------------- what a read can show

  /**
   * Updated and ready replicas have pods, the observed generation is one there has been, and agents report versions that
   * were published.
   */
  predicate Plausible(c: Cluster) {
    && (c.world.sts.Some? ==>
          var sts := c.world.sts.value;
          && sts.observedGeneration <= sts.generation
          && PodsExist(c.world.pods, c.mdb.name, sts.updatedReplicas)
             && PodsExist(c.world.pods, c.mdb.name, sts.readyReplicas))
    && forall p :: p in c.world.pods && c.world.pods[p].Found? && c.world.pods[p].item.agentVersion.Some? ==>
                     c.world.secret.Stored? && c.world.pods[p].item.agentVersion.value <= c.world.secret.ac.version
  }

  predicate PodsExist(pods: Pods, name: string, n: int) {
    forall i: nat :: i < n ==> ProcessName(name, i, false) in pods && pods[ProcessName(name, i, false)].Found?
  }

  /** All clusters of the run are such. */
  predicate PlausibleRun(c: Cluster, events: seq<Event>) {
    Plausible(After(c, events)) && (events == [] || PlausibleRun(c, events[..|events| - 1]))
  }

  lemma PodsAtArePlausible(c: Cluster, n: nat)
    requires c.world.secret.Stored? && c.world.pods == PodsAt(c.mdb.name, n, c.world.secret.ac.version)
    requires c.world.sts.Some? ==> c.world.sts.value.observedGeneration <= c.world.sts.value.generation
                                   && c.world.sts.value.updatedReplicas <= n && c.world.sts.value.readyReplicas <= n
    ensures Plausible(c)
  {
    forall i: nat | i < n
      ensures ProcessName(c.mdb.name, i, false) in c.world.pods
    {
      PodsAtNames(c.mdb.name, n, c.world.secret.ac.version, i);
    }
  }

  // ---------------------------------------------------------------- publications without a change of ports

  /** A spec that can be built on top of any config and asks for no arbiters. */
  predicate Deployable(spec: Spec) {
    Covered(spec) && GivesFcv(spec) && spec.arbiters == 0 && spec.version != "" && ExpectedPort(spec) != 0
  }

  /** The stored config is what the resource asks for, with every process on the expected port. */
  ghost predicate Quiet(m: Resource, secret: AcSecret) {
    Deployable(m.spec) && secret.Stored? && InUse(m, secret.ac) && AllAre(Ports(secret.ac), ExpectedPort(m.spec))
  }

  lemma MapAtExpected(processes: seq<Process>, expected: int, pods: seq<PodState>)
    requires forall i :: 0 <= i < |processes| ==> processes[i].GetPort() == expected
    ensures var ports := ExpectedPorts(processes, expected, pods); forall n :: n in ports ==> ports[n] == expected
  {
    forall n: string
      ensures CurrentPort(processes, expected, n) == expected
    {
      if IndexByName(processes, n).Some? {
        IndexByNameFirst(processes, n);
      }
    }
  }

  lemma BuiltAtExpected(m: ValidResource, previous: AutomationConfig, pods: Pods)
    requires AimsAtSpec(m) && AllAre(Ports(previous), ExpectedPort(m.spec))
    requires BuildSpec(BuildSettings(m), BuildModifications(m, ProcessPorts(m, previous, pods)), m.spec.fcv, [], previous).Ok?
    ensures AllAre(Ports(BuildSpec(BuildSettings(m), BuildModifications(m, ProcessPorts(m, previous, pods)), m.spec.fcv, [],
                                   previous).value), ExpectedPort(m.spec))
  {
    var ports := ProcessPorts(m, previous, pods);
    var built := BuildSpec(BuildSettings(m), BuildModifications(m, ports), m.spec.fcv, [], previous).value;
    BuiltPorts(m, ports, previous);
    forall i | 0 <= i < |previous.processes|
      ensures previous.processes[i].GetPort() == ExpectedPort(m.spec)
    {
      assert Ports(previous)[i] == ExpectedPort(m.spec);
    }
    MapAtExpected(previous.processes, ExpectedPort(m.spec), StatesOf(m, previous.version, pods));
    PortMapNames(m, previous, pods);
    forall i | 0 <= i < |Ports(built)|
      ensures Ports(built)[i] == ExpectedPort(m.spec)
    {
      assert AllNames(m.name, m.spec.members, m.spec.arbiters)[i] in ports;
    }
  }

  /** A publication of a resource that aims at its spec, on top of nothing or of any config on the expected port. */
  lemma PublicationIsQuiet(m: ValidResource, secret: AcSecret, pods: Pods)
    requires Deployable(m.spec) && AimsAtSpec(m) && PortInputsReadable(m, pods) && !secret.WithoutConfig?
    requires secret.Stored? ==> AllAre(Ports(secret.ac), ExpectedPort(m.spec))
    ensures var e := EnsureAutomationConfig(m, secret, pods, NO_FAULTS);
            Quiet(m, e.secret) && e.result == Ok(e.secret.ac)
  {
    var previous := ReadSpec(secret, false).value;
    var p := PassFor(m, previous, pods, NO_FAULTS.acStore);
    GivenFcvIsPublishable(m, World(secret, None, None, pods));
    PublishesTarget(m, secret, pods, NO_FAULTS);
    PublicationIsInUseExactly(m, secret, pods, NO_FAULTS);
    BuiltAtExpected(m, previous, pods);
    var built := BuildSpec(p.settings, p.modifications, p.fcv, [], previous).value;
    StoredIsDesired(secret, p, built);
    MergeKeeps(built, p.overrides);
  }

  lemma NothingIsPending(m: ValidResource, ac: AutomationConfig)
    requires AllAre(Ports(ac), ExpectedPort(m.spec))
    ensures PendingCount(m, ac) == 0
  {
    CountsAllExactly(Ports(ac), ExpectedPort(m.spec));
  }

  /** Publishing once more writes nothing. */
  lemma PublicationIsIdle(m: ValidResource, ac: AutomationConfig, pods: Pods)
    requires Quiet(m, Stored(ac)) && PortInputsReadable(m, pods)
    ensures var e := EnsureAutomationConfig(m, Stored(ac), pods, NO_FAULTS);
            e.secret == Stored(ac) && e.result == Ok(ac)
  {
    NothingIsPending(m, ac);
    IdleRound(m, ac, Round(pods, NO_FAULTS));
    GivenFcvIsPublishable(m, World(Stored(ac), None, None, pods));
    PublishesTarget(m, Stored(ac), pods, NO_FAULTS);
  }

  /** So the config stage leaves everything alone and is ready, once all agents have reported the version. */
  lemma IdleConfigStage(m: ValidResource, w: World, n: nat)
    requires Quiet(m, w.secret) && w.pods == PodsAt(m.name, n, w.secret.ac.version)
    requires 0 < StatefulSetReplicasThisReconciliation(m) <= n
    ensures DeployAutomationConfig(m, w, NO_FAULTS) == (w, Ready)
  {
    PodsAtAreReadable(m, n, w.secret.ac.version);
    PublicationIsIdle(m, w.secret.ac, w.pods);
    PodsAtOutcome(m, n, w.secret.ac.version, w.secret.ac.version);
  }

  // ---------------------------------------------------------------- the first deployment

  /** The config is published and the stateful set created; nothing of it runs yet. */
  ghost predicate Created(c: Cluster) {
    && Quiet(c.mdb, c.world.secret) && c.mdb.status == Status(0, 0, 0, 0, Pending) && c.mdb.lastVersion == ""
    && c.world.sts.Some? && c.world.sts.value.replicas == c.mdb.spec.members && !c.world.sts.value.onDelete
    && c.world.sts.value.generation == 1 && c.world.sts.value.readinessProbe
  }

  lemma NewResourceAims(m: Resource)
    requires m.status == Status(0, 0, 0, 0, Pending) && m.lastVersion == "" && Deployable(m.spec)
    ensures AimsAtSpec(m) && ConfigFirst(m)
  {
  }

  lemma PublishingComesFirst(m: ValidResource, w: World)
    requires ConfigFirst(m) && !m.spec.tlsEnabled && w.sts.None?
    requires EnsureAutomationConfig(m, w.secret, w.pods, NO_FAULTS).result.Ok?
    ensures FirstStage(m, w, NO_FAULTS)
            == (w.(secret := EnsureAutomationConfig(m, w.secret, w.pods, NO_FAULTS).secret), Ready)
  {
  }

  lemma FirstConfigStage(c: Cluster)
    requires Fresh(c) && Deployable(c.mdb.spec) && c.world.pods == NO_PODS
    ensures var (v, outcome) := FirstStage(c.mdb, c.world, NO_FAULTS);
            ConfigFirst(c.mdb) && outcome == Ready && v == c.world.(secret := v.secret) && Quiet(c.mdb, v.secret)
  {
    NewResourceAims(c.mdb);
    PublicationIsQuiet(c.mdb, Missing, NO_PODS);
    PublishingComesFirst(c.mdb, c.world);
  }

  lemma CreatesSts(m: ValidResource, v: World)
    requires Deployable(m.spec) && m.status == Status(0, 0, 0, 0, Pending) && m.lastVersion == "" && v.sts.None?
    ensures var (u, outcome) := DeployStatefulSet(m, v, NO_FAULTS);
            outcome == NotReady && u == v.(sts := u.sts, arbiterSts := u.arbiterSts)
            && u.sts == Some(StatefulSet(m.spec.members, 1, 0, 0, 0, false, true))
  {
  }

  lemma FirstReconcile(c: Cluster)
    requires Fresh(c) && Deployable(c.mdb.spec) && c.world.pods == NO_PODS
    ensures var d := Reconcile(c, NO_FAULTS);
            && Created(d) && d.mdb == c.mdb && d.world.pods == NO_PODS
            && d.world.sts == Some(StatefulSet(c.mdb.spec.members, 1, 0, 0, 0, false, true))
  {
    FirstConfigStage(c);
    CreatesSts(c.mdb, FirstStage(c.mdb, c.world, NO_FAULTS).0);
    StagesOfReconcile(c.mdb, c.world, NO_FAULTS);
  }

  /** A deployed cluster of n members: everything runs, every agent has reported, and the status says so. */
  ghost predicate Healthy(c: Cluster, n: nat) {
    && Quiet(c.mdb, c.world.secret) && c.mdb.spec.members == n
    && c.mdb.status == Status(n, n, 0, 0, Running) && c.mdb.lastVersion == c.mdb.spec.version
    && c.world.sts == Some(StatefulSet(n, 1, 1, n, n, false, true))
    && c.world.pods == PodsAt(c.mdb.name, n, c.world.secret.ac.version)
  }

  lemma ReadySts(m: ValidResource, w: World)
    requires m.spec.customReplicas.None? && !IsChangingVersion(m)
    requires w.sts.Some? && IsReady(w.sts.value, StatefulSetReplicasThisReconciliation(m))
    requires w.sts.value.replicas == StatefulSetReplicasThisReconciliation(m)
    requires !w.sts.value.onDelete && w.sts.value.readinessProbe
    ensures var (u, outcome) := DeployStatefulSet(m, w, NO_FAULTS);
            outcome == Ready && u == w.(arbiterSts := u.arbiterSts)
  {
  }

  lemma SecondReconcile(c: Cluster)
    requires Created(c)
    requires var n := c.mdb.spec.members;
             && c.world.sts == Some(StatefulSet(n, 1, 1, n, n, false, true))
             && c.world.pods == PodsAt(c.mdb.name, n, c.world.secret.ac.version)
    ensures var d := Reconcile(c, NO_FAULTS);
            Healthy(d, c.mdb.spec.members) && d.mdb.spec == c.mdb.spec && d.mdb.name == c.mdb.name
  {
    var m: ValidResource, n: nat := c.mdb, c.mdb.spec.members;
    NewResourceAims(m);
    IdleConfigStage(m, c.world, n);
    ReadySts(m, c.world);
    StagesOfReconcile(m, c.world, NO_FAULTS);
    Completion(m, c.world, DeployStatefulSet(m, c.world, NO_FAULTS).0);
  }

  /** The end of that reconcile. */
  lemma Completion(m: ValidResource, w: World, u: World)
    requires Created(Cluster(m, w)) && u == w.(arbiterSts := u.arbiterSts)
    requires w.sts == Some(StatefulSet(m.spec.members, 1, 1, m.spec.members, m.spec.members, false, true))
    requires w.pods == PodsAt(m.name, m.spec.members, w.secret.ac.version)
    ensures var d := Finish(m, u, NO_FAULTS); Healthy(d, m.spec.members) && d.mdb.spec == m.spec && d.mdb.name == m.name
  {
    var n: ValidResource := Finish(m, u, NO_FAULTS).mdb;
    InUseDependsOnRequest(m, n, w.secret.ac);
  }

  // ---------------------------------------------------------------- as a run

  /** A resource that was just created, with no pods left from an earlier one of its name. */
  predicate New(c: Cluster) {
    Fresh(c) && Deployable(c.mdb.spec) && c.world.pods == NO_PODS
  }

  /** The first n pods run, their agents report the stored version, and the stateful set has observed its generation. */
  function PodsRun(c: Cluster, generation: nat, n: nat): Event {
    Environment(PodsAt(c.mdb.name, n, VersionOf(c.world.secret)), generation, n, n)
  }

  const RECONCILE := Reconciles(NO_FAULTS)

  function Deployment(c: Cluster): seq<Event>
    requires New(c)
  {
    [RECONCILE] + [PodsRun(After(c, [RECONCILE]), 1, c.mdb.spec.members)] + [RECONCILE]
  }

  lemma AfterOneMore(c: Cluster, events: seq<Event>, e: Event)
    ensures After(c, events + [e]) == Step(After(c, events), e)
  {
    assert (events + [e])[..|events|] == events;
  }

  lemma AfterOne(c: Cluster, e: Event)
    ensures After(c, [e]) == Step(c, e)
  {
    assert [e][..0] == [];
  }

  lemma AllowedOneMore(c: Cluster, events: seq<Event>, e: Event)
    requires Ordering.AllowedRun(c, events) && (e.Edit? ==> AllowedEdit(After(c, events), e.spec))
    ensures Ordering.AllowedRun(c, events + [e])
  {
    assert (events + [e])[..|events|] == events;
  }

  lemma PlausibleOneMore(c: Cluster, events: seq<Event>, e: Event)
    requires PlausibleRun(c, events) && Plausible(Step(After(c, events), e))
    ensures PlausibleRun(c, events + [e])
  {
    AfterOneMore(c, events, e);
    assert (events + [e])[..|events|] == events;
  }

  /** Allowed as far as the ordering argument goes, and through clusters that a read can show. */
  predicate Possible(c: Cluster, events: seq<Event>) {
    Ordering.AllowedRun(c, events) && PlausibleRun(c, events)
  }

  lemma PossibleOneMore(c: Cluster, events: seq<Event>, e: Event)
    requires Possible(c, events) && Plausible(Step(After(c, events), e))
    requires e.Edit? ==> AllowedEdit(After(c, events), e.spec)
    ensures Possible(c, events + [e])
  {
    AllowedOneMore(c, events, e);
    PlausibleOneMore(c, events, e);
  }

  lemma NewIsPossible(c: Cluster)
    requires New(c)
    ensures Possible(c, [])
  {
  }

  /** After its first reconcile a new resource is created, and no pod runs yet. */
  lemma CreationRun(c: Cluster)
    requires New(c)
    ensures var d := After(c, [RECONCILE]);
            && Created(d) && d.mdb == c.mdb && d.world.pods == NO_PODS
            && d.world.sts == Some(StatefulSet(c.mdb.spec.members, 1, 0, 0, 0, false, true))
    ensures Possible(c, [RECONCILE])
  {
    NewIsPossible(c);
    AfterOne(c, RECONCILE);
    FirstReconcile(c);
    assert After(c, []) == c && [] + [RECONCILE] == [RECONCILE];
    PossibleOneMore(c, [], RECONCILE);
  }

  /** The first n of them run. */
  lemma PodsRunAfterCreation(c: Cluster, n: nat)
    requires New(c) && n <= c.mdb.spec.members
    ensures var events := [RECONCILE] + [PodsRun(After(c, [RECONCILE]), 1, n)];
            var d := After(c, events);
            && Created(d) && d.mdb == c.mdb && d.world.pods == PodsAt(c.mdb.name, n, d.world.secret.ac.version)
            && d.world.sts == Some(StatefulSet(c.mdb.spec.members, 1, 1, n, n, false, true))
            && Possible(c, events)
  {
    var d := After(c, [RECONCILE]);
    CreationRun(c);
    AfterOneMore(c, [RECONCILE], PodsRun(d, 1, n));
    PodsArePlausible(d, 1, n);
    PossibleOneMore(c, [RECONCILE], PodsRun(d, 1, n));
  }

  lemma PodsArePlausible(d: Cluster, generation: nat, n: nat)
    requires d.world.secret.Stored? && d.world.sts.Some? && generation <= d.world.sts.value.generation
    ensures Plausible(Step(d, PodsRun(d, generation, n)))
  {
    PodsAtArePlausible(Step(d, PodsRun(d, generation, n)), n);
  }

  /** From any such resource the run leads to a healthy cluster, and it is a possible one. */
  lemma DeploymentSettles(c: Cluster)
    requires New(c)
    ensures var d := After(c, Deployment(c));
            Healthy(d, c.mdb.spec.members) && d.mdb.spec == c.mdb.spec && d.mdb.name == c.mdb.name
    ensures Possible(c, Deployment(c))
  {
    var n: nat := c.mdb.spec.members;
    var events := [RECONCILE] + [PodsRun(After(c, [RECONCILE]), 1, n)];
    PodsRunAfterCreation(c, n);
    SecondReconcile(After(c, events));
    AfterOneMore(c, events, RECONCILE);
    HealthyIsPlausible(After(c, Deployment(c)), n);
    PossibleOneMore(c, events, RECONCILE);
  }

  lemma HealthyIsPlausible(d: Cluster, n: nat)
    requires Healthy(d, n)
    ensures Plausible(d)
  {
    PodsAtArePlausible(d, n);
  }

  lemma DeployedIsOrdered(c: Cluster)
    requires New(c)
    ensures var d := After(c, Deployment(c)); Ordered(d.mdb, d.world) && WellNamed(d.world.secret, d.mdb.name)
  {
    DeploymentSettles(c);
    RunKeepsOrder(c, Deployment(c));
    RunKeepsNames(c, Deployment(c));
  }
}
