/**
 * One reconcile of a replica set: publish the config, create or update the stateful sets, in an order that depends
 * on the scaling direction, and move the status counters when both are ready.
 *
 * Reconciles of a resource are serial and read the cluster atomically.  Every API call may fail; `Faults` says which
 * ones do in this reconcile.
 */
module Controller {
  import opened AgentReadiness
  import opened ConfigBuilder
  import opened Config
  import opened ConfigStore
  import opened Functions
  import opened PortManager
  import opened Resource
  import opened Wrappers
  import Scale

  datatype StatefulSet = StatefulSet(replicas: int, generation: nat, observedGeneration: nat, updatedReplicas: int,
                                     readyReplicas: int, onDelete: bool, readinessProbe: bool)

  predicate IsReady(sts: StatefulSet, expectedReplicas: int) {
    expectedReplicas == sts.updatedReplicas && expectedReplicas == sts.readyReplicas
    && sts.generation == sts.observedGeneration
  }

  /** What the operator reads and writes besides the resource. */
  datatype World = World(secret: AcSecret, sts: Option<StatefulSet>, arbiterSts: Option<StatefulSet>, pods: Pods)

  datatype Cluster = Cluster(mdb: Resource, world: World)

  /**
   * Which steps fail: the service and the TLS checks (`preflight`), the TLS and user resources (`resources`), and the API
   * calls after them.  `tlsPending` says that the TLS configuration of a TLS-enabled resource is not complete yet.
   */
  datatype Faults = Faults(preflight: bool, tlsPending: bool, resources: bool, orderRead: bool, stsRead: bool,
                           acInputs: bool, acStore: StoreFaults, stsWrite: bool, arbiterStsWrite: bool,
                           stsReadBack: bool, strategyWrite: bool, statusWrite: bool, annotationWrite: bool)

  // ---------------------------------------------------------------- publishing the config

  function ProcessPorts(m: ValidResource, current: AutomationConfig, pods: Pods): map<string, int> {
    ExpectedPorts(current.processes, ExpectedPort(m.spec),
                  PodStates(pods, m.name, StatefulSetReplicasThisReconciliation(m),
                            StatefulSetArbitersThisReconciliation(m), current.version))
  }

  /** What the builder is set up with. */
  function BuildSettings(m: ValidResource): Settings {
    Settings(m.name, m.domain, m.domain, AutomationConfigMembersThisReconciliation(m), ConfiguredArbiters(m),
             m.spec.isEnterprise, m.spec.version, DataDir(m.spec), 0, m.spec.memberOptions, m.spec.horizons,
             m.spec.replicaSetId, None, m.spec.settings, m.spec.agent, m.spec.sections)
  }

  /** The modifications it registers; the one of the ports comes last. */
  function BuildModifications(m: ValidResource, ports: map<string, int>): seq<Modification> {
    [MergeArgs(m.spec.mongodConfig)] + m.spec.modifications + [SetPorts(ports)]
  }

  function PassFor(m: ValidResource, current: AutomationConfig, pods: Pods, faults: StoreFaults): Pass {
    Pass(BuildSettings(m), BuildModifications(m, ProcessPorts(m, current, pods)), m.spec.fcv, m.spec.overrides, faults)
  }

  predicate PortInputsReadable(m: ValidResource, pods: Pods) {
    AllReadable(pods, Names.AllNames(m.name, StatefulSetReplicasThisReconciliation(m), StatefulSetArbitersThisReconciliation(m)))
  }

  /** Builds the config from the stored one, merges the override and stores the result. */
  function EnsureAutomationConfig(m: ValidResource, secret: AcSecret, pods: Pods, f: Faults): Ensured {
    var read := ReadSpec(secret, f.acStore.read);
    if read.Err? || f.acInputs || !PortInputsReadable(m, pods) then Ensured(secret, Err(Unreadable), false)
    else Publish(secret, PassFor(m, read.value, pods, f.acStore))
  }

  function DeployAutomationConfig(m: ValidResource, w: World, f: Faults): (World, Outcome) {
    if f.stsRead then (w, Error) else AfterPublishing(m, w, EnsureAutomationConfig(m, w.secret, w.pods, f))
  }

  function AfterPublishing(m: ValidResource, w: World, e: Ensured): (World, Outcome) {
    var v := w.(secret := e.secret);
    if e.result.Err? then (v, Error)
    // Without a stateful set, or with one from before the readiness probe, there are no agents to wait for.
    else if w.sts.None? || !w.sts.value.readinessProbe then (v, Ready)
    else (v, AgentsOutcome(m, w.pods, e.result.value.version))
  }

  /** Waits for the agents of the pods that this reconcile is going to keep. */
  function AgentsOutcome(m: ValidResource, pods: Pods, version: int): Outcome {
    var members := StatefulSetReplicasThisReconciliation(m);
    if !AllReadable(pods, Names.AllNames(m.name, members, 0)) then Error
    else if GoalReached(pods, m.name, members, version) then Ready else NotReady
  }

  // ---------------------------------------------------------------- the stateful sets

  /** Writing an object bumps its generation only when it changes. */
  function Bumped(before: StatefulSet, after: StatefulSet): StatefulSet {
    if after == before then before else after.(generation := before.generation + 1)
  }

  function UpdatedSts(existing: Option<StatefulSet>, replicas: int, onDelete: bool): StatefulSet {
    match existing
    case None => StatefulSet(replicas, 1, 0, 0, 0, onDelete, true)
    case Some(sts) => Bumped(sts, sts.(replicas := replicas, onDelete := onDelete, readinessProbe := true))
  }

  function TargetReplicas(m: ValidResource): int {
    if m.spec.customReplicas.Some? then m.spec.customReplicas.value else StatefulSetReplicasThisReconciliation(m)
  }

  function DeployStatefulSet(m: ValidResource, w: World, f: Faults): (World, Outcome) {
    if f.stsWrite then (w, Error) else
    var onDelete := IsChangingVersion(m);
    var v := w.(sts := Some(UpdatedSts(w.sts, TargetReplicas(m), onDelete)));
    if f.arbiterStsWrite then (v, Error) else
    var u := v.(arbiterSts := Some(UpdatedSts(w.arbiterSts, StatefulSetArbitersThisReconciliation(m), onDelete)));
    if f.stsReadBack then (u, Error)
    else (u, if IsReady(u.sts.value, StatefulSetReplicasThisReconciliation(m)) || u.sts.value.onDelete
             then Ready else NotReady)
  }

  // ---------------------------------------------------------------- order of the two stages

  /** True: config first.  False: stateful set first. */
  predicate ShouldRunInOrder(m: ValidResource, sts: Lookup<StatefulSet>) {
    if (!sts.Found? || !IsReady(sts.item, StatefulSetReplicasThisReconciliation(m))) && m.spec.tlsEnabled then true
    else if sts.Found? && m.spec.tlsEnabled then false
    else if Scale.IsScalingUp(MemberScaler(m)) || m.status.stsArbiters < m.spec.arbiters
    then Scale.HasZeroReplicas(MemberScaler(m))
    else if Scale.IsScalingDown(MemberScaler(m)) then true
    else !IsChangingVersion(m)
  }

  function StsLookup(w: World, fails: bool): Lookup<StatefulSet> {
    if fails then Lookup.Failed else if w.sts.None? then NotFound else Found(w.sts.value)
  }

  function Stages(m: ValidResource, f: Faults): seq<World -> (World, Outcome)> {
    [v => DeployAutomationConfig(m, v, f), v => DeployStatefulSet(m, v, f)]
  }

  function DeployReplicaSet(m: ValidResource, w: World, f: Faults): (World, Outcome) {
    RunSequentially(ShouldRunInOrder(m, StsLookup(w, f.orderRead)), Stages(m, f), w)
  }

  // ---------------------------------------------------------------- the reconcile

  function WithPhase(m: Resource, phase: Phase, f: Faults): Resource {
    if f.statusWrite then m else m.(status := m.status.(phase := phase))
  }

  /** A finished version change lets the stateful set roll again. */
  function ResetStrategy(m: Resource, w: World): World {
    if IsChangingVersion(m) && w.sts.Some?
    then w.(sts := Some(Bumped(w.sts.value, w.sts.value.(onDelete := false)))) else w
  }

  /** The end of a reconcile whose stages were both ready. */
  function Finish(m: ValidResource, w: World, f: Faults): Cluster {
    if IsChangingVersion(m) && f.strategyWrite then Cluster(WithPhase(m, Phase.Failed, f), w) else
    var v := ResetStrategy(m, w);
    if f.statusWrite then Cluster(m, v) else
    var status := ReadyStatus(m);
    var annotated := status.phase.Running? && !f.annotationWrite;
    Cluster(m.(status := status, lastVersion := if annotated then m.spec.version else m.lastVersion), v)
  }

  /** Validation and everything else that comes before the two stages. */
  function Prepare(m: Resource, f: Faults): Outcome {
    if !ValidCounts(m.spec) || f.preflight then Error
    else if f.tlsPending && m.spec.tlsEnabled then NotReady
    else if f.resources then Error else Ready
  }

  /** The reconcile gets as far as its two stages. */
  predicate Proceeds(m: Resource, f: Faults) {
    Prepare(m, f) == Ready
  }

  /** Ends a reconcile whose outcome is an error, or to be retried later. */
  function Stop(m: Resource, w: World, outcome: Outcome, f: Faults): Cluster {
    Cluster(WithPhase(m, if outcome.Error? then Phase.Failed else Pending, f), w)
  }

  function Reconcile(c: Cluster, f: Faults): Cluster {
    if !Proceeds(c.mdb, f) then Stop(c.mdb, c.world, Prepare(c.mdb, f), f) else
    var (w, outcome) := DeployReplicaSet(c.mdb, c.world, f);
    if outcome.Ready? then Finish(c.mdb, w, f) else Stop(c.mdb, w, outcome, f)
  }
}
