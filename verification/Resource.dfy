/** The custom resource: what the user asks for, and the counters the operator keeps in its status. */
module Resource {
  import opened ConfigBuilder
  import opened Config
  import opened ConfigStore
  import opened Scale
  import opened Wrappers

  /** The user-editable part.  `modifications` are the TLS, role and Prometheus changes derived from the resource. */
  datatype Spec = Spec(
    members: int, arbiters: int, version: string, fcv: string, mongodConfig: map<string, Arg>,
    tlsEnabled: bool, isEnterprise: bool, customReplicas: Option<int>, overrides: seq<ProcessOverride>,
    replicaSetId: Option<string>, settings: Option<string>, memberOptions: seq<MemberOptions>,
    horizons: seq<map<string, string>>, agent: AgentConfiguration, sections: map<string, string>,
    modifications: seq<Modification>)

  datatype Phase = Pending | Running | Failed

  datatype Status = Status(stsMembers: nat, acMembers: nat, stsArbiters: nat, acArbiters: nat, phase: Phase)

  /** `lastVersion` is the annotation of the last successful configuration, empty before there is one. */
  datatype Resource = Resource(name: string, domain: string, spec: Spec, status: Status, lastVersion: string)

  /** What validation demands of the counts: at least one member must not be an arbiter. */
  predicate ValidCounts(spec: Spec) {
    0 <= spec.arbiters < spec.members && (spec.customReplicas.None? || spec.customReplicas.value == spec.members)
  }

  type ValidResource = m: Resource | ValidCounts(m.spec)
    witness Resource("", "", Spec(1, 0, "", "", map[], false, false, None, [], None, None, [], [],
                                  AgentConfiguration(map[], None, None), map[], []), Status(0, 0, 0, 0, Pending), "")

  /** The resource itself scales its data-bearing stateful set. */
  function MemberScaler(m: ValidResource): Scaler {
    Scaler(m.status.stsMembers, m.spec.members, false)
  }

  function ArbiterScaler(m: ValidResource): Scaler {
    Scaler(m.status.stsArbiters, m.spec.arbiters, true)
  }

  function StatefulSetReplicasThisReconciliation(m: ValidResource): nat {
    ReplicasThisReconciliation(MemberScaler(m))
  }

  function StatefulSetArbitersThisReconciliation(m: ValidResource): nat {
    ReplicasThisReconciliation(ArbiterScaler(m))
  }

  function AutomationConfigMembersThisReconciliation(m: ValidResource): nat {
    ReplicasThisReconciliation(Scaler(m.status.acMembers, m.spec.members, false))
  }

  /** Arbiters of the config wait until the members have reached their target. */
  function AutomationConfigArbitersThisReconciliation(m: ValidResource): nat {
    if Scale.IsStillScaling(MemberScaler(m)) then m.status.acArbiters
    else ReplicasThisReconciliation(Scaler(m.status.acArbiters, m.spec.arbiters, true))
  }

  /** Whether the resource reports that it is still scaling; the config's arbiter counter is not asked. */
  predicate IsStillScaling(m: ValidResource) {
    Scale.IsStillScaling(MemberScaler(m)) || Scale.IsStillScaling(ArbiterScaler(m))
  }

  predicate IsChangingVersion(m: Resource) {
    m.lastVersion != "" && m.lastVersion != m.spec.version
  }

  /** The port the mongod configuration asks for. */
  function ExpectedPort(spec: Spec): int {
    if PORT_FIELD in spec.mongodConfig && spec.mongodConfig[PORT_FIELD].Num? then spec.mongodConfig[PORT_FIELD].n
    else DEFAULT_DB_PORT
  }

  function DataDir(spec: Spec): string {
    if "storage.dbPath" in spec.mongodConfig && spec.mongodConfig["storage.dbPath"].Text?
    then spec.mongodConfig["storage.dbPath"].s else DEFAULT_DATA_DIR
  }

  /** The arbiter count of the config that this reconcile builds. */
  function ConfiguredArbiters(m: ValidResource): nat {
    if AutomationConfigMembersThisReconciliation(m) < m.spec.members then m.status.acArbiters
    else AutomationConfigArbitersThisReconciliation(m)
  }

  /** The status a ready reconcile writes. */
  function ReadyStatus(m: ValidResource): Status {
    Status(StatefulSetReplicasThisReconciliation(m), AutomationConfigMembersThisReconciliation(m),
           StatefulSetArbitersThisReconciliation(m), AutomationConfigArbitersThisReconciliation(m),
           if IsStillScaling(m) then Pending else Running)
  }
}
