/**
 * What a successful publication leaves in the secret, field by field, in terms of the resource: what its spec asks for is
 * what the agents get to read.
 */
module Publication {
  import opened AgentReadiness
  import opened Config
  import opened ConfigBuilder
  import opened ConfigBuilderProperties
  import opened ConfigContents
  import opened ConfigStore
  import opened Controller
  import opened Names
  import opened PortProgress
  import opened Resource
  import opened Wrappers

  // ---------------------------------------------------------------- what the spec asks for

  /** The members of the replica set, in order: host, kind, id, horizons, and votes, priority and tags. */
  predicate HasMembers(rs: ReplicaSet, m: Resource, members: nat, arbiters: nat) {
    && rs.id == (if m.spec.replicaSetId.Some? then m.spec.replicaSetId.value else m.name)
    && rs.numberArbiters == arbiters && rs.force.None? && rs.settings == m.spec.settings
    && |rs.members| == members + arbiters
    && forall i: nat :: i < |rs.members| ==>
         var x := rs.members[i];
         && x.host == (if i < members then m.name + "-" + Digits(i) else m.name + "-arb-" + Digits(i - members))
         && (x.arbiterOnly <==> i >= members)
         && x.id == (if i < members then i else 100 + i - members)
         && x.horizons == (if i < |m.spec.horizons| then m.spec.horizons[i] else map[])
         && if i < |m.spec.memberOptions| then
              x.votes == m.spec.memberOptions[i].votes && x.priority == m.spec.memberOptions[i].priority
              && x.tags == m.spec.memberOptions[i].tags
            else
              var voting := i >= members || i < 7 - arbiters;
              x.votes == Some(if voting then 1 else 0) && x.priority == (if voting then 1.0 else 0.0) && x.tags == map[]
  }

  /**
   * The argument of a key other than the port: of the last of the resource's modifications that sets it, or of the mongod
   * configuration, or of the agent's log settings, or the default.
   */
  ghost predicate HasArg(args: map<string, Arg>, key: string, m: Resource) {
    && (forall k: nat :: LastMerges(m.spec.modifications, k, key) ==>
                           key in args && args[key] == m.spec.modifications[k].args[key])
    && (NobodyMerges(m.spec.modifications, key) ==>
          if key in m.spec.mongodConfig then key in args && args[key] == m.spec.mongodConfig[key]
          else if key in m.spec.agent.systemLog then key in args && args[key] == m.spec.agent.systemLog[key]
          else if key == "storage.dbPath" then key in args && args[key] == Text("/data")
          else if key == "replication.replSetName" then key in args && args[key] == Text(m.name)
          else key !in args)
  }

  /** The i-th process, apart from its arguments. */
  predicate HasIdentity(p: Process, i: nat, m: Resource, members: nat, fcv: string) {
    && p.name == (if i < members then m.name + "-" + Digits(i) else m.name + "-arb-" + Digits(i - members))
    && p.hostName == p.name + "." + m.domain
    && p.fcv == fcv && (m.spec.fcv != "" ==> fcv == m.spec.fcv)
    && (m.spec.isEnterprise ==> |p.version| >= 4 && p.version[|p.version| - 4..] == "-ent"
                                && (p.version == m.spec.version || p.version == m.spec.version + "-ent"))
    && (!m.spec.isEnterprise ==> p.version == m.spec.version)
  }

  /** The i-th process, apart from the port. */
  ghost predicate HasProcess(p: Process, i: nat, m: Resource, members: nat, fcv: string) {
    HasIdentity(p, i, m, members, fcv) && forall key: string :: key != "net.port" ==> HasArg(p.args, key, m)
  }

  /** Whether it is disabled, and its log rotation: of the last override of its name, or of the agent's settings. */
  ghost predicate HasOverride(p: Process, m: Resource) {
    && (forall k: nat :: LastOverrides(m.spec.overrides, k, p.name) ==>
          && p.disabled == m.spec.overrides[k].disabled
          && p.logRotate == Some(if m.spec.overrides[k].logRotate.Some? then m.spec.overrides[k].logRotate.value
                                 else LogRotate(0, 0, 0, false, 0.0, 0.0)))
    && ((forall j :: 0 <= j < |m.spec.overrides| ==> m.spec.overrides[j].name != p.name) ==>
          !p.disabled && p.logRotate == m.spec.agent.logRotate)
  }

  ghost predicate HasSections(sections: map<string, string>, m: Resource) {
    forall key: string ::
      && (forall k: nat :: LastSets(m.spec.modifications, k, key) ==>
                             key in sections && sections[key] == m.spec.modifications[k].value)
      && (NobodySets(m.spec.modifications, key) ==>
            if key in m.spec.sections then key in sections && sections[key] == m.spec.sections[key]
            else if key == "auth" then key in sections && sections[key] == "disabled" else key !in sections)
  }

  /** The contents of a config of this resource with these counts and this FCV. */
  ghost predicate IsAskedFor(ac: AutomationConfig, m: Resource, members: nat, arbiters: nat, fcv: string) {
    && |ac.replicaSets| == 1 && HasMembers(ac.replicaSets[0], m, members, arbiters)
    && |ac.processes| == members + arbiters
    && (forall i: nat :: i < |ac.processes| ==>
                           HasProcess(ac.processes[i], i, m, members, fcv) && HasOverride(ac.processes[i], m))
    && HasSections(ac.sections, m)
  }

  // ---------------------------------------------------------------- what is published

  lemma BuiltHasMembers(m: ValidResource, rs: ReplicaSet)
    requires MembersAreBuilt(BuildSettings(m), rs)
    ensures HasMembers(rs, m, AutomationConfigMembersThisReconciliation(m), ConfiguredArbiters(m))
  {
    forall i: nat | i < |rs.members|
      ensures IsPlainMember(rs.members[i], i, m.name, AutomationConfigMembersThisReconciliation(m))
    {
    }
  }

  /** The resource's own modifications stand between its mongod configuration and the ports. */
  lemma OwnModifications(m: ValidResource, ports: map<string, int>, key: string)
    ensures var ms, own := BuildModifications(m, ports), m.spec.modifications;
            && (forall k: nat :: LastMerges(own, k, key) ==> LastMerges(ms, k + 1, key) && ms[k + 1] == own[k])
            && (NobodyMerges(own, key) && key in m.spec.mongodConfig ==>
                  LastMerges(ms, 0, key) && ms[0] == MergeArgs(m.spec.mongodConfig))
            && (NobodyMerges(own, key) && key !in m.spec.mongodConfig ==> NobodyMerges(ms, key))
            && (forall k: nat :: LastSets(own, k, key) ==> LastSets(ms, k + 1, key) && ms[k + 1] == own[k])
            && (NobodySets(own, key) ==> NobodySets(ms, key))
  {
    var ms, own := BuildModifications(m, ports), m.spec.modifications;
    assert forall j :: 0 < j <= |own| ==> ms[j] == own[j - 1];
  }

  lemma BuiltHasArg(m: ValidResource, ports: map<string, int>, p: Process, i: nat, fcv: string, key: string)
    requires ProcessIsBuilt(p, i, BuildSettings(m), BuildModifications(m, ports), fcv) && key != "net.port"
    ensures HasArg(p.args, key, m)
  {
    var ms := BuildModifications(m, ports);
    OwnModifications(m, ports, key);
    if NobodyMerges(m.spec.modifications, key) {
      if key in m.spec.mongodConfig {
        assert LastMerges(ms, 0, key);
      } else {
        assert IsPlainArg(p.args, key, BuildSettings(m));
      }
    }
  }

  lemma BuiltHasProcess(m: ValidResource, ports: map<string, int>, p: Process, i: nat, previous: AutomationConfig)
    requires EffectiveFcv(previous, m.spec.fcv, m.spec.version).Ok?
    requires ProcessIsBuilt(p, i, BuildSettings(m), BuildModifications(m, ports),
                            EffectiveFcv(previous, m.spec.fcv, m.spec.version).value)
    ensures HasProcess(p, i, m, AutomationConfigMembersThisReconciliation(m),
                       EffectiveFcv(previous, m.spec.fcv, m.spec.version).value)
  {
    forall key: string | key != "net.port"
      ensures HasArg(p.args, key, m)
    {
      BuiltHasArg(m, ports, p, i, EffectiveFcv(previous, m.spec.fcv, m.spec.version).value, key);
    }
    PlainHasIdentity(m, p, i, previous);
  }

  lemma PlainHasIdentity(m: ValidResource, p: Process, i: nat, previous: AutomationConfig)
    requires EffectiveFcv(previous, m.spec.fcv, m.spec.version).Ok?
    requires IsPlainProcess(p, i, BuildSettings(m), EffectiveFcv(previous, m.spec.fcv, m.spec.version).value)
    ensures HasIdentity(p, i, m, AutomationConfigMembersThisReconciliation(m),
                        EffectiveFcv(previous, m.spec.fcv, m.spec.version).value)
  {
    GivenFcvIsTaken(previous, m.spec.fcv, m.spec.version);
    PlainIsNamed(m, p, i, EffectiveFcv(previous, m.spec.fcv, m.spec.version).value);
    VersionOfEdition(m, p.version);
  }

  lemma PlainIsNamed(m: ValidResource, p: Process, i: nat, fcv: string)
    requires IsPlainProcess(p, i, BuildSettings(m), fcv)
    ensures var members := AutomationConfigMembersThisReconciliation(m);
            && p.name == (if i < members then m.name + "-" + Digits(i) else m.name + "-arb-" + Digits(i - members))
            && p.hostName == p.name + "." + m.domain && p.fcv == fcv && IsImageVersion(p.version, BuildSettings(m))
  {
  }

  lemma VersionOfEdition(m: ValidResource, version: string)
    requires IsImageVersion(version, BuildSettings(m))
    ensures m.spec.isEnterprise ==> |version| >= 4 && version[|version| - 4..] == "-ent"
                                    && (version == m.spec.version || version == m.spec.version + "-ent")
    ensures !m.spec.isEnterprise ==> version == m.spec.version
  {
    VersionHasSuffix(m, version);
  }

  /** An FCV that the spec gives is the one that is built. */
  lemma GivenFcvIsTaken(previous: AutomationConfig, fcv: string, version: string)
    requires EffectiveFcv(previous, fcv, version).Ok?
    ensures fcv != "" ==> EffectiveFcv(previous, fcv, version) == Ok(fcv)
  {
  }

  lemma VersionHasSuffix(m: ValidResource, version: string)
    requires IsImageVersion(version, BuildSettings(m))
    ensures m.spec.isEnterprise ==> |version| >= 4 && version[|version| - 4..] == "-ent"
  {
  }

  lemma BuiltHasSections(m: ValidResource, ports: map<string, int>, sections: map<string, string>)
    requires forall key: string :: IsSection(sections, BuildModifications(m, ports), BuildSettings(m), key)
    ensures HasSections(sections, m)
  {
    forall key: string
      ensures && (forall k: nat :: LastSets(m.spec.modifications, k, key) ==>
                                     key in sections && sections[key] == m.spec.modifications[k].value)
              && (NobodySets(m.spec.modifications, key) ==> IsSection(sections, [], BuildSettings(m), key))
    {
      OwnModifications(m, ports, key);
      assert IsSection(sections, BuildModifications(m, ports), BuildSettings(m), key);
    }
  }

  /** An override leaves everything but the log rotation and the disabled flag as it was built. */
  lemma MergedHasProcess(m: ValidResource, b: Process, p: Process, i: nat, members: nat, fcv: string)
    requires HasProcess(b, i, m, members, fcv) && IsOverridden(b, p, m.spec.overrides)
    requires !b.disabled && b.logRotate == m.spec.agent.logRotate
    ensures HasProcess(p, i, m, members, fcv) && HasOverride(p, m)
  {
  }

  lemma NamesAreFirst(ps: seq<Process>, name: string, members: nat, arbiters: nat, i: nat, j: nat)
    requires ProcessNames(ps) == AllNames(name, members, arbiters) && j < i < |ps|
    ensures ps[j].name != ps[i].name
  {
    assert |ps| == |ProcessNames(ps)| == |AllNames(name, members, arbiters)| == members + arbiters;
    assert ps[i].name == ProcessNames(ps)[i] && ps[j].name == ProcessNames(ps)[j];
    if ps[j].name == ps[i].name {
      AllNamesDistinct(name, members, arbiters, j, i);
      assert false;
    }
  }

  /** What is built for a resource, and merged with its override. */
  lemma MergedIsAskedFor(m: ValidResource, ports: map<string, int>, previous: AutomationConfig)
    requires BuildSpec(BuildSettings(m), BuildModifications(m, ports), m.spec.fcv, [], previous).Ok?
    ensures EffectiveFcv(previous, m.spec.fcv, m.spec.version).Ok?
    ensures var built := BuildSpec(BuildSettings(m), BuildModifications(m, ports), m.spec.fcv, [], previous).value;
            IsAskedFor(Merge(built, m.spec.overrides), m, AutomationConfigMembersThisReconciliation(m), ConfiguredArbiters(m),
                       EffectiveFcv(previous, m.spec.fcv, m.spec.version).value)
  {
    var s, ms := BuildSettings(m), BuildModifications(m, ports);
    var built := BuildSpec(s, ms, m.spec.fcv, [], previous).value;
    var fcv := EffectiveFcv(previous, m.spec.fcv, m.spec.version).value;
    BuiltExactly(s, ms, m.spec.fcv, previous);
    BuiltSkeleton(s, ms, m.spec.fcv, [], previous);
    BuiltHasMembers(m, built.replicaSets[0]);
    BuiltHasSections(m, ports, built.sections);
    forall i: nat | i < |built.processes|
      ensures var p := Merge(built, m.spec.overrides).processes[i];
              HasProcess(p, i, m, s.members, fcv) && HasOverride(p, m)
    {
      MergedProcessIsAskedFor(m, ports, previous, built, i);
    }
  }

  lemma MergedProcessIsAskedFor(m: ValidResource, ports: map<string, int>, previous: AutomationConfig,
                                built: AutomationConfig, i: nat)
    requires EffectiveFcv(previous, m.spec.fcv, m.spec.version).Ok? && i < |built.processes|
    requires ProcessIsBuilt(built.processes[i], i, BuildSettings(m), BuildModifications(m, ports),
                            EffectiveFcv(previous, m.spec.fcv, m.spec.version).value)
    requires ProcessNames(built.processes)
             == AllNames(m.name, AutomationConfigMembersThisReconciliation(m), ConfiguredArbiters(m))
    ensures var p := Merge(built, m.spec.overrides).processes[i];
            HasProcess(p, i, m, AutomationConfigMembersThisReconciliation(m),
                       EffectiveFcv(previous, m.spec.fcv, m.spec.version).value) && HasOverride(p, m)
  {
    forall j: nat | j < i
      ensures built.processes[j].name != built.processes[i].name
    {
      NamesAreFirst(built.processes, m.name, AutomationConfigMembersThisReconciliation(m), ConfiguredArbiters(m), i, j);
    }
    MergedExactly(built, m.spec.overrides, i);
    BuiltHasProcess(m, ports, built.processes[i], i, previous);
    MergedHasProcess(m, built.processes[i], Merge(built, m.spec.overrides).processes[i], i,
                     AutomationConfigMembersThisReconciliation(m), EffectiveFcv(previous, m.spec.fcv, m.spec.version).value);
  }

  /**
   * After every successful publication, whatever was stored before and whether or not anything had to be written, the
   * secret holds what the resource asks for.
   */
  lemma PublishedIsAskedFor(m: ValidResource, secret: AcSecret, pods: Pods, f: Faults)
    requires EnsureAutomationConfig(m, secret, pods, f).result.Ok?
    ensures !secret.WithoutConfig?
    ensures var previous := if secret.Stored? then secret.ac else EMPTY_CONFIG;
            && EffectiveFcv(previous, m.spec.fcv, m.spec.version).Ok?
            && EnsureAutomationConfig(m, secret, pods, f).secret.Stored?
            && IsAskedFor(EnsureAutomationConfig(m, secret, pods, f).secret.ac, m,
                          AutomationConfigMembersThisReconciliation(m), ConfiguredArbiters(m),
                          EffectiveFcv(previous, m.spec.fcv, m.spec.version).value)
  {
    var previous := ReadSpec(secret, false).value;
    var p := PassFor(m, previous, pods, f.acStore);
    var built := BuildSpec(p.settings, p.modifications, p.fcv, [], previous).value;
    MergedIsAskedFor(m, ProcessPorts(m, previous, pods), previous);
    StoredIsDesired(secret, p, built);
    OnlyVersionDiffers(Merge(built, m.spec.overrides), Publish(secret, p).secret.ac, m,
                       AutomationConfigMembersThisReconciliation(m), ConfiguredArbiters(m),
                       EffectiveFcv(previous, m.spec.fcv, m.spec.version).value);
  }

  lemma OnlyVersionDiffers(ac: AutomationConfig, stored: AutomationConfig, m: Resource, members: nat, arbiters: nat,
                           fcv: string)
    requires AreEqual(ac, stored) && IsAskedFor(ac, m, members, arbiters, fcv)
    ensures IsAskedFor(stored, m, members, arbiters, fcv)
  {
    assert stored.processes == ac.processes && stored.replicaSets == ac.replicaSets && stored.sections == ac.sections;
  }
}
