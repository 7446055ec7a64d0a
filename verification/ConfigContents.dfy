/**
 * What a built config contains, field by field, in terms of the builder's settings: replica set members, processes with
 * their arguments, sections and versions, and what an override of the resource does to them.
 */
module ConfigContents {
  import opened Config
  import opened ConfigBuilder
  import opened ConfigBuilderProperties
  import opened ConfigStore
  import opened Names
  import opened Wrappers

  // ---------------------------------------------------------------- replica set members

  /** Data-bearing members come first and are numbered from 0; arbiters have ordinals of their own, and ids from 100. */
  predicate IsPlainMember(m: Member, i: nat, name: string, members: nat) {
    && m.host == (if i < members then name + "-" + Digits(i) else name + "-arb-" + Digits(i - members))
    && (m.arbiterOnly <==> i >= members)
    && m.id == if i < members then i else 100 + (i - members)
  }

  /** Votes and priority that nobody asked for: of more than seven members the last data-bearing ones do not vote. */
  predicate VotesByDefault(m: Member, i: nat, members: nat, arbiters: nat) {
    var voting := i >= members || i < 7 - arbiters;
    m.votes == Some(if voting then 1 else 0) && m.priority == (if voting then 1.0 else 0.0) && m.tags == map[]
  }

  /** The replica set of a build, member by member. */
  predicate MembersAreBuilt(s: Settings, rs: ReplicaSet) {
    && rs.id == (if s.replicaSetId.Some? then s.replicaSetId.value else s.name)
    && rs.numberArbiters == s.arbiters && rs.force == s.force && rs.settings == s.settings
    && |rs.members| == s.members + s.arbiters
    && forall i: nat :: i < |rs.members| ==>
         var m := rs.members[i];
         && IsPlainMember(m, i, s.name, s.members)
         && m.horizons == (if i < |s.horizons| then s.horizons[i] else map[])
         && if i < |s.memberOptions|
            then m.votes == s.memberOptions[i].votes && m.priority == s.memberOptions[i].priority
                 && m.tags == s.memberOptions[i].tags
            else VotesByDefault(m, i, s.members, s.arbiters)
  }

  lemma MemberIsBuilt(s: Settings, i: nat)
    requires i < s.members + s.arbiters
    ensures var m := MemberAt(s, i);
            && IsPlainMember(m, i, s.name, s.members)
            && m.horizons == (if i < |s.horizons| then s.horizons[i] else map[])
            && if i < |s.memberOptions|
               then m.votes == s.memberOptions[i].votes && m.priority == s.memberOptions[i].priority
                    && m.tags == s.memberOptions[i].tags
               else VotesByDefault(m, i, s.members, s.arbiters)
  {
  }

  lemma AssembledMembers(s: Settings)
    ensures var id := if s.replicaSetId.Some? then s.replicaSetId.value else s.name;
            MembersAreBuilt(s, ReplicaSet(id, Members(s), s.arbiters, s.force, s.settings))
  {
    forall i: nat | i < s.members + s.arbiters
      ensures Members(s)[i] == MemberAt(s, i)
      ensures IsPlainMember(MemberAt(s, i), i, s.name, s.members)
    {
      MemberIsBuilt(s, i);
    }
  }

  /** Replica sets and versions are those that the builder assembles. */
  lemma BuiltKeepsTopology(s: Settings, ms: seq<Modification>, fcv: string, versions: seq<VersionConfig>,
                           previous: AutomationConfig)
    requires BuildSpec(s, ms, fcv, versions, previous).Ok?
    ensures var ac := BuildSpec(s, ms, fcv, versions, previous).value;
            var id := if s.replicaSetId.Some? then s.replicaSetId.value else s.name;
            && ac.replicaSets == [ReplicaSet(id, Members(s), s.arbiters, s.force, s.settings)]
            && ac.versions == WithVersion(versions, DummyVersionConfig(ImageVersion(s)))
  {
    var f := EffectiveFcv(previous, fcv, s.mongodbVersion).value;
    ModificationsKeepSkeleton(ms, Assemble(s, versions, f, previous.version));
  }

  /** Every successful build has exactly this one replica set, whatever the modifications. */
  lemma BuiltMembers(s: Settings, ms: seq<Modification>, fcv: string, versions: seq<VersionConfig>,
                     previous: AutomationConfig)
    requires BuildSpec(s, ms, fcv, versions, previous).Ok?
    ensures var ac := BuildSpec(s, ms, fcv, versions, previous).value;
            |ac.replicaSets| == 1 && MembersAreBuilt(s, ac.replicaSets[0])
  {
    BuiltKeepsTopology(s, ms, fcv, versions, previous);
    AssembledMembers(s);
  }

  // ---------------------------------------------------------------- processes

  /** The version that is run: the one of the enterprise edition has a suffix. */
  predicate IsImageVersion(version: string, s: Settings) {
    if s.isEnterprise && !(|s.mongodbVersion| >= 4 && s.mongodbVersion[|s.mongodbVersion| - 4..] == "-ent")
    then version == s.mongodbVersion + "-ent" else version == s.mongodbVersion
  }

  /** Everything of a process that modifications do not reach. */
  predicate IsPlainProcess(p: Process, i: nat, s: Settings, fcv: string) {
    && p.name == (if i < s.members then s.name + "-" + Digits(i) else s.name + "-arb-" + Digits(i - s.members))
    && p.hostName == p.name + "." + (if i < s.members then s.domain else s.arbiterDomain)
    && p.fcv == fcv && IsImageVersion(p.version, s) && !p.disabled
    && p.logRotate == s.agent.logRotate
    && p.auditLogRotate == (if s.agent.logRotate.None? then None
                            else if s.agent.auditLogRotate.Some? then s.agent.auditLogRotate
                            else Some(LogRotate(0, 0, 0, false, 0.0, 0.0)))
  }

  lemma ProcessIsPlain(s: Settings, fcv: string, i: nat)
    ensures IsPlainProcess(ProcessAt(s, fcv, i), i, s, fcv)
  {
  }

  /** The argument of a key other than the port before any modification: the agent's log settings come last. */
  predicate IsPlainArg(args: map<string, Arg>, key: string, s: Settings) {
    if key in s.agent.systemLog then key in args && args[key] == s.agent.systemLog[key]
    else if key == "storage.dbPath" then
      key in args && args[key] == Text(if s.dataDir != "" then s.dataDir else "/data")
    else if key == "replication.replSetName" then key in args && args[key] == Text(s.name)
    else key !in args
  }

  lemma ArgIsPlain(s: Settings, fcv: string, i: nat, key: string)
    requires key != "net.port"
    ensures IsPlainArg(ProcessAt(s, fcv, i).args, key, s)
  {
  }

  /** The last modification that sets a key decides it. */
  predicate LastMerges(ms: seq<Modification>, k: nat, key: string) {
    k < |ms| && ms[k].MergeArgs? && key in ms[k].args
    && forall j :: k < j < |ms| && ms[j].MergeArgs? ==> key !in ms[j].args
  }

  predicate NobodyMerges(ms: seq<Modification>, key: string) {
    forall j :: 0 <= j < |ms| && ms[j].MergeArgs? ==> key !in ms[j].args
  }

  /** A key other than the port after some modifications: the last one that sets it, or what was there before. */
  ghost predicate IsModifiedArg(before: map<string, Arg>, after: map<string, Arg>, ms: seq<Modification>, key: string) {
    && (forall k: nat :: LastMerges(ms, k, key) ==> key in after && after[key] == ms[k].args[key])
    && (NobodyMerges(ms, key) ==> (key in after <==> key in before) && (key in before ==> after[key] == before[key]))
  }

  lemma {:induction false} ArgIsModified(ms: seq<Modification>, ac: AutomationConfig, i: nat, key: string)
    requires i < |ac.processes| && key != "net.port"
    ensures |ApplyAll(ms, ac).processes| == |ac.processes|
    ensures IsModifiedArg(ac.processes[i].args, ApplyAll(ms, ac).processes[i].args, ms, key)
  {
    if ms != [] {
      var front, last := ms[..|ms| - 1], ms[|ms| - 1];
      ArgIsModified(front, ac, i, key);
      forall k: nat | LastMerges(ms, k, key)
        ensures key in ApplyAll(ms, ac).processes[i].args && ApplyAll(ms, ac).processes[i].args[key] == ms[k].args[key]
      {
        if k < |front| {
          assert LastMerges(front, k, key);
        }
      }
      if NobodyMerges(ms, key) {
        assert NobodyMerges(front, key);
      }
    }
  }

  /** The last modification of the ports decides every port. */
  lemma PortIsModified(ms: seq<Modification>, ac: AutomationConfig, i: nat)
    requires i < |ac.processes| && ms != [] && ms[|ms| - 1].SetPorts?
    ensures |ApplyAll(ms, ac).processes| == |ac.processes|
    ensures var p, ports := ApplyAll(ms, ac).processes[i], ms[|ms| - 1].ports;
            "net.port" in p.args && p.args["net.port"] == Num(if p.name in ports then ports[p.name] else 0)
  {
    ModificationsKeepSkeleton(ms[..|ms| - 1], ac);
  }

  // ---------------------------------------------------------------- sections

  predicate LastSets(ms: seq<Modification>, k: nat, key: string) {
    k < |ms| && ms[k].SetSection? && ms[k].key == key
    && forall j :: k < j < |ms| && ms[j].SetSection? ==> ms[j].key != key
  }

  predicate NobodySets(ms: seq<Modification>, key: string) {
    forall j :: 0 <= j < |ms| && ms[j].SetSection? ==> ms[j].key != key
  }

  /** A top-level section: of the last modification that sets it, or of the settings; authentication is off by default. */
  ghost predicate IsSection(sections: map<string, string>, ms: seq<Modification>, s: Settings, key: string) {
    && (forall k: nat :: LastSets(ms, k, key) ==> key in sections && sections[key] == ms[k].value)
    && (NobodySets(ms, key) ==>
          if key in s.sections then key in sections && sections[key] == s.sections[key]
          else if key == "auth" then key in sections && sections[key] == "disabled" else key !in sections)
  }

  lemma {:induction false} SectionIsSet(ms: seq<Modification>, s: Settings, ac: AutomationConfig, key: string)
    requires IsSection(ac.sections, [], s, key)
    ensures IsSection(ApplyAll(ms, ac).sections, ms, s, key)
  {
    if ms != [] {
      var front, last := ms[..|ms| - 1], ms[|ms| - 1];
      SectionIsSet(front, s, ac, key);
      forall k: nat | LastSets(ms, k, key)
        ensures key in ApplyAll(ms, ac).sections && ApplyAll(ms, ac).sections[key] == ms[k].value
      {
        if k < |front| {
          assert LastSets(front, k, key);
        }
      }
      if NobodySets(ms, key) {
        assert NobodySets(front, key);
      }
    }
  }

  // ---------------------------------------------------------------- the whole build

  /** The processes of a build with these modifications, whose last one sets the ports. */
  ghost predicate ProcessIsBuilt(p: Process, i: nat, s: Settings, ms: seq<Modification>, fcv: string) {
    && IsPlainProcess(p, i, s, fcv)
    && (forall key: string :: key != "net.port" ==>
          && (forall k: nat :: LastMerges(ms, k, key) ==> key in p.args && p.args[key] == ms[k].args[key])
          && (NobodyMerges(ms, key) ==> IsPlainArg(p.args, key, s)))
    && (ms != [] && ms[|ms| - 1].SetPorts? ==>
          var ports := ms[|ms| - 1].ports;
          "net.port" in p.args && p.args["net.port"] == Num(if p.name in ports then ports[p.name] else 0))
  }

  /** Modifications reach the arguments of a process only. */
  lemma SameButArgs(s: Settings, fcv: string, i: nat, p: Process)
    requires p.(args := map[]) == ProcessAt(s, fcv, i).(args := map[])
    ensures IsPlainProcess(p, i, s, fcv)
  {
    ProcessIsPlain(s, fcv, i);
    assert p == ProcessAt(s, fcv, i).(args := p.args);
  }

  lemma ModifiedArg(s: Settings, ms: seq<Modification>, versions: seq<VersionConfig>, fcv: string, version: int, i: nat,
                    key: string)
    requires i < s.members + s.arbiters && key != "net.port"
    ensures var ps := ApplyAll(ms, Assemble(s, versions, fcv, version)).processes;
            && |ps| == s.members + s.arbiters
            && (forall k: nat :: LastMerges(ms, k, key) ==> key in ps[i].args && ps[i].args[key] == ms[k].args[key])
            && (NobodyMerges(ms, key) ==> IsPlainArg(ps[i].args, key, s))
  {
    ArgIsModified(ms, Assemble(s, versions, fcv, version), i, key);
    ArgIsPlain(s, fcv, i, key);
  }

  lemma ModifiedProcess(s: Settings, ms: seq<Modification>, versions: seq<VersionConfig>, fcv: string, version: int,
                        i: nat)
    requires i < s.members + s.arbiters
    ensures var ps := ApplyAll(ms, Assemble(s, versions, fcv, version)).processes;
            |ps| == s.members + s.arbiters && ProcessIsBuilt(ps[i], i, s, ms, fcv)
  {
    var ac := Assemble(s, versions, fcv, version);
    ModificationsKeepSkeleton(ms, ac);
    SameButArgs(s, fcv, i, ApplyAll(ms, ac).processes[i]);
    forall key: string | key != "net.port"
      ensures var args := ApplyAll(ms, ac).processes[i].args;
              && (forall k: nat :: LastMerges(ms, k, key) ==> key in args && args[key] == ms[k].args[key])
              && (NobodyMerges(ms, key) ==> IsPlainArg(args, key, s))
    {
      ModifiedArg(s, ms, versions, fcv, version, i, key);
    }
    if ms != [] && ms[|ms| - 1].SetPorts? {
      PortIsModified(ms, ac, i);
    }
  }

  /** The one version of a config, with the builds of two flavours for two architectures. */
  predicate VersionIsListed(v: VersionConfig, s: Settings) {
    && IsImageVersion(v.name, s) && |v.builds| == 4
    && forall i :: 0 <= i < 4 ==>
         && v.builds[i].platform == "linux"
         && v.builds[i].architecture == (if i < 2 then "amd64" else "aarch64")
         && v.builds[i].flavor == (if i == 0 || i == 3 then "rhel" else "ubuntu")
         && v.builds[i].modules == if |v.name| >= 4 && v.name[|v.name| - 4..] == "-ent" then ["enterprise"] else []
  }

  /** Everything but the version number. */
  ghost predicate IsBuilt(ac: AutomationConfig, s: Settings, ms: seq<Modification>, fcv: string) {
    && |ac.replicaSets| == 1 && MembersAreBuilt(s, ac.replicaSets[0])
    && |ac.processes| == s.members + s.arbiters
    && (forall i: nat :: i < |ac.processes| ==> ProcessIsBuilt(ac.processes[i], i, s, ms, fcv))
    && (forall key: string :: IsSection(ac.sections, ms, s, key))
    && |ac.versions| == 1 && VersionIsListed(ac.versions[0], s)
  }

  lemma BuiltProcesses(s: Settings, ms: seq<Modification>, fcv: string, previous: AutomationConfig)
    requires EffectiveFcv(previous, fcv, s.mongodbVersion).Ok?
    ensures var f := EffectiveFcv(previous, fcv, s.mongodbVersion).value;
            var ps := BuildSpec(s, ms, fcv, [], previous).value.processes;
            |ps| == s.members + s.arbiters && forall i: nat :: i < |ps| ==> ProcessIsBuilt(ps[i], i, s, ms, f)
  {
    var f := EffectiveFcv(previous, fcv, s.mongodbVersion).value;
    ModificationsKeepSkeleton(ms, Assemble(s, [], f, previous.version));
    forall i: nat | i < s.members + s.arbiters
      ensures ProcessIsBuilt(ApplyAll(ms, Assemble(s, [], f, previous.version)).processes[i], i, s, ms, f)
    {
      ModifiedProcess(s, ms, [], f, previous.version, i);
    }
  }

  lemma BuiltSections(s: Settings, ms: seq<Modification>, fcv: string, previous: AutomationConfig, key: string)
    requires EffectiveFcv(previous, fcv, s.mongodbVersion).Ok?
    ensures IsSection(BuildSpec(s, ms, fcv, [], previous).value.sections, ms, s, key)
  {
    var f := EffectiveFcv(previous, fcv, s.mongodbVersion).value;
    SectionIsSet(ms, s, Assemble(s, [], f, previous.version), key);
  }

  lemma DummyIsListed(s: Settings)
    ensures VersionIsListed(DummyVersionConfig(ImageVersion(s)), s)
  {
    assert ENTERPRISE_SUFFIX == "-ent";
    var v := s.mongodbVersion + "-ent";
    assert v[|v| - 4..] == "-ent";
  }

  lemma BuiltVersions(s: Settings, ms: seq<Modification>, fcv: string, previous: AutomationConfig)
    requires BuildSpec(s, ms, fcv, [], previous).Ok?
    ensures var versions := BuildSpec(s, ms, fcv, [], previous).value.versions;
            |versions| == 1 && VersionIsListed(versions[0], s)
  {
    BuiltKeepsTopology(s, ms, fcv, [], previous);
    DummyIsListed(s);
  }

  /** A build that succeeds has exactly these contents. */
  lemma BuiltExactly(s: Settings, ms: seq<Modification>, fcv: string, previous: AutomationConfig)
    requires BuildSpec(s, ms, fcv, [], previous).Ok?
    ensures EffectiveFcv(previous, fcv, s.mongodbVersion).Ok?
    ensures IsBuilt(BuildSpec(s, ms, fcv, [], previous).value, s, ms, EffectiveFcv(previous, fcv, s.mongodbVersion).value)
  {
    BuiltMembers(s, ms, fcv, [], previous);
    BuiltProcesses(s, ms, fcv, previous);
    BuiltVersions(s, ms, fcv, previous);
    forall key: string
      ensures IsSection(BuildSpec(s, ms, fcv, [], previous).value.sections, ms, s, key)
    {
      BuiltSections(s, ms, fcv, previous, key);
    }
  }

  // ---------------------------------------------------------------- overrides

  /** The last override of that name. */
  predicate LastOverrides(overrides: seq<ProcessOverride>, k: nat, name: string) {
    k < |overrides| && overrides[k].name == name && forall j :: k < j < |overrides| ==> overrides[j].name != name
  }

  lemma {:induction false} LastOverrideExactly(overrides: seq<ProcessOverride>, name: string)
    ensures LastOverride(overrides, name).None? <==> forall j :: 0 <= j < |overrides| ==> overrides[j].name != name
    ensures forall k: nat :: LastOverrides(overrides, k, name) ==>
                               LastOverride(overrides, name) == Some(OverrideToProcess(overrides[k]))
  {
    if overrides != [] {
      var front, last := overrides[..|overrides| - 1], overrides[|overrides| - 1];
      LastOverrideExactly(front, name);
      assert forall j :: 0 <= j < |front| ==> overrides[j] == front[j];
      forall k: nat | LastOverrides(overrides, k, name)
        ensures LastOverride(overrides, name) == Some(OverrideToProcess(overrides[k]))
      {
        if k < |front| {
          assert LastOverrides(front, k, name);
        }
      }
    }
  }

  /** What an override makes of a process: whether it is disabled and its log rotation, and nothing else. */
  ghost predicate IsOverridden(before: Process, after: Process, overrides: seq<ProcessOverride>) {
    && after == before.(disabled := after.disabled, logRotate := after.logRotate)
    && (forall k: nat :: LastOverrides(overrides, k, before.name) ==>
          && after.disabled == overrides[k].disabled
          && after.logRotate == Some(if overrides[k].logRotate.Some? then overrides[k].logRotate.value
                                     else LogRotate(0, 0, 0, false, 0.0, 0.0)))
    && ((forall j :: 0 <= j < |overrides| ==> overrides[j].name != before.name) ==> after == before)
  }

  /** The first process of each name gets the last override of that name. */
  lemma MergedExactly(ac: AutomationConfig, overrides: seq<ProcessOverride>, i: nat)
    requires i < |ac.processes|
    ensures var before, after := ac.processes[i], Merge(ac, overrides).processes[i];
            if exists j :: 0 <= j < i && ac.processes[j].name == before.name then after == before
            else IsOverridden(before, after, overrides)
  {
    IndexByNameFirst(ac.processes, ac.processes[i].name);
    LastOverrideExactly(overrides, ac.processes[i].name);
  }
}
